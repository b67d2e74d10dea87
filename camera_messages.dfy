/**
 * Vocabulary shared by the camera synchronisation test: the camera services
 * it subscribes to, the per-frame messages they publish, the constants of the
 * test and the frame-id map that the later stages build and read.
 */
module CameraMessages {

  /** The camera services listed in `CAMERAS`. */
  datatype Camera = RoadCameraState | DriverCameraState | WideRoadCameraState

  /** `set(CAMERAS)`: every camera the skip check expects for a frame id. */
  const Cameras: set<Camera> := {RoadCameraState, DriverCameraState, WideRoadCameraState}

  /** `TEST_TIMESPAN`: length of the capture window, in seconds. */
  const TestTimespan: nat := 30

  /** `LAG_FRAME_TOLERANCE` (0.5 ms), in nanoseconds, the unit of `timestampSof`. */
  const LagFrameToleranceNs: nat := 500000

  /** Number of rounds in which the smallest and largest frame id are dropped. */
  const TrimRounds: nat := 3

  /**
   * One camera-state message: `which()` is `cam`; `frameId` and
   * `timestampSof` (start of frame, in nanoseconds) come from its payload.
   */
  datatype Msg = Msg(cam: Camera, frameId: nat, timestampSof: nat)

  /** One entry of `cls.logs`: a camera and every message drained from its socket, in arrival order. */
  datatype CameraLog = CameraLog(cam: Camera, msgs: seq<Msg>)

  /** `cls.log_by_frame_id`: frame id to the messages captured with that id. */
  type FrameMap = map<nat, seq<Msg>>

  datatype Option<T> = None | Some(value: T)

  datatype Result<T, E> = Ok(value: T) | Err(error: E)

  /** The ways `setUpClass` raises once the capture is over. */
  datatype SetUpError =
    | FrequencyMismatch(cam: Camera, expected: nat, got: nat)  // the frame-count assert
    | MinOfEmpty                                              // `min()` over no frame ids (ValueError)
    | KeyDeletedTwice                                         // smallest id == largest id: second `del` fails (KeyError)

  /**
   * Reading `log_by_frame_id[frame_id]`: an id without a bucket reads as the
   * empty list. The source's defaultdict also inserts that empty list into
   * the map; this lookup does not (see FrameSkips.ScanWithDefaultInsert).
   */
  function Lookup(byId: FrameMap, id: nat): (msgs: seq<Msg>)
    ensures id in byId ==> msgs == byId[id]
    ensures id !in byId ==> msgs == []
  {
    if id in byId then byId[id] else []
  }

  /** Every frame id present in the map has at least one message: what `max(ts)` and `min(ts)` need. */
  predicate NonEmptyBuckets(byId: FrameMap)
  {
    forall id :: id in byId ==> byId[id] != []
  }

  /** On a map whose buckets are all non-empty, a read comes back empty iff the id has no bucket. */
  lemma EmptyReadIffAbsent(byId: FrameMap, id: nat)
    requires NonEmptyBuckets(byId)
    ensures Lookup(byId, id) == [] <==> id !in byId
  {
  }

  /** `k` is `min(keys)`. */
  predicate IsMinOf(keys: set<nat>, k: nat)
  {
    k in keys && forall j :: j in keys ==> k <= j
  }

  /** `k` is `max(keys)`. */
  predicate IsMaxOf(keys: set<nat>, k: nat)
  {
    k in keys && forall j :: j in keys ==> j <= k
  }

  /** `min(keys)`. */
  function MinKey(keys: set<nat>): (k: nat)
    requires keys != {}
    ensures IsMinOf(keys, k)
  {
    HasMin(keys);
    var k :| IsMinOf(keys, k); k
  }

  /** `max(keys)`. */
  function MaxKey(keys: set<nat>): (k: nat)
    requires keys != {}
    ensures IsMaxOf(keys, k)
  {
    HasMax(keys);
    var k :| IsMaxOf(keys, k); k
  }

  lemma {:induction false} HasMin(keys: set<nat>)
    requires keys != {}
    ensures exists k :: IsMinOf(keys, k)
  {
    var x :| x in keys;
    if keys == {x} {
      assert IsMinOf(keys, x);
    } else {
      var rest := keys - {x};
      HasMin(rest);
      var y :| IsMinOf(rest, y);
      var k := if x < y then x else y;
      forall j | j in keys ensures k <= j {
        if j != x { assert j in rest; }
      }
      assert IsMinOf(keys, k);
    }
  }

  lemma {:induction false} HasMax(keys: set<nat>)
    requires keys != {}
    ensures exists k :: IsMaxOf(keys, k)
  {
    var x :| x in keys;
    if keys == {x} {
      assert IsMaxOf(keys, x);
    } else {
      var rest := keys - {x};
      HasMax(rest);
      var y :| IsMaxOf(rest, y);
      var k := if y < x then x else y;
      forall j | j in keys ensures j <= k {
        if j != x { assert j in rest; }
      }
      assert IsMaxOf(keys, k);
    }
  }
}
