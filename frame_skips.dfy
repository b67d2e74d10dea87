/**
 * `test_frame_skips`: every frame id from the smallest trimmed id up to, but
 * not including, the largest must have a message from every camera.
 */
module FrameSkips {
  import opened CameraMessages

  /** Frame id to the cameras that sent nothing for it. */
  type SkipMap = map<nat, set<Camera>>

  /** `set(seen_cams)`: the cameras with at least one message in `msgs`. */
  function SeenCameras(msgs: seq<Msg>): set<Camera>
  {
    set m | m in msgs :: m.cam
  }

  /** Some message in `msgs` comes from camera `c`. */
  predicate HasMessageFrom(msgs: seq<Msg>, c: Camera)
  {
    exists m :: m in msgs && m.cam == c
  }

  /**
   * `skip_cams`: the cameras with no message for `id`. An id with no bucket
   * at all misses every camera.
   */
  function MissingCameras(byId: FrameMap, id: nat): (missing: set<Camera>)
    ensures missing <= Cameras
    ensures id !in byId ==> missing == Cameras
  {
    Cameras - SeenCameras(Lookup(byId, id))
  }

  /** A camera is missing for `id` iff none of the messages read for `id` comes from it. */
  lemma MissingCamerasIff(byId: FrameMap, id: nat, c: Camera)
    ensures c in MissingCameras(byId, id) <==> c in Cameras && !HasMessageFrom(Lookup(byId, id), c)
  {
  }

  /** The skips recorded by a scan of the ids `lo <= id < hi`. */
  function SkipsIn(byId: FrameMap, lo: nat, hi: nat): (skips: SkipMap)
    ensures forall id :: id in skips <==> lo <= id < hi && MissingCameras(byId, id) != {}
    ensures forall id :: id in skips ==> skips[id] == MissingCameras(byId, id)
  {
    map id | lo <= id < hi && MissingCameras(byId, id) != {} :: MissingCameras(byId, id)
  }

  lemma SkipsInStep(byId: FrameMap, lo: nat, id: nat)
    requires lo <= id
    ensures SkipsIn(byId, lo, id + 1)
         == if MissingCameras(byId, id) != {} then SkipsIn(byId, lo, id)[id := MissingCameras(byId, id)]
            else SkipsIn(byId, lo, id)
  {
  }

  /**
   * Lines 54-61 of the source. With no frame ids, `min` raises (None).
   * Otherwise the scan runs over `min(ids) <= id < max(ids)` and records,
   * for each id that lacks a camera, exactly the cameras it lacks; the
   * largest id is never examined.
   */
  method FrameSkips(byId: FrameMap) returns (r: Option<SkipMap>)
    ensures r.None? <==> byId == map[]
    ensures r.Some? ==> r.value == SkipsIn(byId, MinKey(byId.Keys), MaxKey(byId.Keys))
    ensures r.Some? ==> MaxKey(byId.Keys) !in r.value
  {
    if byId == map[] {
      return None;
    }
    var lo, hi := MinKey(byId.Keys), MaxKey(byId.Keys);
    var skips: SkipMap := map[];
    for id := lo to hi
      invariant skips == SkipsIn(byId, lo, id)
    {
      var skipCams := Cameras - SeenCameras(Lookup(byId, id));
      SkipsInStep(byId, lo, id);
      assert skipCams == MissingCameras(byId, id);
      if |skipCams| > 0 {
        skips := skips[id := skipCams];
      }
    }
    return Some(skips);
  }

  /**
   * The skip test passes (the recorded skips are empty) iff every id in
   * `lo <= id < hi` has a message from every camera.
   */
  lemma SkipsEmptyIff(byId: FrameMap, lo: nat, hi: nat)
    ensures SkipsIn(byId, lo, hi) == map[]
        <==> forall id, c :: lo <= id < hi && c in Cameras ==> HasMessageFrom(Lookup(byId, id), c)
  {
    var skips := SkipsIn(byId, lo, hi);
    if skips == map[] {
      forall id, c | lo <= id < hi && c in Cameras
        ensures HasMessageFrom(Lookup(byId, id), c)
      {
        assert id !in skips;
        MissingCamerasIff(byId, id, c);
      }
    } else {
      var id :| id in skips;
      var c :| c in MissingCameras(byId, id);
      MissingCamerasIff(byId, id, c);
    }
  }

  /**
   * Duplicates do not matter: another message from a camera already seen
   * for an id leaves the recorded skips unchanged.
   */
  lemma DuplicateIgnored(byId: FrameMap, lo: nat, hi: nat, id: nat, m: Msg)
    requires HasMessageFrom(Lookup(byId, id), m.cam)
    ensures SkipsIn(byId[id := Lookup(byId, id) + [m]], lo, hi) == SkipsIn(byId, lo, hi)
  {
    var byId' := byId[id := Lookup(byId, id) + [m]];
    assert SeenCameras(Lookup(byId', id)) == SeenCameras(Lookup(byId, id));
    forall j ensures MissingCameras(byId', j) == MissingCameras(byId, j) {
      if j != id {
        assert Lookup(byId', j) == Lookup(byId, j);
      }
    }
  }

  /**
   * On frames that are otherwise complete, one camera missing from one id
   * inside the scanned range is reported as exactly that id missing exactly
   * that camera.
   */
  lemma SingleDropReported(byId: FrameMap, lo: nat, hi: nat, id: nat, c: Camera, msgs: seq<Msg>)
    requires SkipsIn(byId, lo, hi) == map[]
    requires lo <= id < hi && c in Cameras
    requires SeenCameras(msgs) == Cameras - {c}
    ensures SkipsIn(byId[id := msgs], lo, hi) == map[id := {c}]
  {
    var byId' := byId[id := msgs];
    forall j | lo <= j < hi && j != id
      ensures MissingCameras(byId', j) == {}
    {
      assert j !in SkipsIn(byId, lo, hi);
      assert Lookup(byId', j) == Lookup(byId, j);
    }
    assert MissingCameras(byId', id) == {c};
  }

  /**
   * The scan as written also changes `log_by_frame_id`: reading an absent id
   * of the defaultdict inserts an empty bucket for it, so after the scan
   * every id in `lo <= id < hi` is a key.
   */
  function ScanWithDefaultInsert(byId: FrameMap, lo: nat, hi: nat): (after: FrameMap)
    ensures forall id :: id in after <==> id in byId || lo <= id < hi
    ensures forall id :: id in after ==> after[id] == Lookup(byId, id)
  {
    byId + map id | lo <= id < hi && id !in byId :: []
  }

  /**
   * An id in the scanned range with no message at all is left behind as an
   * empty bucket, on which the sync test's `max(ts)` raises.
   */
  lemma DefaultInsertLeavesEmptyBucket(byId: FrameMap, lo: nat, hi: nat, id: nat)
    requires lo <= id < hi && id !in byId
    ensures id in ScanWithDefaultInsert(byId, lo, hi)
    ensures !NonEmptyBuckets(ScanWithDefaultInsert(byId, lo, hi))
  {
  }
}
