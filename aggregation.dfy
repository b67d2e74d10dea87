/**
 * The first half of `setUpClass` after the capture: every camera's message
 * count is checked against its nominal frequency, and every message is
 * appended to the bucket of its frame id.
 */
module Aggregation {
  import opened CameraMessages

  /**
   * `service_list[cam].frequency * TEST_TIMESPAN`: a whole number of windows'
   * worth of frames, from which the nominal rate is recovered exactly.
   */
  function ExpectedFrames(frequency: nat): (expected: nat)
    ensures expected % TestTimespan == 0 && expected / TestTimespan == frequency
    ensures expected == 0 <==> frequency == 0
  {
    frequency * TestTimespan
  }

  /**
   * The frame-count assert `expected*0.95 < count < expected*1.05`, scaled by
   * 100 so that it stays in integers; both bounds are strict.
   */
  function FrequencyOk(expected: nat, count: nat): (ok: bool)
    ensures ok <==> 0.95 * (expected as real) < count as real < 1.05 * (expected as real)
    ensures ok ==> 0 < expected && 0 < count
  {
    95 * expected < 100 * count < 105 * expected
  }

  /** The frame-count assert for one entry of `cls.logs`. */
  predicate CameraFrequencyOk(log: CameraLog, frequency: Camera -> nat)
  {
    FrequencyOk(ExpectedFrames(frequency(log.cam)), |log.msgs|)
  }

  /** Total number of messages over all camera logs. */
  function TotalCount(logs: seq<CameraLog>): nat
  {
    if logs == [] then 0 else TotalCount(logs[..|logs| - 1]) + |logs[|logs| - 1].msgs|
  }

  /** All messages, camera after camera in log order, each camera's in arrival order: the order the loop visits them. */
  function Flatten(logs: seq<CameraLog>): (all: seq<Msg>)
    ensures |all| == TotalCount(logs)
  {
    if logs == [] then [] else Flatten(logs[..|logs| - 1]) + logs[|logs| - 1].msgs
  }

  /** The messages of `s` with frame id `id`, in the order they occur in `s`. */
  function FramesOf(s: seq<Msg>, id: nat): (r: seq<Msg>)
    ensures |r| <= |s|
    ensures forall m :: m in r ==> m in s && m.frameId == id
  {
    if s == [] then []
    else
      var init, last := s[..|s| - 1], s[|s| - 1];
      FramesOf(init, id) + (if last.frameId == id then [last] else [])
  }

  /** `FramesOf` keeps every message with frame id `id` as many times as `s` holds it, and no other. */
  lemma {:induction false} FramesOfCount(s: seq<Msg>, id: nat, m: Msg)
    ensures multiset(FramesOf(s, id))[m] == if m.frameId == id then multiset(s)[m] else 0
  {
    if s != [] {
      var init, last := s[..|s| - 1], s[|s| - 1];
      assert s == init + [last];
      FramesOfCount(init, id, m);
    }
  }

  /** The frame ids that occur in `s`. */
  function FrameIds(s: seq<Msg>): set<nat>
  {
    set m | m in s :: m.frameId
  }

  lemma FramesOfPresent(s: seq<Msg>)
    ensures forall m :: m in s ==> m in FramesOf(s, m.frameId)
  {
    forall m | m in s
      ensures m in FramesOf(s, m.frameId)
    {
      FramesOfCount(s, m.frameId, m);
    }
  }

  /**
   * `log_by_frame_id` once every message of `s` has been appended: the keys
   * are exactly the frame ids that occur, every bucket is non-empty and
   * holds only messages of `s` with its own id.
   */
  function GroupByFrameId(s: seq<Msg>): (g: FrameMap)
    ensures g.Keys == FrameIds(s)
    ensures NonEmptyBuckets(g)
    ensures forall id, m :: id in g && m in g[id] ==> m in s && m.frameId == id
  {
    FramesOfPresent(s);
    map id | id in FrameIds(s) :: FramesOf(s, id)
  }

  /**
   * Aggregation is a partition: each message of `s` lies in the bucket of its
   * own frame id exactly as many times as it occurs in `s`, and in no other.
   */
  lemma GroupPartition(s: seq<Msg>, m: Msg)
    ensures m in s ==> m.frameId in GroupByFrameId(s)
    ensures forall id :: id in GroupByFrameId(s) ==>
      multiset(GroupByFrameId(s)[id])[m] == if id == m.frameId then multiset(s)[m] else 0
  {
    forall id | id in GroupByFrameId(s)
      ensures multiset(GroupByFrameId(s)[id])[m] == if id == m.frameId then multiset(s)[m] else 0
    {
      FramesOfCount(s, id, m);
    }
  }

  /** Reading any id of the grouped map, present or not, gives the messages with that id. */
  lemma LookupGroup(s: seq<Msg>, id: nat)
    ensures Lookup(GroupByFrameId(s), id) == FramesOf(s, id)
  {
  }

  /** Appending one message to the bucket of its frame id extends the grouping by that message. */
  lemma GroupAppend(s: seq<Msg>, m: Msg)
    ensures GroupByFrameId(s + [m])
         == GroupByFrameId(s)[m.frameId := Lookup(GroupByFrameId(s), m.frameId) + [m]]
  {
    var s' := s + [m];
    assert s'[..|s'| - 1] == s;
    var lhs := GroupByFrameId(s');
    var rhs := GroupByFrameId(s)[m.frameId := Lookup(GroupByFrameId(s), m.frameId) + [m]];
    assert FrameIds(s') == FrameIds(s) + {m.frameId};
    assert lhs.Keys == rhs.Keys;
    forall id | id in lhs
      ensures lhs[id] == rhs[id]
    {
      assert lhs[id] == FramesOf(s', id);
      assert FramesOf(s', id) == FramesOf(s, id) + (if m.frameId == id then [m] else []);
      LookupGroup(s, id);
    }
  }

  /**
   * Lines 36-42 of the source: walk the camera logs in order; a camera whose
   * count fails the frequency assert stops the walk with that camera's
   * expected and actual counts; otherwise each of its messages is appended
   * to the bucket of its frame id.
   */
  method CollectByFrameId(logs: seq<CameraLog>, frequency: Camera -> nat)
    returns (r: Result<FrameMap, SetUpError>)
    ensures r.Ok? <==> forall i :: 0 <= i < |logs| ==> CameraFrequencyOk(logs[i], frequency)
    ensures r.Ok? ==> r.value == GroupByFrameId(Flatten(logs))
    ensures r.Err? ==>
      exists i :: 0 <= i < |logs| && !CameraFrequencyOk(logs[i], frequency)
        && (forall j :: 0 <= j < i ==> CameraFrequencyOk(logs[j], frequency))
        && r.error == FrequencyMismatch(logs[i].cam, ExpectedFrames(frequency(logs[i].cam)), |logs[i].msgs|)
  {
    var byId: FrameMap := map[];
    var i := 0;
    while i < |logs|
      invariant 0 <= i <= |logs|
      invariant forall j :: 0 <= j < i ==> CameraFrequencyOk(logs[j], frequency)
      invariant byId == GroupByFrameId(Flatten(logs[..i]))
    {
      var log := logs[i];
      var expected := ExpectedFrames(frequency(log.cam));
      if !FrequencyOk(expected, |log.msgs|) {
        return Err(FrequencyMismatch(log.cam, expected, |log.msgs|));
      }
      FlattenPrefix(logs, i);
      ghost var done := Flatten(logs[..i]);
      var k := 0;
      assert done + log.msgs[..k] == done;
      while k < |log.msgs|
        invariant 0 <= k <= |log.msgs|
        invariant byId == GroupByFrameId(done + log.msgs[..k])
      {
        var m := log.msgs[k];
        ghost var before := done + log.msgs[..k];
        GroupAppend(before, m);
        PrefixSnoc(done, log.msgs, k);
        byId := byId[m.frameId := Lookup(byId, m.frameId) + [m]];
        k := k + 1;
      }
      assert log.msgs[..k] == log.msgs;
      i := i + 1;
      assert byId == GroupByFrameId(Flatten(logs[..i]));
    }
    assert logs[..i] == logs;
    return Ok(byId);
  }

  lemma PrefixSnoc(done: seq<Msg>, msgs: seq<Msg>, k: nat)
    requires k < |msgs|
    ensures done + msgs[..k + 1] == (done + msgs[..k]) + [msgs[k]]
  {
  }

  lemma FlattenPrefix(logs: seq<CameraLog>, i: nat)
    requires i < |logs|
    ensures Flatten(logs[..i + 1]) == Flatten(logs[..i]) + logs[i].msgs
  {
    assert logs[..i + 1][..i] == logs[..i];
  }

  /** Sum of the bucket sizes of the frame ids below `n`. */
  function SizeBelow(g: FrameMap, n: nat): nat
  {
    if n == 0 then 0 else SizeBelow(g, n - 1) + |Lookup(g, n - 1)|
  }

  /** The messages of `s` whose frame id is below `n`. */
  function IdsBelow(s: seq<Msg>, n: nat): seq<Msg>
  {
    if s == [] then []
    else IdsBelow(s[..|s| - 1], n) + (if s[|s| - 1].frameId < n then [s[|s| - 1]] else [])
  }

  lemma {:induction false} IdsBelowStep(s: seq<Msg>, n: nat)
    ensures |IdsBelow(s, n + 1)| == |IdsBelow(s, n)| + |FramesOf(s, n)|
  {
    if s != [] {
      IdsBelowStep(s[..|s| - 1], n);
    }
  }

  lemma {:induction false} IdsBelowAll(s: seq<Msg>, n: nat)
    requires forall m :: m in s ==> m.frameId < n
    ensures IdsBelow(s, n) == s
  {
    if s != [] {
      var init := s[..|s| - 1];
      assert s == init + [s[|s| - 1]];
      assert forall m :: m in init ==> m in s;
      IdsBelowAll(init, n);
    }
  }

  lemma {:induction false} SizeBelowCount(s: seq<Msg>, n: nat)
    ensures SizeBelow(GroupByFrameId(s), n) == |IdsBelow(s, n)|
  {
    if n == 0 {
      IdsBelowNone(s);
    } else {
      var g := GroupByFrameId(s);
      assert SizeBelow(g, n) == SizeBelow(g, n - 1) + |Lookup(g, n - 1)|;
      SizeBelowCount(s, n - 1);
      IdsBelowStep(s, n - 1);
      LookupGroup(s, n - 1);
    }
  }

  lemma {:induction false} IdsBelowNone(s: seq<Msg>)
    ensures IdsBelow(s, 0) == []
  {
    if s != [] {
      IdsBelowNone(s[..|s| - 1]);
    }
  }

  /**
   * Aggregation loses and invents no message: once `n` exceeds every frame
   * id, the buckets of `log_by_frame_id` hold as many messages in total as
   * all camera logs together.
   */
  lemma AggregationKeepsCount(logs: seq<CameraLog>, n: nat)
    requires forall i, m :: 0 <= i < |logs| && m in logs[i].msgs ==> m.frameId < n
    ensures SizeBelow(GroupByFrameId(Flatten(logs)), n) == TotalCount(logs)
  {
    FlattenMembers(logs);
    IdsBelowAll(Flatten(logs), n);
    SizeBelowCount(Flatten(logs), n);
  }

  lemma {:induction false} FlattenMembers(logs: seq<CameraLog>)
    ensures forall m :: m in Flatten(logs) ==> exists i :: 0 <= i < |logs| && m in logs[i].msgs
  {
    if logs != [] {
      var init := logs[..|logs| - 1];
      FlattenMembers(init);
      forall m | m in Flatten(logs)
        ensures exists i :: 0 <= i < |logs| && m in logs[i].msgs
      {
        if m in Flatten(init) {
          var i :| 0 <= i < |init| && m in init[i].msgs;
          assert logs[i] == init[i];
        } else {
          assert m in logs[|logs| - 1].msgs;
        }
      }
    }
  }

  /** The messages of `s` from camera `c`, in the order they occur in `s`. */
  function OfCamera(s: seq<Msg>, c: Camera): seq<Msg>
  {
    if s == [] then []
    else OfCamera(s[..|s| - 1], c) + (if s[|s| - 1].cam == c then [s[|s| - 1]] else [])
  }

  /** Every log holds only messages of its own camera (one socket per camera). */
  predicate WellTagged(logs: seq<CameraLog>)
  {
    forall i, m :: 0 <= i < |logs| && m in logs[i].msgs ==> m.cam == logs[i].cam
  }

  /** No camera has two logs (`cls.logs` is keyed by camera). */
  predicate DistinctCameras(logs: seq<CameraLog>)
  {
    forall i, j :: 0 <= i < j < |logs| ==> logs[i].cam != logs[j].cam
  }

  lemma {:induction false} FiltersCommute(s: seq<Msg>, c: Camera, id: nat)
    ensures OfCamera(FramesOf(s, id), c) == FramesOf(OfCamera(s, c), id)
  {
    if s != [] {
      var init, last := s[..|s| - 1], s[|s| - 1];
      FiltersCommute(init, c, id);
      OfCameraAppend(FramesOf(init, id), if last.frameId == id then [last] else [], c);
      FramesOfAppend(OfCamera(init, c), if last.cam == c then [last] else [], id);
    }
  }

  lemma {:induction false} OfCameraAppend(a: seq<Msg>, b: seq<Msg>, c: Camera)
    ensures OfCamera(a + b, c) == OfCamera(a, c) + OfCamera(b, c)
  {
    if b != [] {
      var ab := a + b;
      assert ab[..|ab| - 1] == a + b[..|b| - 1];
      OfCameraAppend(a, b[..|b| - 1], c);
    } else {
      assert a + b == a;
    }
  }

  lemma {:induction false} FramesOfAppend(a: seq<Msg>, b: seq<Msg>, id: nat)
    ensures FramesOf(a + b, id) == FramesOf(a, id) + FramesOf(b, id)
  {
    if b != [] {
      var ab := a + b;
      assert ab[..|ab| - 1] == a + b[..|b| - 1];
      FramesOfAppend(a, b[..|b| - 1], id);
    } else {
      assert a + b == a;
    }
  }

  lemma {:induction false} OfCameraAll(s: seq<Msg>, c: Camera)
    requires forall m :: m in s ==> m.cam == c
    ensures OfCamera(s, c) == s
  {
    if s != [] {
      var init := s[..|s| - 1];
      assert s == init + [s[|s| - 1]];
      assert forall m :: m in init ==> m in s;
      OfCameraAll(init, c);
    }
  }

  lemma {:induction false} OfCameraNone(s: seq<Msg>, c: Camera)
    requires forall m :: m in s ==> m.cam != c
    ensures OfCamera(s, c) == []
  {
    if s != [] {
      var init := s[..|s| - 1];
      assert forall m :: m in init ==> m in s;
      OfCameraNone(init, c);
    }
  }

  lemma {:induction false} OfCameraFlatten(logs: seq<CameraLog>, i: nat)
    requires WellTagged(logs) && DistinctCameras(logs) && i < |logs|
    ensures OfCamera(Flatten(logs), logs[i].cam) == logs[i].msgs
  {
    var n := |logs| - 1;
    var init := logs[..n];
    assert WellTagged(init) && DistinctCameras(init);
    OfCameraAppend(Flatten(init), logs[n].msgs, logs[i].cam);
    if i == n {
      OfCameraNoneFlatten(init, logs[n].cam);
      OfCameraAll(logs[n].msgs, logs[n].cam);
    } else {
      OfCameraFlatten(init, i);
      OfCameraNone(logs[n].msgs, logs[i].cam);
    }
  }

  lemma {:induction false} OfCameraNoneFlatten(logs: seq<CameraLog>, c: Camera)
    requires WellTagged(logs)
    requires forall i :: 0 <= i < |logs| ==> logs[i].cam != c
    ensures OfCamera(Flatten(logs), c) == []
  {
    if logs != [] {
      var n := |logs| - 1;
      assert WellTagged(logs[..n]);
      OfCameraNoneFlatten(logs[..n], c);
      OfCameraAppend(Flatten(logs[..n]), logs[n].msgs, c);
      OfCameraNone(logs[n].msgs, c);
    }
  }

  /**
   * Within any bucket of `log_by_frame_id`, the messages of one camera are
   * exactly that camera's messages with this frame id, in the order they
   * arrived on its socket.
   */
  lemma BucketKeepsCameraOrder(logs: seq<CameraLog>, i: nat, id: nat)
    requires WellTagged(logs) && DistinctCameras(logs) && i < |logs|
    ensures OfCamera(Lookup(GroupByFrameId(Flatten(logs)), id), logs[i].cam) == FramesOf(logs[i].msgs, id)
  {
    LookupGroup(Flatten(logs), id);
    FiltersCommute(Flatten(logs), logs[i].cam, id);
    OfCameraFlatten(logs, i);
  }

  /** In every bucket of `byId`, each camera's messages are its own messages with that id, in arrival order. */
  ghost predicate KeepsCameraOrder(logs: seq<CameraLog>, byId: FrameMap)
  {
    forall i, id :: 0 <= i < |logs| && id in byId ==> OfCamera(byId[id], logs[i].cam) == FramesOf(logs[i].msgs, id)
  }

  /** Any map whose buckets are buckets of the grouping (such as the trimmed one) keeps each camera's order. */
  lemma BucketsKeepCameraOrder(logs: seq<CameraLog>, byId: FrameMap)
    requires WellTagged(logs) && DistinctCameras(logs)
    requires forall id :: id in byId ==> byId[id] == FramesOf(Flatten(logs), id)
    ensures KeepsCameraOrder(logs, byId)
  {
    forall i, id | 0 <= i < |logs| && id in byId
      ensures OfCamera(byId[id], logs[i].cam) == FramesOf(logs[i].msgs, id)
    {
      FiltersCommute(Flatten(logs), logs[i].cam, id);
      OfCameraFlatten(logs, i);
    }
  }
}
