/**
 * The test class itself: `setUpClass` turns the frozen per-camera logs into
 * `log_by_frame_id`, which `test_frame_skips` and `test_frame_sync` then read.
 */
module CameradTest {
  import opened CameraMessages
  import Aggregation
  import Trimming
  import FrameSkips
  import FrameSync

  class TestCamerad {
    /** `cls.logs`, frozen once camerad has been stopped. */
    var logs: seq<CameraLog>
    /** `cls.log_by_frame_id`. */
    var logByFrameId: FrameMap

    /**
     * `cls.logs` is keyed by camera and each log holds only what that
     * camera's socket delivered; every bucket of the frame map holds a
     * message, which `max(ts)` and `min(ts)` in the sync test need.
     */
    ghost predicate Valid()
      reads this
    {
      && Aggregation.WellTagged(logs)
      && Aggregation.DistinctCameras(logs)
      && NonEmptyBuckets(logByFrameId)
    }

    /** The state once the capture loop has filled the logs, before any frame-id bookkeeping. */
    constructor (captured: seq<CameraLog>)
      requires Aggregation.WellTagged(captured) && Aggregation.DistinctCameras(captured)
      ensures Valid()
      ensures logs == captured && logByFrameId == map[]
    {
      logs := captured;
      logByFrameId := map[];
    }

    /**
     * `setUpClass` after the capture (lines 36-48): the frequency assert
     * per camera, the grouping by frame id and the three trimming rounds.
     * It succeeds iff every camera's count passes and at least six distinct
     * frame ids were captured; `log_by_frame_id` then holds, for every id
     * but the three smallest and the three largest, all captured messages
     * with that id. A failure reports the first camera whose count is off,
     * or else which of `min()` or `del` raised.
     */
    method SetUpClass(frequency: Camera -> nat) returns (err: Option<SetUpError>)
      requires Valid()
      modifies this
      ensures Valid()
      ensures logs == old(logs)
      ensures err.None? <==>
        (forall i :: 0 <= i < |logs| ==> Aggregation.CameraFrequencyOk(logs[i], frequency))
        && |Aggregation.FrameIds(Aggregation.Flatten(logs))| >= 2 * TrimRounds
      ensures err.None? ==>
        logByFrameId.Keys == Trimming.Surviving(Aggregation.FrameIds(Aggregation.Flatten(logs)), TrimRounds)
      ensures err.None? ==>
        forall id :: id in logByFrameId ==> logByFrameId[id] == Aggregation.FramesOf(Aggregation.Flatten(logs), id)
      ensures err.None? ==> Aggregation.KeepsCameraOrder(logs, logByFrameId)
      ensures err.Some? && !(forall i :: 0 <= i < |logs| ==> Aggregation.CameraFrequencyOk(logs[i], frequency)) ==>
        exists i :: 0 <= i < |logs| && !Aggregation.CameraFrequencyOk(logs[i], frequency)
          && (forall j :: 0 <= j < i ==> Aggregation.CameraFrequencyOk(logs[j], frequency))
          && err.value == FrequencyMismatch(logs[i].cam, Aggregation.ExpectedFrames(frequency(logs[i].cam)), |logs[i].msgs|)
      ensures err.Some? && (forall i :: 0 <= i < |logs| ==> Aggregation.CameraFrequencyOk(logs[i], frequency)) ==>
        err.value == if |Aggregation.FrameIds(Aggregation.Flatten(logs))| % 2 == 0 then MinOfEmpty else KeyDeletedTwice
      ensures err.Some? ==> logByFrameId == old(logByFrameId)
    {
      var collected := Aggregation.CollectByFrameId(logs, frequency);
      if collected.Err? {
        return Some(collected.error);
      }
      var trimmed := Trimming.TrimEdges(collected.value);
      if trimmed.Err? {
        return Some(trimmed.error);
      }
      Aggregation.BucketsKeepCameraOrder(logs, trimmed.value);
      logByFrameId := trimmed.value;
      return None;
    }

    /**
     * `test_frame_skips` (lines 54-62). None when there is no frame id left,
     * where `min` raises. The test passes iff the recorded skips are empty,
     * i.e. iff every id from the smallest up to, but not including, the
     * largest has a message from every camera.
     */
    method TestFrameSkips() returns (skips: Option<FrameSkips.SkipMap>, passed: bool)
      ensures skips.None? <==> logByFrameId == map[]
      ensures skips.Some? ==>
        skips.value == FrameSkips.SkipsIn(logByFrameId, MinKey(logByFrameId.Keys), MaxKey(logByFrameId.Keys))
      ensures passed <==> skips == Some(map[])
      ensures passed <==>
        logByFrameId != map[] &&
        forall id, c :: MinKey(logByFrameId.Keys) <= id < MaxKey(logByFrameId.Keys) && c in Cameras ==>
          FrameSkips.HasMessageFrom(Lookup(logByFrameId, id), c)
    {
      skips := FrameSkips.FrameSkips(logByFrameId);
      passed := skips == Some(map[]);
      if skips.Some? {
        FrameSkips.SkipsEmptyIff(logByFrameId, MinKey(logByFrameId.Keys), MaxKey(logByFrameId.Keys));
      }
    }

    /**
     * `test_frame_sync` (lines 64-73): the laggy frames with their
     * descriptions; the test passes iff no bucket holds two messages whose
     * start-of-frame times are more than 0.5 ms apart.
     */
    method TestFrameSync() returns (laggy: map<nat, FrameSync.SyncDesc>, passed: bool)
      requires Valid()
      ensures laggy == FrameSync.LaggyFrames(logByFrameId)
      ensures laggy.Keys <= logByFrameId.Keys
      ensures passed <==> forall id :: id in logByFrameId ==> !FrameSync.OutOfSync(logByFrameId[id])
    {
      laggy := FrameSync.LaggyFrames(logByFrameId);
      passed := laggy == map[];
      FrameSync.SyncPassIff(logByFrameId);
    }

    /**
     * Both tests in the order unittest runs them (skips, then sync). Since
     * the skip scan reads absent ids as empty without inserting them, the
     * sync verdict is the one the frame map from `setUpClass` gives, whatever
     * the skip test found.
     */
    method RunTests() returns (skipsPassed: bool, laggy: map<nat, FrameSync.SyncDesc>, syncPassed: bool)
      requires Valid()
      ensures Valid()
      ensures skipsPassed <==>
        logByFrameId != map[] &&
        forall id, c :: MinKey(logByFrameId.Keys) <= id < MaxKey(logByFrameId.Keys) && c in Cameras ==>
          FrameSkips.HasMessageFrom(Lookup(logByFrameId, id), c)
      ensures laggy == FrameSync.LaggyFrames(logByFrameId)
      ensures syncPassed <==> forall id :: id in logByFrameId ==> !FrameSync.OutOfSync(logByFrameId[id])
    {
      var skips;
      skips, skipsPassed := TestFrameSkips();
      laggy, syncPassed := TestFrameSync();
    }
  }
}
