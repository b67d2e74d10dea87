/**
 * `test_frame_sync`: for every trimmed frame id, the start-of-frame
 * timestamps of the messages captured for it may spread by at most 0.5 ms.
 */
module FrameSync {
  import opened CameraMessages

  /** `[timestampSof for m in msgs]`. */
  function Timestamps(msgs: seq<Msg>): (ts: seq<int>)
    ensures |ts| == |msgs|
  {
    seq(|msgs|, i requires 0 <= i < |msgs| => msgs[i].timestampSof)
  }

  /** A timestamp occurs in `Timestamps(msgs)` iff some message carries it. */
  lemma TimestampsMembers(msgs: seq<Msg>, t: int)
    ensures t in Timestamps(msgs) <==> exists m :: m in msgs && m.timestampSof == t
  {
    var ts := Timestamps(msgs);
    if t in ts {
      var i :| 0 <= i < |ts| && ts[i] == t;
      assert msgs[i] in msgs;
    }
    if exists m :: m in msgs && m.timestampSof == t {
      var m :| m in msgs && m.timestampSof == t;
      var i :| 0 <= i < |msgs| && msgs[i] == m;
      assert ts[i] == t;
    }
  }

  /** `max(ts)`. */
  function MaxOf(ts: seq<int>): (r: int)
    requires ts != []
    ensures r in ts && forall t :: t in ts ==> t <= r
  {
    if |ts| == 1 then ts[0]
    else
      var rest := MaxOf(ts[1..]);
      assert forall t :: t in ts ==> t == ts[0] || t in ts[1..];
      if ts[0] < rest then rest else ts[0]
  }

  /** `min(ts)`. */
  function MinOf(ts: seq<int>): (r: int)
    requires ts != []
    ensures r in ts && forall t :: t in ts ==> r <= t
  {
    if |ts| == 1 then ts[0]
    else
      var rest := MinOf(ts[1..]);
      assert forall t :: t in ts ==> t == ts[0] || t in ts[1..];
      if rest < ts[0] then rest else ts[0]
  }

  /**
   * `max(ts) - min(ts)`: the largest difference between two of the
   * timestamps, never negative.
   */
  function Spread(ts: seq<int>): (d: int)
    requires ts != []
    ensures d >= 0
    ensures forall a, b :: a in ts && b in ts ==> a - b <= d
    ensures exists a, b :: a in ts && b in ts && a - b == d
  {
    MaxOf(ts) - MinOf(ts)
  }

  /** `frame_times`: frame id to the timestamps of its messages, in bucket order. */
  function FrameTimes(byId: FrameMap): (times: map<nat, seq<int>>)
    ensures times.Keys == byId.Keys
  {
    map id | id in byId :: Timestamps(byId[id])
  }

  /** `diffs`, in nanoseconds (the source divides by 1e6 to get milliseconds). */
  function Diffs(byId: FrameMap): (diffs: map<nat, int>)
    requires NonEmptyBuckets(byId)
    ensures diffs.Keys == byId.Keys
    ensures forall id :: id in diffs ==> diffs[id] >= 0
  {
    var times := FrameTimes(byId);
    map id | id in times :: Spread(times[id])
  }

  /** What `get_desc` reports for a laggy frame: its spread and each message's camera and timestamp. */
  datatype SyncDesc = SyncDesc(diff: int, camTimes: seq<(Camera, int)>)

  function GetDesc(byId: FrameMap, id: nat, diff: int): (desc: SyncDesc)
    requires id in byId
    ensures desc.diff == diff
    ensures |desc.camTimes| == |byId[id]|
    ensures forall i :: 0 <= i < |byId[id]| ==> desc.camTimes[i] == (byId[id][i].cam, byId[id][i].timestampSof as int)
  {
    var msgs := byId[id];
    SyncDesc(diff, seq(|msgs|, i requires 0 <= i < |msgs| => (msgs[i].cam, msgs[i].timestampSof as int)))
  }

  /** `laggy_frames`: the ids whose spread exceeds the tolerance, each with its description. */
  function LaggyFrames(byId: FrameMap): (laggy: map<nat, SyncDesc>)
    requires NonEmptyBuckets(byId)
    ensures laggy.Keys <= byId.Keys
    ensures forall id :: id in laggy ==> laggy[id].diff > LagFrameToleranceNs && |laggy[id].camTimes| == |byId[id]|
    ensures forall id :: id in laggy ==> laggy[id].diff == Spread(Timestamps(byId[id]))
  {
    var diffs := Diffs(byId);
    map id | id in diffs && diffs[id] > LagFrameToleranceNs :: GetDesc(byId, id, diffs[id])
  }

  /** Two messages of one bucket whose start-of-frame times differ by more than the tolerance. */
  predicate OutOfSync(msgs: seq<Msg>)
  {
    exists a, b :: a in msgs && b in msgs && a.timestampSof - b.timestampSof > LagFrameToleranceNs
  }

  /**
   * An id is laggy iff two of its messages, from whichever cameras are
   * present, started their frames more than 0.5 ms apart; a spread of
   * exactly 0.5 ms is not laggy.
   */
  lemma LaggyIff(byId: FrameMap, id: nat)
    requires NonEmptyBuckets(byId)
    ensures id in LaggyFrames(byId) <==> id in byId && OutOfSync(byId[id])
  {
    if id in byId {
      var msgs := byId[id];
      var ts := Timestamps(msgs);
      var d := Spread(ts);
      assert Diffs(byId)[id] == d;
      if d > LagFrameToleranceNs {
        var x, y :| x in ts && y in ts && x - y == d;
        TimestampsMembers(msgs, x);
        TimestampsMembers(msgs, y);
        var a :| a in msgs && a.timestampSof == x;
        var b :| b in msgs && b.timestampSof == y;
        assert a.timestampSof - b.timestampSof > LagFrameToleranceNs;
      }
      if OutOfSync(msgs) {
        var a, b :| a in msgs && b in msgs && a.timestampSof - b.timestampSof > LagFrameToleranceNs;
        TimestampsMembers(msgs, a.timestampSof);
        TimestampsMembers(msgs, b.timestampSof);
      }
    }
  }

  /**
   * The sync test passes iff no id is laggy, i.e. iff within every bucket
   * any two start-of-frame times are at most 0.5 ms apart.
   */
  lemma SyncPassIff(byId: FrameMap)
    requires NonEmptyBuckets(byId)
    ensures LaggyFrames(byId) == map[] <==> forall id :: id in byId ==> !OutOfSync(byId[id])
  {
    if LaggyFrames(byId) == map[] {
      forall id | id in byId
        ensures !OutOfSync(byId[id])
      {
        LaggyIff(byId, id);
      }
    } else {
      var id :| id in LaggyFrames(byId);
      LaggyIff(byId, id);
    }
  }
}
