/**
 * The second half of `setUpClass`: three times over, the smallest and the
 * largest frame id are deleted from `log_by_frame_id`, to drop the partial
 * frames at the start and the end of the capture window.
 */
module Trimming {
  import opened CameraMessages

  /** The keys below `k`. */
  function Below(keys: set<nat>, k: nat): set<nat>
  {
    set j | j in keys && j < k
  }

  /** The keys above `k`. */
  function Above(keys: set<nat>, k: nat): set<nat>
  {
    set j | j in keys && k < j
  }

  /** How many keys lie below `k`. */
  function RankBelow(keys: set<nat>, k: nat): nat
  {
    |Below(keys, k)|
  }

  /** How many keys lie above `k`. */
  function RankAbove(keys: set<nat>, k: nat): nat
  {
    |Above(keys, k)|
  }

  /**
   * The keys with at least `rounds` keys below them and `rounds` keys above
   * them: all keys but the `rounds` smallest and the `rounds` largest.
   */
  function Surviving(keys: set<nat>, rounds: nat): set<nat>
  {
    set k | k in keys && RankBelow(keys, k) >= rounds && RankAbove(keys, k) >= rounds
  }

  /**
   * `keys` is what `rounds` rounds of trimming leave of `all`: each remaining
   * key has lost `rounds` keys below it and `rounds` above it, and each
   * removed key had fewer than `rounds` keys on one side.
   */
  ghost predicate TrimmedBy(all: set<nat>, keys: set<nat>, rounds: nat)
  {
    && keys <= all
    && |keys| == |all| - 2 * rounds
    && (forall k {:trigger RankBelow(keys, k)} :: k in keys ==>
          RankBelow(all, k) == RankBelow(keys, k) + rounds && RankAbove(all, k) == RankAbove(keys, k) + rounds)
    && (forall k {:trigger RankBelow(all, k)} :: k in all && k !in keys ==>
          RankBelow(all, k) < rounds || RankAbove(all, k) < rounds)
  }

  lemma TrimmedByNothing(all: set<nat>)
    ensures TrimmedBy(all, all, 0)
  {
  }

  /** One round: dropping the smallest and the largest key keeps `TrimmedBy` one round further. */
  lemma {:induction false} TrimStep(all: set<nat>, keys: set<nat>, rounds: nat, mn: nat, mx: nat)
    requires TrimmedBy(all, keys, rounds)
    requires IsMinOf(keys, mn) && IsMaxOf(keys, mx) && mn != mx
    ensures TrimmedBy(all, keys - {mn, mx}, rounds + 1)
  {
    var rest := keys - {mn, mx};
    forall k | k in rest
      ensures RankBelow(rest, k) == RankBelow(keys, k) - 1 && RankAbove(rest, k) == RankAbove(keys, k) - 1
    {
      assert Below(rest, k) == Below(keys, k) - {mn};
      assert mn in Below(keys, k);
      assert Above(rest, k) == Above(keys, k) - {mx};
      assert mx in Above(keys, k);
    }
    assert Below(keys, mn) == {};
    assert Above(keys, mx) == {};
    assert RankBelow(keys, mn) == 0 && RankAbove(keys, mx) == 0;
    forall k | k in all && k !in rest
      ensures RankBelow(all, k) < rounds + 1 || RankAbove(all, k) < rounds + 1
    {
      if k == mn {
        assert RankBelow(all, mn) == RankBelow(keys, mn) + rounds;
      } else if k == mx {
        assert RankBelow(keys, mx) >= 0;
        assert RankAbove(all, mx) == RankAbove(keys, mx) + rounds;
      }
    }
  }

  /** After `rounds` rounds, what is left is exactly `Surviving(all, rounds)`. */
  lemma TrimmedBySurviving(all: set<nat>, keys: set<nat>, rounds: nat)
    requires TrimmedBy(all, keys, rounds)
    ensures keys == Surviving(all, rounds)
  {
    forall k | k in all
      ensures k in keys <==> k in Surviving(all, rounds)
    {
      if k in keys {
        assert RankBelow(keys, k) >= 0;
      }
    }
  }

  lemma Parity(n: nat, rounds: nat, left: nat)
    requires left < 2 && n == 2 * rounds + left
    ensures n % 2 == left
  {
  }

  /** A set whose smallest and largest element coincide has one element. */
  lemma SingleKey(keys: set<nat>, k: nat)
    requires IsMinOf(keys, k) && IsMaxOf(keys, k)
    ensures keys == {k}
  {
  }

  /**
   * Lines 45-48 of the source. Three rounds, each computing `min` and `max`
   * of the current keys and deleting both. With no keys left `min` raises;
   * with one key left both are that key and the second `del` raises. So the
   * trim succeeds iff there are at least six distinct frame ids; it then
   * removes exactly the three smallest and the three largest and keeps every
   * other bucket as it was. On failure the parity of the number of ids tells
   * which of the two errors is raised.
   */
  method TrimEdges(byId: FrameMap) returns (r: Result<FrameMap, SetUpError>)
    ensures r.Ok? <==> |byId| >= 2 * TrimRounds
    ensures r.Ok? ==> r.value.Keys == Surviving(byId.Keys, TrimRounds)
    ensures r.Ok? ==> |r.value| == |byId| - 2 * TrimRounds
    ensures r.Ok? ==> forall k :: k in r.value ==> r.value[k] == byId[k]
    ensures r.Err? ==> r.error == if |byId| % 2 == 0 then MinOfEmpty else KeyDeletedTwice
  {
    var m := byId;
    var round := 0;
    TrimmedByNothing(byId.Keys);
    while round < TrimRounds
      invariant round <= TrimRounds
      invariant TrimmedBy(byId.Keys, m.Keys, round)
      invariant forall k :: k in m ==> m[k] == byId[k]
    {
      if |m| == 0 {
        Parity(|byId|, round, 0);
        return Err(MinOfEmpty);
      }
      var mn := MinKey(m.Keys);
      var mx := MaxKey(m.Keys);
      if mn == mx {
        SingleKey(m.Keys, mn);
        Parity(|byId|, round, 1);
        return Err(KeyDeletedTwice);
      }
      TrimStep(byId.Keys, m.Keys, round, mn, mx);
      ghost var keys := m.Keys;
      m := m - {mn} - {mx};
      assert m.Keys == keys - {mn, mx};
      round := round + 1;
    }
    TrimmedBySurviving(byId.Keys, m.Keys, TrimRounds);
    return Ok(m);
  }
}
