/**
 * Scrolling the results feed until it is exhausted: `scroll_results`
 * (scraper.py, lines 186-219). The browser is replaced by what it reports:
 * whether the feed appeared at all, and for each round the observation made
 * after scrolling (whether the end-of-list notice is visible, and how many
 * place links the feed holds).
 */
module Scroll {

  /** At most this many scroll rounds are made. */
  const MaxScrolls: nat := 15

  /** This many rounds in a row without new links end the scrolling. */
  const StaleLimit: nat := 3

  /** What one round sees after scrolling. A failing lookup of the end-of-list notice
      counts as the notice not being visible. */
  datatype Observation = Observation(endVisible: bool, linkCount: nat)

  /** Why scrolling stopped. */
  datatype Stop = NoFeed | EndOfList | Stale | RoundsExhausted

  /** `prev_count` when round `k` starts: 0 before the first round, then the count seen
      in the round before. */
  function PrevCount(observe: nat -> Observation, k: nat): nat {
    if k == 0 then 0 else observe(k - 1).linkCount
  }

  /** Whether round `k` saw no new links. */
  predicate Unchanged(observe: nat -> Observation, k: nat) {
    observe(k).linkCount == PrevCount(observe, k)
  }

  /** `stale_rounds` after rounds 0 .. k-1 have run: counted up on an unchanged round,
      reset to 0 on a round with a different count. */
  function StaleAfter(observe: nat -> Observation, k: nat): (n: nat)
    ensures n <= k
  {
    if k == 0 then 0
    else if Unchanged(observe, k - 1) then StaleAfter(observe, k - 1) + 1
    else 0
  }

  /** Whether the loop breaks in round `k`: the end of the list is visible, or this round
      is the third unchanged one in a row. */
  predicate StopsAt(observe: nat -> Observation, k: nat) {
    observe(k).endVisible || (Unchanged(observe, k) && StaleAfter(observe, k) + 1 >= StaleLimit)
  }

  /**
   * Scroll the feed. `rounds` is the number of scroll rounds made. Scrolling stops
   * in the first round that sees the end of the list or completes a run of three
   * unchanged rounds, and otherwise after `MaxScrolls` rounds.
   */
  method ScrollResults(feedAppears: bool, observe: nat -> Observation) returns (stop: Stop, rounds: nat)
    ensures !feedAppears <==> stop == NoFeed
    ensures stop == NoFeed ==> rounds == 0
    ensures rounds <= MaxScrolls
    ensures feedAppears ==> forall k :: 0 <= k < rounds - 1 ==> !StopsAt(observe, k)
    ensures stop == EndOfList ==> 0 < rounds && observe(rounds - 1).endVisible
    ensures stop == Stale ==> 0 < rounds && !observe(rounds - 1).endVisible && StopsAt(observe, rounds - 1)
    ensures stop == RoundsExhausted ==> rounds == MaxScrolls && !StopsAt(observe, MaxScrolls - 1)
  {
    if !feedAppears {
      return NoFeed, 0;
    }
    var prevCount := 0;
    var staleRounds := 0;
    var i := 0;
    while i < MaxScrolls
      invariant i <= MaxScrolls
      invariant prevCount == PrevCount(observe, i)
      invariant staleRounds == StaleAfter(observe, i)
      invariant forall k :: 0 <= k < i ==> !StopsAt(observe, k)
    {
      var seen := observe(i);
      if seen.endVisible {
        return EndOfList, i + 1;
      }
      var currentCount := seen.linkCount;
      if currentCount == prevCount {
        staleRounds := staleRounds + 1;
        if staleRounds >= StaleLimit {
          return Stale, i + 1;
        }
      } else {
        staleRounds := 0;
      }
      prevCount := currentCount;
      i := i + 1;
    }
    return RoundsExhausted, MaxScrolls;
  }

  /** `stale_rounds` is the length of the run of unchanged rounds that ends the rounds
      so far: the last `StaleAfter` rounds saw no new links, and the round before them did. */
  lemma {:induction false} StaleRun(observe: nat -> Observation, k: nat)
    ensures forall j :: k - StaleAfter(observe, k) <= j < k ==> Unchanged(observe, j)
    ensures StaleAfter(observe, k) < k ==> !Unchanged(observe, k - StaleAfter(observe, k) - 1)
  {
    if k > 0 {
      StaleRun(observe, k - 1);
    }
  }

  /** A stale stop comes only after at least three rounds, all of them without new links
      and the last two seeing the same count as the first. */
  lemma StaleStopNeedsThreeRounds(observe: nat -> Observation, k: nat)
    requires !observe(k).endVisible && StopsAt(observe, k)
    ensures k >= StaleLimit - 1
    ensures Unchanged(observe, k) && Unchanged(observe, k - 1) && Unchanged(observe, k - 2)
    ensures observe(k).linkCount == observe(k - 1).linkCount == observe(k - 2).linkCount
  {
    StaleRun(observe, k);
  }

  /** A feed that never shows a link stops after exactly three rounds: the count 0 of the
      first round already matches the initial `prev_count`. */
  lemma EmptyFeedStopsAtThirdRound(observe: nat -> Observation)
    requires forall k: nat :: observe(k) == Observation(false, 0)
    ensures !StopsAt(observe, 0) && !StopsAt(observe, 1) && StopsAt(observe, 2)
  {
    assert StaleAfter(observe, 1) == 1 by {
      assert Unchanged(observe, 0);
    }
    assert StaleAfter(observe, 2) == 2 by {
      assert Unchanged(observe, 1);
    }
  }

  /** A feed whose count grows every round and never shows the end is scrolled the full
      `MaxScrolls` rounds. */
  lemma GrowingFeedUsesAllRounds(observe: nat -> Observation)
    requires forall k: nat :: !observe(k).endVisible && observe(k).linkCount == k + 1
    ensures forall k :: !StopsAt(observe, k)
  {
    forall k: nat
      ensures !StopsAt(observe, k)
    {
      assert !Unchanged(observe, k);
    }
  }
}
