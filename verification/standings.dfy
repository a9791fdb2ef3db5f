/**
 * `Game.resolvePosition`: the player's place in the race. Racers are sorted
 * by progress, highest first, with JavaScript's stable sort, and the place is
 * the player's 1-based index in that order.
 */
module Standings {
  import opened Geometry
  import opened StableSort
  import LapProgress

  /** A racer's index in the field and its progress in laps. */
  datatype Standing = Standing(racer: nat, progress: real)

  /**
   * Completed laps plus the fraction of the current lap. A racer's
   * `lastAngle` is the normalised bearing of its current position: every
   * update sets it from the position it has just reached, and a finished
   * racer no longer moves.
   */
  function Progress(r: LapProgress.RacerState): (p: real)
    ensures 0.0 <= r.lastAngle < TAU ==>
      r.completedLaps as real <= p < r.completedLaps as real + 1.0
  {
    r.completedLaps as real + r.lastAngle / TAU
  }

  /** The comparator `(a, b) => b.progress - a.progress` sorts ascending on this key. */
  function NegProgress(s: Standing): real {
    -s.progress
  }

  function RacerIndex(s: Standing): int {
    s.racer
  }

  /** The `map` step: one standing per racer, in field order. */
  function Entries(racers: seq<LapProgress.RacerState>): (s: seq<Standing>)
    ensures |s| == |racers|
    ensures forall i :: 0 <= i < |s| ==> s[i] == Standing(i, Progress(racers[i]))
  {
    seq(|racers|, i requires 0 <= i < |racers| => Standing(i, Progress(racers[i])))
  }

  function Ranking(racers: seq<LapProgress.RacerState>): seq<Standing> {
    Sort(Entries(racers), NegProgress)
  }

  /** `findIndex` by racer: the first index holding racer `p`, or -1. */
  function FindRacer(s: seq<Standing>, p: nat, from: nat): (i: int)
    requires from <= |s|
    ensures i == -1 || from <= i < |s|
    ensures i >= 0 ==> s[i].racer == p && forall k :: from <= k < i ==> s[k].racer != p
    ensures i == -1 ==> forall k :: from <= k < |s| ==> s[k].racer != p
    decreases |s| - from
  {
    if from == |s| then -1
    else if s[from].racer == p then from
    else FindRacer(s, p, from + 1)
  }

  /** Racer `i` is placed ahead of racer `p`: more progress, or equal progress and earlier in the field. */
  predicate Ahead(racers: seq<LapProgress.RacerState>, i: nat, p: nat)
    requires i < |racers| && p < |racers|
  {
    Progress(racers[i]) > Progress(racers[p])
    || (Progress(racers[i]) == Progress(racers[p]) && i < p)
  }

  /** How many of the first `n` racers are ahead of racer `p`. */
  function CountAhead(racers: seq<LapProgress.RacerState>, n: nat, p: nat): nat
    requires n <= |racers| && p < |racers|
  {
    if n == 0 then 0
    else CountAhead(racers, n - 1, p) + (if Ahead(racers, n - 1, p) then 1 else 0)
  }

  /**
   * `Game.resolvePosition` for the racer at index `p`: one more than the
   * number of racers ahead of it, so a place from 1 to the field size.
   */
  function ResolvePosition(racers: seq<LapProgress.RacerState>, p: nat): (place: int)
    requires p < |racers|
    ensures place == 1 + CountAhead(racers, |racers|, p)
    ensures 1 <= place <= |racers|
  {
    var ranking := Ranking(racers);
    PlaceIsCountAhead(racers, p);
    FindRacer(ranking, p, 0) + 1
  }

  lemma {:induction false} CountBeforeEntries(racers: seq<LapProgress.RacerState>, n: nat, p: nat)
    requires n <= |racers| && p < |racers|
    ensures CountBefore(Entries(racers)[..n], Entries(racers)[p], NegProgress, RacerIndex)
      == CountAhead(racers, n, p)
    decreases n
  {
    var e := Entries(racers);
    if n > 0 {
      CountBeforeEntries(racers, n - 1, p);
      assert e[..n][..n - 1] == e[..n - 1];
      assert e[..n][n - 1] == Standing(n - 1, Progress(racers[n - 1]));
    }
  }

  lemma PlaceIsCountAhead(racers: seq<LapProgress.RacerState>, p: nat)
    requires p < |racers|
    ensures var j := FindRacer(Ranking(racers), p, 0);
      0 <= j < |racers| && j == CountAhead(racers, |racers|, p)
  {
    var e := Entries(racers);
    var ranking := Ranking(racers);
    var j := FindRacer(ranking, p, 0);
    FoundIsRacer(racers, p);
    assert CountBefore(ranking, e[p], NegProgress, RacerIndex) == j by {
      SortIsStable(e, NegProgress, RacerIndex);
      IndexIsCountBefore(ranking, j, NegProgress, RacerIndex);
    }
    assert CountBefore(ranking, e[p], NegProgress, RacerIndex) == CountBefore(e, e[p], NegProgress, RacerIndex) by {
      CountBeforeSort(e, e[p], NegProgress, RacerIndex);
    }
    assert CountBefore(e, e[p], NegProgress, RacerIndex) == CountAhead(racers, |racers|, p) by {
      CountBeforeEntries(racers, |racers|, p);
      assert e[..|racers|] == e;
    }
  }

  /** The racer's standing occurs in the ranking, and the first index holding it is found. */
  lemma FoundIsRacer(racers: seq<LapProgress.RacerState>, p: nat)
    requires p < |racers|
    ensures var j := FindRacer(Ranking(racers), p, 0);
      0 <= j < |racers| && Ranking(racers)[j] == Entries(racers)[p]
  {
    var e := Entries(racers);
    var ranking := Ranking(racers);
    assert e[p] in multiset(ranking);
    var j := FindRacer(ranking, p, 0);
    assert j >= 0;
    assert ranking[j] in multiset(e);
    var m :| 0 <= m < |e| && e[m] == ranking[j];
  }
}
