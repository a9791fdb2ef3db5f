/**
 * The bounded leaderboard (`Leaderboard.push`, and the truncation done by
 * `load` and `save`). Reading and writing the browser's storage and parsing
 * JSON are outside the model: `load` receives what storage yielded.
 */
module Leaderboard {
  import opened Options
  import opened StableSort

  datatype Entry = Entry(name: string, time: real)

  /** The entries, best first, and the most the board keeps. */
  datatype Board = Board(limit: nat, entries: seq<Entry>)

  const DEFAULT_LIMIT: nat := 6

  function Time(e: Entry): real {
    e.time
  }

  /** The first `n` elements, or all of them when there are fewer: JavaScript's `slice(0, n)`. */
  function Take<T>(s: seq<T>, n: nat): (r: seq<T>)
    ensures |r| == if |s| < n then |s| else n
    ensures r == s[..|r|]
  {
    if |s| <= n then s else s[..n]
  }

  ghost predicate Sorted(entries: seq<Entry>) {
    SortedBy(entries, Time)
  }

  /**
   * `Leaderboard.load`: `stored` is the parsed stored list, or `None` when
   * nothing was stored or reading or parsing failed. The stored order is kept.
   */
  function Load(limit: nat, stored: Option<seq<Entry>>): (b: Board)
    ensures b.limit == limit
    ensures |b.entries| <= limit
    ensures stored.None? ==> b.entries == []
    ensures stored.Some? ==> b.entries == Take(stored.value, limit)
  {
    match stored
    case None => Board(limit, [])
    case Some(s) => Board(limit, Take(s, limit))
  }

  /** `Leaderboard.save`: the list written back to storage. */
  function Save(b: Board): (written: seq<Entry>)
    ensures |written| <= b.limit
    ensures |b.entries| <= b.limit ==> written == b.entries
  {
    Take(b.entries, b.limit)
  }

  /** `Leaderboard.push`: append, sort ascending by time (stably), keep the first `limit`. */
  function Push(b: Board, e: Entry): (b': Board)
    ensures b'.limit == b.limit
    ensures Sorted(b'.entries)
    ensures |b'.entries| == if |b.entries| + 1 < b.limit then |b.entries| + 1 else b.limit
    ensures multiset(b'.entries) <= multiset(b.entries + [e])
  {
    var all := Sort(b.entries + [e], Time);
    TakeFromSorted(all, b.limit);
    Board(b.limit, Take(all, b.limit))
  }

  /** A prefix of a sorted list is sorted and draws on the list's elements. */
  lemma TakeFromSorted(s: seq<Entry>, n: nat)
    requires Sorted(s)
    ensures Sorted(Take(s, n))
    ensures multiset(Take(s, n)) <= multiset(s)
  {
    var r := Take(s, n);
    assert s == r + s[|r|..];
    assert multiset(s) == multiset(r) + multiset(s[|r|..]);
  }

  /**
   * The board keeps the best times: every entry it drops is at least as slow
   * as every entry it keeps.
   */
  lemma PushKeepsBest(b: Board, e: Entry, kept: Entry, dropped: Entry)
    requires kept in Push(b, e).entries
    requires dropped in multiset(b.entries + [e]) - multiset(Push(b, e).entries)
    ensures kept.time <= dropped.time
  {
    var all := Sort(b.entries + [e], Time);
    PrefixHoldsLeast(all, |Push(b, e).entries|, Time, kept, dropped);
  }

  /**
   * On any board, sorted or not: pushing sorts the old entries, inserts the
   * new entry after every entry whose time is not greater (the sort is
   * stable) and before every slower one, then truncates to the limit.
   */
  lemma PushPlacesStably(b: Board, e: Entry)
    ensures var t := Sort(b.entries, Time);
      var k := LeadingAtMost(t, e.time, Time);
      && Push(b, e).entries == Take(t[..k] + [e] + t[k..], b.limit)
      && (forall i :: 0 <= i < k ==> Time(t[i]) <= Time(e))
      && (forall i :: k <= i < |t| ==> Time(e) < Time(t[i]))
      && (e in Push(b, e).entries <== k < b.limit)
  {
    var t := Sort(b.entries, Time);
    var k := LeadingAtMost(t, e.time, Time);
    SortSnocPlaces(b.entries, e, Time);
    if k < b.limit {
      assert Take(t[..k] + [e] + t[k..], b.limit)[k] == e;
    }
  }

  /** On a board that is already sorted, the entry lands among the old entries in their own order. */
  lemma PushIntoSorted(b: Board, e: Entry)
    requires Sorted(b.entries)
    ensures var k := LeadingAtMost(b.entries, e.time, Time);
      && Push(b, e).entries == Take(b.entries[..k] + [e] + b.entries[k..], b.limit)
      && (forall i :: 0 <= i < k ==> Time(b.entries[i]) <= Time(e))
      && (forall i :: k <= i < |b.entries| ==> Time(e) < Time(b.entries[i]))
      && (e in Push(b, e).entries <== k < b.limit)
  {
    SortOfSorted(b.entries, Time);
    PushPlacesStably(b, e);
  }

  /** Whatever storage held, a board that pushing has produced is written back whole. */
  lemma SaveAfterPush(b: Board, e: Entry)
    ensures Save(Push(b, e)) == Push(b, e).entries
  {
  }
}
