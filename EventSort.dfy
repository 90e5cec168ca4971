/** The ordering step of `loadData`: `allEvents.sort((a, b) => start(a) - start(b))`.
    `Array.prototype.sort` is stable, so the order is fixed completely:
    ascending by `start`, ties in their original order. `SortByStart` is that
    order as a function, and `SortEventsByStart` sorts an array in place into it. */
module EventSort {
  import opened Events

  /** Non-decreasing by `start`. */
  predicate SortedByStart(s: seq<Event>) {
    forall i, j :: 0 <= i < j < |s| ==> s[i].start <= s[j].start
  }

  /** Inserts `x` behind the last element that does not start later than it
      (at the front if there is none). */
  function InsertByStart(s: seq<Event>, x: Event): seq<Event> {
    if s == [] || s[|s| - 1].start <= x.start then s + [x]
    else InsertByStart(s[..|s| - 1], x) + [s[|s| - 1]]
  }

  /** Inserting adds `x` and loses nothing. */
  lemma {:induction false} InsertPermutes(s: seq<Event>, x: Event)
    ensures multiset(InsertByStart(s, x)) == multiset(s) + multiset{x}
  {
    if s != [] && s[|s| - 1].start > x.start {
      var last := |s| - 1;
      InsertPermutes(s[..last], x);
      assert s == s[..last] + [s[last]];
    }
  }

  /** Inserting into a sorted list keeps it sorted. */
  lemma {:induction false} InsertKeepsSorted(s: seq<Event>, x: Event)
    requires SortedByStart(s)
    ensures SortedByStart(InsertByStart(s, x))
  {
    if s != [] && s[|s| - 1].start > x.start {
      var last := |s| - 1;
      var l := s[last];
      SortedPrefix(s, last);
      InsertKeepsSorted(s[..last], x);
      InsertPermutes(s[..last], x);
      var front := InsertByStart(s[..last], x);
      assert forall k :: 0 <= k < |front| ==> front[k].start <= l.start by {
        forall k | 0 <= k < |front| ensures front[k].start <= l.start {
          assert front[k] in multiset(front);
          assert front[k] == x || front[k] in s[..last];
        }
      }
      AppendLatest(front, l);
    }
  }

  lemma AppendLatest(s: seq<Event>, e: Event)
    requires SortedByStart(s)
    requires forall k :: 0 <= k < |s| ==> s[k].start <= e.start
    ensures SortedByStart(s + [e])
  {
  }

  /** The stable ascending order of `s` by `start`: each event in turn is
      inserted behind the earlier ones that do not start later. */
  function SortByStart(s: seq<Event>): seq<Event> {
    if s == [] then [] else InsertByStart(SortByStart(s[..|s| - 1]), s[|s| - 1])
  }

  /** The sorted order is ascending by start instant. */
  lemma {:induction false} SortIsSorted(s: seq<Event>)
    ensures SortedByStart(SortByStart(s))
  {
    if s != [] {
      SortIsSorted(s[..|s| - 1]);
      InsertKeepsSorted(SortByStart(s[..|s| - 1]), s[|s| - 1]);
    }
  }

  /** The sorted order is a permutation of the input. */
  lemma {:induction false} SortPermutes(s: seq<Event>)
    ensures multiset(SortByStart(s)) == multiset(s)
  {
    if s != [] {
      var last := |s| - 1;
      SortPermutes(s[..last]);
      InsertPermutes(SortByStart(s[..last]), s[last]);
      assert s == s[..last] + [s[last]];
    }
  }

  /** The events of `s` that start at instant `t`, in order. */
  function StartingAt(s: seq<Event>, t: int): seq<Event> {
    if s == [] then []
    else StartingAt(s[..|s| - 1], t) + (if s[|s| - 1].start == t then [s[|s| - 1]] else [])
  }

  lemma SortedPrefix(s: seq<Event>, n: nat)
    requires SortedByStart(s) && n <= |s|
    ensures SortedByStart(s[..n])
  {
  }

  /** Appending one event adds it to the events of its own instant only. */
  lemma StartingAtSnoc(s: seq<Event>, e: Event, t: int)
    ensures StartingAt(s + [e], t) == StartingAt(s, t) + (if e.start == t then [e] else [])
  {
    assert (s + [e])[..|s|] == s;
  }

  /** Inserting `x` appends it to the events that start when it does... */
  lemma {:induction false} InsertAppendsTie(s: seq<Event>, x: Event)
    ensures StartingAt(InsertByStart(s, x), x.start) == StartingAt(s, x.start) + [x]
  {
    var t := x.start;
    if s == [] || s[|s| - 1].start <= t {
      StartingAtSnoc(s, x, t);
    } else {
      var last := |s| - 1;
      var l := s[last];
      var front := s[..last];
      var inserted := InsertByStart(front, x);
      assert InsertByStart(s, x) == inserted + [l];
      InsertAppendsTie(front, x);
      StartingAtSnoc(inserted, l, t);
      assert StartingAt(s, t) == StartingAt(front, t);
    }
  }

  /** ...and leaves the events of every other instant as they were. */
  lemma {:induction false} InsertKeepsOthers(s: seq<Event>, x: Event, t: int)
    requires t != x.start
    ensures StartingAt(InsertByStart(s, x), t) == StartingAt(s, t)
  {
    if s == [] || s[|s| - 1].start <= x.start {
      StartingAtSnoc(s, x, t);
    } else {
      var last := |s| - 1;
      var l := s[last];
      var front := s[..last];
      var inserted := InsertByStart(front, x);
      assert InsertByStart(s, x) == inserted + [l];
      InsertKeepsOthers(front, x, t);
      StartingAtSnoc(inserted, l, t);
      assert StartingAt(s, t) == StartingAt(front, t) + (if l.start == t then [l] else []);
    }
  }

  /** Stability: the events sharing a start instant keep their relative
      order. */
  lemma {:induction false} SortIsStable(s: seq<Event>, t: int)
    ensures StartingAt(SortByStart(s), t) == StartingAt(s, t)
  {
    if s != [] {
      var last := |s| - 1;
      SortIsStable(s[..last], t);
      if s[last].start == t {
        InsertAppendsTie(SortByStart(s[..last]), s[last]);
      } else {
        InsertKeepsOthers(SortByStart(s[..last]), s[last], t);
      }
    }
  }

  /** A list that is already in order is left as it is. */
  lemma {:induction false} SortKeepsSorted(s: seq<Event>)
    requires SortedByStart(s)
    ensures SortByStart(s) == s
  {
    if s != [] {
      var last := |s| - 1;
      SortedPrefix(s, last);
      SortKeepsSorted(s[..last]);
      assert s == s[..last] + [s[last]];
    }
  }

  /** Moves `a[i]` left past the events of the sorted prefix `a[..i]` that
      start later, shifting them one place right. */
  method InsertLast(a: array<Event>, i: nat)
    requires i < a.Length
    modifies a
    ensures a[..i + 1] == InsertByStart(old(a[..i]), old(a[i]))
    ensures forall k :: i < k < a.Length ==> a[k] == old(a[k])
  {
    var x := a[i];
    ghost var prefix := a[..i];
    var j := i;
    while j > 0 && a[j - 1].start > x.start
      invariant 0 <= j <= i
      invariant forall k :: 0 <= k < j ==> a[k] == prefix[k]
      invariant forall k :: j < k <= i ==> a[k] == prefix[k - 1]
      invariant forall k :: i < k < a.Length ==> a[k] == old(a[k])
      invariant forall k :: j <= k < i ==> prefix[k].start > x.start
    {
      a[j] := a[j - 1];
      j := j - 1;
    }
    a[j] := x;
    InsertSplit(prefix, x, j);
    Shifted(prefix, x, j, a[..i + 1]);
  }

  /** The array after the shift, read as a sequence. */
  lemma Shifted(prefix: seq<Event>, x: Event, j: nat, r: seq<Event>)
    requires j <= |prefix| && |r| == |prefix| + 1
    requires forall k :: 0 <= k < j ==> r[k] == prefix[k]
    requires r[j] == x
    requires forall k :: j < k < |r| ==> r[k] == prefix[k - 1]
    ensures r == prefix[..j] + [x] + prefix[j..]
  {
  }

  /** `InsertByStart` puts `x` right after the last element that does not
      start later than it. */
  lemma {:induction false} InsertSplit(sorted: seq<Event>, x: Event, j: nat)
    requires j <= |sorted|
    requires j == 0 || sorted[j - 1].start <= x.start
    requires forall k :: j <= k < |sorted| ==> sorted[k].start > x.start
    ensures InsertByStart(sorted, x) == sorted[..j] + [x] + sorted[j..]
    decreases |sorted|
  {
    if j == |sorted| {
      assert sorted[..j] == sorted && sorted[j..] == [];
    } else {
      var last := |sorted| - 1;
      InsertSplit(sorted[..last], x, j);
      assert sorted[..last][..j] == sorted[..j];
      assert sorted[j..] == sorted[..last][j..] + [sorted[last]];
    }
  }

  /** Sorts `a` in place by insertion: the prefix `a[..i]` is the sorted
      order of the first `i` original events. */
  method SortEventsByStart(a: array<Event>)
    modifies a
    ensures a[..] == SortByStart(old(a[..]))
  {
    ghost var orig := a[..];
    for i := 0 to a.Length
      invariant a[..i] == SortByStart(orig[..i])
      invariant a[i..] == orig[i..]
    {
      assert a[i] == orig[i];
      InsertLast(a, i);
      assert orig[..i + 1][..i] == orig[..i];
      assert a[i + 1..] == orig[i + 1..];
    }
    assert a[..a.Length] == a[..] && orig[..a.Length] == orig;
  }

  /** Sorts the list held in `allEvents` the way the source does, in place:
      its elements go into an array, which is sorted and read back. */
  method SortInPlace(events: seq<Event>) returns (sorted: seq<Event>)
    ensures sorted == SortByStart(events)
  {
    var a := new Event[|events|](i requires 0 <= i < |events| => events[i]);
    assert a[..] == events;
    SortEventsByStart(a);
    sorted := a[..];
  }
}
