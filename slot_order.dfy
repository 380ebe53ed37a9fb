/** Sorting slots with `Timeslot.compareTo`, which is how every series and
    day lists its slots. Because `compareTo` answers 0 only for equal
    slots, the sorted order of a collection is unique, whatever the sorting
    algorithm and whatever order the slots were stored in. */
module SlotOrder {
  import opened Timeslots

  /** `compareTo(a, b) <= 0`, spelt out on the ends. */
  predicate Le(a: Timeslot, b: Timeslot)
  {
    a.start.globalMinutes < b.start.globalMinutes
    || (a.start.globalMinutes == b.start.globalMinutes && a.end.globalMinutes <= b.end.globalMinutes)
  }

  /** `Le` is `compareTo(a, b) <= 0`. */
  lemma LeIsCompareTo(a: Timeslot, b: Timeslot)
    ensures Le(a, b) <==> CompareTo(a, b) <= 0
  {
  }

  /** Each slot is at most the next in `compareTo` order. */
  predicate Sorted(s: seq<Timeslot>)
  {
    forall i, j :: 0 <= i < j < |s| ==> Le(s[i], s[j])
  }

  /** Inserts `x` into a sorted sequence at its place. */
  function InsertSorted(x: Timeslot, s: seq<Timeslot>): (r: seq<Timeslot>)
    requires Sorted(s)
    ensures Sorted(r) && multiset(r) == multiset(s) + multiset{x}
  {
    if |s| == 0 then [x]
    else if Le(x, s[0]) then [x] + s
    else
      SortedTail(s);
      var rest := InsertSorted(x, s[1..]);
      assert s == [s[0]] + s[1..];
      InsertedAbove(x, s, rest);
      ConsSorted(s[0], rest);
      [s[0]] + rest
  }

  /** When `x` goes after the first slot, the first slot is below every slot
      of the rest with `x` inserted. */
  lemma InsertedAbove(x: Timeslot, s: seq<Timeslot>, rest: seq<Timeslot>)
    requires Sorted(s) && |s| > 0 && !Le(x, s[0])
    requires multiset(rest) == multiset(s[1..]) + multiset{x}
    ensures forall y :: y in multiset(rest) ==> Le(s[0], y)
  {
    forall y | y in multiset(rest)
      ensures Le(s[0], y)
    {
      assert y in multiset(s[1..]) || y == x;
      if y != x {
        var k :| 0 <= k < |s[1..]| && s[1..][k] == y;
        assert s[k + 1] == y;
      }
    }
  }

  /** A slot below every slot of a sorted sequence can go first. */
  lemma ConsSorted(h: Timeslot, rest: seq<Timeslot>)
    requires Sorted(rest) && forall y :: y in multiset(rest) ==> Le(h, y)
    ensures Sorted([h] + rest)
  {
    assert forall j :: 0 <= j < |rest| ==> rest[j] in multiset(rest);
  }

  /** `array.sort(compareRanges)`: the slots in ascending order. */
  function Sort(s: seq<Timeslot>): (r: seq<Timeslot>)
    ensures Sorted(r) && multiset(r) == multiset(s)
  {
    if |s| == 0 then []
    else
      assert s == [s[0]] + s[1..];
      InsertSorted(s[0], Sort(s[1..]))
  }

  /** Two sorted sequences holding the same slots are equal: the order the
      library exposes does not depend on the order of insertion. */
  lemma {:induction false} SortedUnique(a: seq<Timeslot>, b: seq<Timeslot>)
    requires Sorted(a) && Sorted(b) && multiset(a) == multiset(b)
    ensures a == b
    decreases |a|
  {
    assert |b| == |multiset(b)| == |multiset(a)| == |a|;
    if |a| > 0 {
      SameFirst(a, b);
      SameTail(a, b);
      SortedTail(a);
      SortedTail(b);
      SortedUnique(a[1..], b[1..]);
      assert a == [a[0]] + a[1..] && b == [b[0]] + b[1..];
    }
  }

  /** The least slot of a collection comes first in every sorted order. */
  lemma SameFirst(a: seq<Timeslot>, b: seq<Timeslot>)
    requires Sorted(a) && Sorted(b) && multiset(a) == multiset(b) && |a| > 0 && |b| > 0
    ensures a[0] == b[0]
  {
    assert a[0] in multiset(b) && b[0] in multiset(a);
    var i :| 0 <= i < |b| && b[i] == a[0];
    var j :| 0 <= j < |a| && a[j] == b[0];
    assert Le(b[0], a[0]) by {
      if i > 0 {
        assert Le(b[0], b[i]);
      }
    }
    assert Le(a[0], b[0]) by {
      if j > 0 {
        assert Le(a[0], a[j]);
      }
    }
  }

  /** Removing the same first slot leaves the same collection. */
  lemma SameTail(a: seq<Timeslot>, b: seq<Timeslot>)
    requires |a| > 0 && |b| > 0 && a[0] == b[0] && multiset(a) == multiset(b)
    ensures multiset(a[1..]) == multiset(b[1..])
  {
    assert a == [a[0]] + a[1..] && b == [b[0]] + b[1..];
    assert multiset(a) == multiset{a[0]} + multiset(a[1..]);
    assert multiset(b) == multiset{b[0]} + multiset(b[1..]);
    assert multiset(a[1..]) == multiset(a) - multiset{a[0]};
    assert multiset(b[1..]) == multiset(b) - multiset{b[0]};
  }

  /** The last slot of a sorted sequence is at least every slot in it. */
  lemma SortedLastGreatest(s: seq<Timeslot>, x: Timeslot)
    requires Sorted(s) && x in s
    ensures Le(x, s[|s| - 1])
  {
    var m :| 0 <= m < |s| && s[m] == x;
    if m < |s| - 1 { assert Le(s[m], s[|s| - 1]); }
  }

  /** The sorted order of two slots puts the lesser first. */
  lemma SortedPair(s: seq<Timeslot>, a: Timeslot, b: Timeslot)
    requires Sorted(s) && multiset(s) == multiset([a, b]) && Le(b, a)
    ensures s == [b, a]
  {
    assert multiset([b, a]) == multiset([a, b]);
    SortedUnique(s, [b, a]);
  }

  /** Dropping the first slot of a sorted sequence leaves it sorted. */
  lemma SortedTail(s: seq<Timeslot>)
    requires Sorted(s) && |s| > 0
    ensures Sorted(s[1..])
  {
  }

  /** Sorting depends only on the collection of slots. */
  lemma SortPermutationInvariant(a: seq<Timeslot>, b: seq<Timeslot>)
    requires multiset(a) == multiset(b)
    ensures Sort(a) == Sort(b)
  {
    SortedUnique(Sort(a), Sort(b));
  }

  /** Sorting a sorted sequence changes nothing. */
  lemma SortSorted(s: seq<Timeslot>)
    requires Sorted(s)
    ensures Sort(s) == s
  {
    SortedUnique(Sort(s), s);
  }
}
