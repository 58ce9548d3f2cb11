/**
 The global result order, and keeping the earliest results: sorting by key, the `k` smallest, and the
 bounded max-heap that computes them.
 */
module Watermark {
  import opened Wrappers

  datatype Ordering = Less | Equal | Greater {
    function Then(next: Ordering): Ordering {
      if this == Equal then next else this
    }
  }

  function CompareInt(a: int, b: int): Ordering {
    if a < b then Less else if a == b then Equal else Greater
  }

  /** Known times come first; unknown times are equal. */
  function TimestampCmp(a: Option<int>, b: Option<int>): Ordering {
    match (a, b)
    case (Some(left), Some(right)) => CompareInt(left, right)
    case (Some(_), None) => Less
    case (None, Some(_)) => Greater
    case (None, None) => Equal
  }

  /** Where a result stands in the global order; a page ends at one, and the next page begins behind it. */
  datatype ResultWatermark = ResultWatermark(
    timestampUtc: Option<int>,
    sourceIndex: nat,
    fileIndex: nat,
    lineNumber: nat,
    matchByteOffset: nat)

  function Cmp(a: ResultWatermark, b: ResultWatermark): Ordering {
    TimestampCmp(a.timestampUtc, b.timestampUtc)
    .Then(CompareInt(a.sourceIndex, b.sourceIndex))
    .Then(CompareInt(a.fileIndex, b.fileIndex))
    .Then(CompareInt(a.lineNumber, b.lineNumber))
    .Then(CompareInt(a.matchByteOffset, b.matchByteOffset))
  }

  predicate Precedes(a: ResultWatermark, b: ResultWatermark) {
    Cmp(a, b) == Less
  }

  /** The order is total, unknown times come last, and only equal watermarks compare equal. */
  lemma OrderIsTotal(a: ResultWatermark, b: ResultWatermark)
    ensures Cmp(a, b) == Equal <==> a == b
    ensures Precedes(a, b) <==> Cmp(b, a) == Greater
    ensures Precedes(a, b) || a == b || Precedes(b, a)
    ensures !(Precedes(a, b) && Precedes(b, a))
    ensures a.timestampUtc.Some? && b.timestampUtc.None? ==> Precedes(a, b)
  {
  }

  /**
   Earlier in time; known before unknown; and at the same time the smaller source index, then file index, then
   line number, then offset.
   */
  predicate ComesBefore(a: ResultWatermark, b: ResultWatermark) {
    if a.timestampUtc != b.timestampUtc then
      a.timestampUtc.Some? && (b.timestampUtc.Some? ==> a.timestampUtc.value < b.timestampUtc.value)
    else
      || a.sourceIndex < b.sourceIndex
      || (a.sourceIndex == b.sourceIndex && a.fileIndex < b.fileIndex)
      || (a.sourceIndex == b.sourceIndex && a.fileIndex == b.fileIndex && a.lineNumber < b.lineNumber)
      || ( && a.sourceIndex == b.sourceIndex && a.fileIndex == b.fileIndex && a.lineNumber == b.lineNumber
           && a.matchByteOffset < b.matchByteOffset)
  }

  /** What the order is. */
  lemma OrderMeans(a: ResultWatermark, b: ResultWatermark)
    ensures Precedes(a, b) <==> ComesBefore(a, b)
  {
  }

  lemma OrderIsTransitive(a: ResultWatermark, b: ResultWatermark, c: ResultWatermark)
    requires Precedes(a, b) && Precedes(b, c)
    ensures Precedes(a, c)
  {
  }

  // ---------- sorting ----------

  datatype Keyed<T> = Keyed(key: ResultWatermark, value: T)

  ghost predicate DistinctKeys<T>(s: seq<Keyed<T>>) {
    forall i, j :: 0 <= i < j < |s| ==> s[i].key != s[j].key
  }

  ghost predicate StrictlySorted<T>(s: seq<Keyed<T>>) {
    forall i, j :: 0 <= i < j < |s| ==> Precedes(s[i].key, s[j].key)
  }

  function InsertSorted<T>(x: Keyed<T>, s: seq<Keyed<T>>): seq<Keyed<T>> {
    if s == [] || Precedes(x.key, s[0].key) then [x] + s else [s[0]] + InsertSorted(x, s[1..])
  }

  /** `sort_by` on the keys: stable, so a later equal key stays behind an earlier one. */
  function Sorted<T>(s: seq<Keyed<T>>): seq<Keyed<T>> {
    if s == [] then [] else InsertSorted(s[|s| - 1], Sorted(s[..|s| - 1]))
  }

  /** The `k` smallest, in order. */
  function Earliest<T>(s: seq<Keyed<T>>, k: nat): seq<Keyed<T>> {
    if |Sorted(s)| <= k then Sorted(s) else Sorted(s)[..k]
  }

  lemma {:induction false} InsertKeepsElements<T>(x: Keyed<T>, s: seq<Keyed<T>>)
    ensures multiset(InsertSorted(x, s)) == multiset{x} + multiset(s)
    ensures |InsertSorted(x, s)| == |s| + 1
  {
    if s == [] || Precedes(x.key, s[0].key) {
    } else {
      InsertKeepsElements(x, s[1..]);
      assert s == [s[0]] + s[1..];
    }
  }

  lemma {:induction false} SortedKeepsElements<T>(s: seq<Keyed<T>>)
    ensures multiset(Sorted(s)) == multiset(s)
    ensures |Sorted(s)| == |s|
  {
    if s == [] {
    } else {
      hide InsertSorted;
      var init, last := s[..|s| - 1], s[|s| - 1];
      SortedKeepsElements(init);
      InsertKeepsElements(last, Sorted(init));
      assert s == init + [last];
    }
  }

  /** Inserting a fresh key keeps the order strict. */
  lemma {:induction false} InsertKeepsOrder<T>(x: Keyed<T>, s: seq<Keyed<T>>)
    requires StrictlySorted(s)
    requires forall i :: 0 <= i < |s| ==> s[i].key != x.key
    ensures StrictlySorted(InsertSorted(x, s))
  {
    if s == [] {
    } else if Precedes(x.key, s[0].key) {
      forall j | 0 <= j < |s|
        ensures Precedes(x.key, s[j].key)
      {
        if j > 0 {
          OrderIsTransitive(x.key, s[0].key, s[j].key);
        }
      }
    } else {
      InsertKeepsOrder(x, s[1..]);
      InsertKeepsElements(x, s[1..]);
      var rest := InsertSorted(x, s[1..]);
      forall j | 0 <= j < |rest|
        ensures Precedes(s[0].key, rest[j].key)
      {
        assert rest[j] in multiset(rest);
        if rest[j] == x {
          OrderIsTotal(s[0].key, x.key);
        } else {
          assert rest[j] in s[1..];
        }
      }
    }
  }

  lemma {:induction false} SortedIsSorted<T>(s: seq<Keyed<T>>)
    requires DistinctKeys(s)
    ensures StrictlySorted(Sorted(s))
  {
    if s == [] {
    } else {
      var init, x := s[..|s| - 1], s[|s| - 1];
      SortedIsSorted(init);
      SortedKeepsElements(init);
      forall i | 0 <= i < |init|
        ensures Sorted(init)[i].key != x.key
      {
        assert Sorted(init)[i] in multiset(Sorted(init));
        assert Sorted(init)[i] in init;
      }
      InsertKeepsOrder(x, Sorted(init));
    }
  }

  /** A strictly sorted sequence is determined by its elements. */
  lemma {:induction false} SortedUnique<T>(a: seq<Keyed<T>>, b: seq<Keyed<T>>)
    requires StrictlySorted(a) && StrictlySorted(b) && multiset(a) == multiset(b)
    ensures a == b
  {
    assert |a| == |multiset(a)| == |multiset(b)| == |b|;
    if a == [] {
    } else {
      FirstIsLeast(a, b);
      TailOf(a);
      TailOf(b);
      SortedUnique(a[1..], b[1..]);
    }
  }

  lemma TailOf<T>(s: seq<Keyed<T>>)
    requires s != []
    ensures s == [s[0]] + s[1..]
    ensures multiset(s[1..]) == multiset(s) - multiset{s[0]}
    ensures StrictlySorted(s) ==> StrictlySorted(s[1..])
  {
    assert s == [s[0]] + s[1..];
  }

  lemma FirstIsLeast<T>(a: seq<Keyed<T>>, b: seq<Keyed<T>>)
    requires StrictlySorted(a) && StrictlySorted(b) && multiset(a) == multiset(b)
    requires a != [] && b != []
    ensures a[0] == b[0]
  {
    assert a[0] in multiset(b) && b[0] in multiset(a);
    var i :| 0 <= i < |b| && b[i] == a[0];
    var j :| 0 <= j < |a| && a[j] == b[0];
    OrderIsTotal(a[0].key, b[0].key);
  }

  /** Keeping the `k` smallest after every insertion is keeping the `k` smallest of all. */
  lemma {:induction false} InsertThenCut<T>(x: Keyed<T>, s: seq<Keyed<T>>, k: nat)
    requires k < |s|
    ensures |InsertSorted(x, s[..k])| == k + 1 && |InsertSorted(x, s)| == |s| + 1
    ensures InsertSorted(x, s[..k])[..k] == InsertSorted(x, s)[..k]
  {
    InsertKeepsElements(x, s[..k]);
    InsertKeepsElements(x, s);
    if k == 0 {
    } else {
      var cut := s[..k];
      assert cut[0] == s[0];
      if !Precedes(x.key, s[0].key) {
        InsertThenCut(x, s[1..], k - 1);
        assert cut[1..] == s[1..][..k - 1];
      }
    }
  }

  lemma EarliestStep<T>(s: seq<Keyed<T>>, x: Keyed<T>, k: nat)
    ensures var longer := InsertSorted(x, Earliest(s, k));
            && |longer| <= k + 1
            && Earliest(s + [x], k) == if |longer| <= k then longer else longer[..k]
  {
    assert (s + [x])[..|s|] == s;
    assert Sorted(s + [x]) == InsertSorted(x, Sorted(s));
    InsertKeepsElements(x, Sorted(s));
    if k < |Sorted(s)| {
      InsertThenCut(x, Sorted(s), k);
    }
  }

  // ---------- the bounded heap ----------

  /** A max-heap as a bag: `Pop` takes away an element with the greatest key. */
  class MaxHeap<T> {
    var items: seq<Keyed<T>>

    constructor ()
      ensures items == []
    {
      items := [];
    }

    method Push(x: Keyed<T>)
      modifies this
      ensures multiset(items) == multiset(old(items)) + multiset{x}
    {
      items := items + [x];
    }

    /** Removes a greatest element. */
    method Pop() returns (x: Keyed<T>)
      requires items != []
      modifies this
      ensures multiset(items) + multiset{x} == multiset(old(items))
      ensures forall i :: 0 <= i < |items| ==> !Precedes(x.key, items[i].key)
    {
      var best := 0;
      for i := 1 to |items|
        invariant items == old(items)
        invariant 0 <= best < i
        invariant forall j :: 0 <= j < i ==> !Precedes(items[best].key, items[j].key)
      {
        GreaterStays(items, best, i);
        if Precedes(items[best].key, items[i].key) {
          best := i;
        }
      }
      x := items[best];
      RemoveAt(items, best);
      items := items[..best] + items[best + 1..];
    }
  }

  lemma RemoveAt<T>(items: seq<Keyed<T>>, at: nat)
    requires at < |items|
    ensures multiset(items[..at] + items[at + 1..]) + multiset{items[at]} == multiset(items)
    ensures forall x :: x in items[..at] + items[at + 1..] ==> x in items
  {
    assert items == items[..at] + [items[at]] + items[at + 1..];
  }

  lemma GreaterStays<T>(items: seq<Keyed<T>>, best: nat, i: nat)
    requires best < i < |items|
    requires forall j :: 0 <= j < i ==> !Precedes(items[best].key, items[j].key)
    ensures Precedes(items[best].key, items[i].key) ==> forall j :: 0 <= j <= i ==>
              !Precedes(items[i].key, items[j].key)
  {
    if Precedes(items[best].key, items[i].key) {
      forall j | 0 <= j <= i
        ensures !Precedes(items[i].key, items[j].key)
      {
        if Precedes(items[i].key, items[j].key) {
          OrderIsTransitive(items[best].key, items[i].key, items[j].key);
          OrderIsTotal(items[i].key, items[j].key);
        }
      }
    }
  }

  lemma SameElements<T>(a: seq<Keyed<T>>, b: seq<Keyed<T>>)
    requires multiset(a) == multiset(b)
    ensures |a| == |b| && forall x :: x in a <==> x in b
  {
    assert |a| == |multiset(a)| && |b| == |multiset(b)|;
    assert forall x :: x in a <==> x in multiset(a);
    assert forall x :: x in b <==> x in multiset(b);
  }

  /** Whatever order the heap keeps its elements in, sorting them gives the sorted sequence with these elements. */
  lemma HeapOrderIrrelevant<T>(items: seq<Keyed<T>>, s: seq<Keyed<T>>)
    requires StrictlySorted(s) && multiset(items) == multiset(s)
    ensures DistinctKeys(items) && Sorted(items) == s
  {
    SortedHasDistinctKeys(items, s);
    SortedIsSorted(items);
    SortedKeepsElements(items);
    SortedUnique(Sorted(items), s);
  }

  lemma SortedHasDistinctKeys<T>(items: seq<Keyed<T>>, s: seq<Keyed<T>>)
    requires StrictlySorted(s) && multiset(items) == multiset(s)
    ensures DistinctKeys(items)
  {
    SameElements(items, s);
    forall i, j | 0 <= i < j < |items|
      ensures items[i].key != items[j].key
    {
      if items[i] == items[j] {
        assert items == items[..i] + [items[i]] + items[i + 1..j] + [items[j]] + items[j + 1..];
        assert multiset(s)[items[i]] >= 2;
        StrictlySortedOnce(s, items[i]);
        assert false;
      }
      assert items[i] in s && items[j] in s;
      var a :| 0 <= a < |s| && s[a] == items[i];
      var b :| 0 <= b < |s| && s[b] == items[j];
      OrderIsTotal(s[a].key, s[b].key);
    }
  }

  lemma {:induction false} StrictlySortedOnce<T>(s: seq<Keyed<T>>, x: Keyed<T>)
    requires StrictlySorted(s)
    ensures multiset(s)[x] <= 1
  {
    if s == [] {
    } else {
      TailOf(s);
      StrictlySortedOnce(s[1..], x);
      if x == s[0] && x in s[1..] {
        var j :| 0 <= j < |s[1..]| && s[1..][j] == x;
        assert Precedes(s[0].key, s[j + 1].key);
        OrderIsTotal(x.key, x.key);
        assert false;
      }
    }
  }

  /** Taking the greatest element out of the heap cuts the last element off the sorted sequence. */
  lemma PopCutsLast<T>(items: seq<Keyed<T>>, rest: seq<Keyed<T>>, x: Keyed<T>, s: seq<Keyed<T>>)
    requires StrictlySorted(s) && multiset(items) == multiset(s)
    requires multiset(rest) + multiset{x} == multiset(items)
    requires forall i :: 0 <= i < |rest| ==> !Precedes(x.key, rest[i].key)
    ensures s != [] && multiset(rest) == multiset(s[..|s| - 1])
  {
    SameElements(items, s);
    assert x in multiset(items) && x in items && x in s;
    var last, init := s[|s| - 1], s[..|s| - 1];
    assert s == init + [last];
    var i :| 0 <= i < |s| && s[i] == x;
    assert i < |s| - 1 ==> Precedes(x.key, last.key);
    assert last in multiset(items);
    assert x == last || last in multiset(rest);
    assert last in multiset(rest) ==> last in rest;
    assert x == last || i < |s| - 1;
    Cancel(multiset(rest), multiset(init), x);
  }

  lemma Cancel<T>(a: multiset<T>, b: multiset<T>, x: T)
    requires a + multiset{x} == b + multiset{x}
    ensures a == b
  {
    assert (a + multiset{x}) - multiset{x} == a;
    assert (b + multiset{x}) - multiset{x} == b;
  }

  /** Pushing and popping above `k` keeps the heap at the `k` earliest elements seen. */
  method KeepEarliest<T>(heap: MaxHeap<T>, x: Keyed<T>, k: nat, ghost seen: seq<Keyed<T>>)
    requires DistinctKeys(seen + [x])
    requires multiset(heap.items) == multiset(Earliest(seen, k))
    modifies heap
    ensures multiset(heap.items) == multiset(Earliest(seen + [x], k))
  {
    hide Sorted, InsertSorted, Earliest, DistinctKeys, StrictlySorted;
    ghost var s := InsertSorted(x, Earliest(seen, k));
    EarliestStep(seen, x, k);
    EarliestInsertSorted(seen, x, k);
    heap.Push(x);
    SameElements(heap.items, s);
    if |heap.items| > k {
      ghost var all := heap.items;
      var greatest := heap.Pop();
      PopCutsLast(all, heap.items, greatest, s);
    }
  }

  lemma EarliestInsertSorted<T>(seen: seq<Keyed<T>>, x: Keyed<T>, k: nat)
    requires DistinctKeys(seen + [x])
    ensures var s := InsertSorted(x, Earliest(seen, k));
            StrictlySorted(s) && multiset(s) == multiset{x} + multiset(Earliest(seen, k))
  {
    hide Sorted, InsertSorted, Earliest, StrictlySorted;
    EarliestSorted(seen, x, k);
    EarliestApart(seen, x, k);
    InsertKeepsOrder(x, Earliest(seen, k));
    InsertKeepsElements(x, Earliest(seen, k));
  }

  lemma EarliestSorted<T>(seen: seq<Keyed<T>>, x: Keyed<T>, k: nat)
    requires DistinctKeys(seen + [x])
    ensures StrictlySorted(Earliest(seen, k))
  {
    hide Sorted;
    assert forall i :: 0 <= i < |seen| ==> (seen + [x])[i] == seen[i];
    SortedIsSorted(seen);
  }

  /** None of the elements kept has the key of the next one. */
  lemma EarliestApart<T>(seen: seq<Keyed<T>>, x: Keyed<T>, k: nat)
    requires DistinctKeys(seen + [x])
    ensures forall i :: 0 <= i < |Earliest(seen, k)| ==> Earliest(seen, k)[i].key != x.key
  {
    hide Sorted;
    SortedKeepsElements(seen);
    forall i | 0 <= i < |Earliest(seen, k)|
      ensures Earliest(seen, k)[i].key != x.key
    {
      var y := Sorted(seen)[i];
      assert Earliest(seen, k)[i] == y && y in multiset(Sorted(seen));
      assert y in multiset(seen);
      var j :| 0 <= j < |seen| && seen[j] == y;
      assert (seen + [x])[j] == seen[j] && (seen + [x])[|seen|] == x;
    }
  }
}
