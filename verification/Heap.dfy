/** The min-heap of scored documents that read_topn keeps with std::push_heap, pop_heap and sort_heap. */
module Heap {
  import opened Postings

  function Parent(i: nat): nat
    requires i > 0
  {
    (i - 1) / 2
  }

  ghost predicate IsHeap(h: seq<Posting>) {
    forall i :: 0 < i < |h| ==> h[Parent(i)].weight <= h[i].weight
  }

  lemma {:induction false} FrontIsLeast(h: seq<Posting>, i: nat)
    requires IsHeap(h) && i < |h|
    ensures h[0].weight <= h[i].weight
  {
    if i > 0 { FrontIsLeast(h, Parent(i)); }
  }

  function Swap(h: seq<Posting>, i: nat, j: nat): (r: seq<Posting>)
    requires i < |h| && j < |h|
    ensures |r| == |h|
  {
    h[i := h[j]][j := h[i]]
  }

  lemma SwapPermutes(h: seq<Posting>, i: nat, j: nat)
    requires i < |h| && j < |h|
    ensures multiset(Swap(h, i, j)) == multiset(h)
  {
  }

  // ----- Sifting up ------------------------------------------------------------------------------

  /** A heap but for the entry at `i`, which may be smaller than its ancestors. */
  ghost predicate HeapBelow(h: seq<Posting>, i: nat) {
    && (forall j :: 0 < j < |h| && j != i ==> h[Parent(j)].weight <= h[j].weight)
    && (forall j :: 0 < j < |h| && Parent(j) == i && i > 0 && i < |h| ==> h[Parent(i)].weight <= h[j].weight)
  }

  function SiftUp(h: seq<Posting>, i: nat): (r: seq<Posting>)
    requires i < |h|
    ensures |r| == |h|
    decreases i
  {
    if i > 0 && h[i].weight < h[Parent(i)].weight then SiftUp(Swap(h, i, Parent(i)), Parent(i)) else h
  }

  lemma SiftUpStep(h: seq<Posting>, i: nat)
    requires 0 < i < |h| && HeapBelow(h, i) && h[i].weight < h[Parent(i)].weight
    ensures HeapBelow(Swap(h, i, Parent(i)), Parent(i))
  {
    var p, r := Parent(i), Swap(h, i, Parent(i));
    forall j | 0 < j < |r| && j != p ensures r[Parent(j)].weight <= r[j].weight {
      assert j != i ==> h[Parent(j)].weight <= h[j].weight;
    }
    forall j | 0 < j < |r| && Parent(j) == p && p > 0 ensures r[Parent(p)].weight <= r[j].weight {
      assert h[Parent(p)].weight <= h[p].weight;
      assert j != i ==> h[p].weight <= h[j].weight;
    }
  }

  lemma {:induction false} SiftUpHeap(h: seq<Posting>, i: nat)
    requires i < |h| && HeapBelow(h, i)
    ensures IsHeap(SiftUp(h, i)) && multiset(SiftUp(h, i)) == multiset(h)
    decreases i
  {
    if i > 0 && h[i].weight < h[Parent(i)].weight {
      SiftUpStep(h, i);
      SwapPermutes(h, i, Parent(i));
      SiftUpHeap(Swap(h, i, Parent(i)), Parent(i));
    }
  }

  /** std::push_heap after x was appended. */
  function Push(h: seq<Posting>, x: Posting): (r: seq<Posting>)
    ensures |r| == |h| + 1
  {
    SiftUp(h + [x], |h|)
  }

  lemma PushHeap(h: seq<Posting>, x: Posting)
    requires IsHeap(h)
    ensures IsHeap(Push(h, x)) && multiset(Push(h, x)) == multiset(h) + multiset{x}
  {
    var a := h + [x];
    forall j | 0 < j < |a| && j != |h| ensures a[Parent(j)].weight <= a[j].weight {
      assert a[j] == h[j] && a[Parent(j)] == h[Parent(j)];
    }
    SiftUpHeap(a, |h|);
  }

  // ----- Sifting down -----------------------------------------------------------------------------

  /** A heap but for the entry at `i`, which may be larger than its descendants. */
  ghost predicate HeapAbove(h: seq<Posting>, i: nat) {
    && (forall j :: 0 < j < |h| && Parent(j) != i ==> h[Parent(j)].weight <= h[j].weight)
    && (forall j :: 0 < j < |h| && Parent(j) == i && 0 < i < |h| ==> h[Parent(i)].weight <= h[j].weight)
  }

  /** The smaller child of `i`, or |h| when it has none. */
  function SmallerChild(h: seq<Posting>, i: nat): (c: nat)
    ensures i < c
  {
    var c := 2 * i + 1;
    if c + 1 < |h| && h[c + 1].weight < h[c].weight then c + 1 else c
  }

  function SiftDown(h: seq<Posting>, i: nat): (r: seq<Posting>)
    requires i < |h|
    ensures |r| == |h|
    decreases |h| - i
  {
    var c := SmallerChild(h, i);
    if c < |h| && h[c].weight < h[i].weight then SiftDown(Swap(h, i, c), c) else h
  }

  lemma ChildrenOf(h: seq<Posting>, i: nat, j: nat)
    requires 0 < j < |h| && Parent(j) == i
    ensures SmallerChild(h, i) < |h| && h[SmallerChild(h, i)].weight <= h[j].weight
    ensures Parent(SmallerChild(h, i)) == i
  {
    assert j == 2 * i + 1 || j == 2 * i + 2;
  }

  lemma SiftDownStep(h: seq<Posting>, i: nat)
    requires i < |h| && HeapAbove(h, i)
    requires var c := SmallerChild(h, i); c < |h| && h[c].weight < h[i].weight
    ensures HeapAbove(Swap(h, i, SmallerChild(h, i)), SmallerChild(h, i))
  {
    var c := SmallerChild(h, i);
    var r := Swap(h, i, c);
    ChildrenOf(h, i, 2 * i + 1);
    forall j | 0 < j < |r| && Parent(j) != c ensures r[Parent(j)].weight <= r[j].weight {
      if Parent(j) == i {
        ChildrenOf(h, i, j);
      } else {
        assert h[Parent(j)].weight <= h[j].weight;
        if j == i { assert h[Parent(i)].weight <= h[c].weight; }
      }
    }
    forall j | 0 < j < |r| && Parent(j) == c ensures r[Parent(c)].weight <= r[j].weight {
      assert h[Parent(j)].weight <= h[j].weight;
    }
  }

  lemma SiftDownStop(h: seq<Posting>, i: nat)
    requires i < |h| && HeapAbove(h, i)
    requires var c := SmallerChild(h, i); c >= |h| || h[c].weight >= h[i].weight
    ensures IsHeap(h)
  {
    forall j | 0 < j < |h| ensures h[Parent(j)].weight <= h[j].weight {
      if Parent(j) == i { ChildrenOf(h, i, j); }
    }
  }

  lemma {:induction false} SiftDownHeap(h: seq<Posting>, i: nat)
    requires i < |h| && HeapAbove(h, i)
    ensures IsHeap(SiftDown(h, i)) && multiset(SiftDown(h, i)) == multiset(h)
    decreases |h| - i
  {
    var c := SmallerChild(h, i);
    if c < |h| && h[c].weight < h[i].weight {
      SiftDownStep(h, i);
      SwapPermutes(h, i, c);
      SiftDownHeap(Swap(h, i, c), c);
    } else {
      SiftDownStop(h, i);
    }
  }

  /** std::pop_heap without the popped entry: the last entry takes the front and sifts down. */
  function Pop(h: seq<Posting>): (r: seq<Posting>)
    requires |h| > 0
    ensures |r| == |h| - 1
  {
    if |h| == 1 then [] else SiftDown([h[|h| - 1]] + h[1..|h| - 1], 0)
  }

  lemma LastInFront(h: seq<Posting>)
    requires |h| > 1
    ensures multiset([h[|h| - 1]] + h[1..|h| - 1]) == multiset(h) - multiset{h[0]}
  {
    var n := |h| - 1;
    assert h == [h[0]] + h[1..n] + [h[n]];
  }

  lemma LastInFrontAbove(h: seq<Posting>)
    requires |h| > 1 && IsHeap(h)
    ensures HeapAbove([h[|h| - 1]] + h[1..|h| - 1], 0)
  {
    var n := |h| - 1;
    var a := [h[n]] + h[1..n];
    forall j | 0 < j < |a| && Parent(j) != 0 ensures a[Parent(j)].weight <= a[j].weight {
      assert a[j] == h[j] && a[Parent(j)] == h[Parent(j)];
    }
  }

  lemma PopHeap(h: seq<Posting>)
    requires |h| > 0 && IsHeap(h)
    ensures IsHeap(Pop(h)) && multiset(Pop(h)) == multiset(h) - multiset{h[0]}
  {
    hide IsHeap, HeapAbove, SiftDown;
    if |h| > 1 {
      LastInFront(h);
      LastInFrontAbove(h);
      SiftDownHeap([h[|h| - 1]] + h[1..|h| - 1], 0);
    } else {
      NoHeap();
      assert h == [h[0]];
    }
  }

  lemma NoHeap()
    ensures IsHeap([])
  {
  }

  // ----- Sorting -------------------------------------------------------------------------------------

  ghost predicate Descending(s: seq<Posting>) {
    forall i, j :: 0 <= i < j < |s| ==> s[i].weight >= s[j].weight
  }

  /** std::sort_heap: pop the least entry to the back, again and again. */
  function Sort(h: seq<Posting>): (r: seq<Posting>)
    ensures |r| == |h|
    decreases |h|
  {
    if |h| == 0 then [] else Sort(Pop(h)) + [h[0]]
  }

  /** What is left after a pop weighs at least the popped front. */
  lemma PoppedBelow(h: seq<Posting>, front: seq<Posting>, i: nat)
    requires |h| > 0 && IsHeap(h) && i < |front| && multiset(front) == multiset(h) - multiset{h[0]}
    ensures front[i].weight >= h[0].weight
  {
    assert front[i] in multiset(front);
    assert front[i] in multiset(h);
    var j :| 0 <= j < |h| && h[j] == front[i];
    FrontIsLeast(h, j);
  }

  lemma PutBack(h: seq<Posting>, front: seq<Posting>)
    requires |h| > 0 && multiset(front) == multiset(h) - multiset{h[0]}
    ensures multiset(front + [h[0]]) == multiset(h) == multiset(front) + multiset{h[0]}
  {
    assert h[0] in multiset(h);
  }

  lemma PutLeast(h: seq<Posting>, front: seq<Posting>)
    requires |h| > 0 && IsHeap(h) && Descending(front) && multiset(front) == multiset(h) - multiset{h[0]}
    ensures Descending(front + [h[0]])
  {
    hide IsHeap;
    forall i | 0 <= i < |front| ensures front[i].weight >= h[0].weight { PoppedBelow(h, front, i); }
  }

  lemma {:induction false} SortHeap(h: seq<Posting>)
    requires IsHeap(h)
    ensures Descending(Sort(h)) && multiset(Sort(h)) == multiset(h)
    decreases |h|
  {
    hide IsHeap, Pop, Descending;
    if |h| > 0 {
      PopHeap(h);
      SortHeap(Pop(h));
      PutLeast(h, Sort(Pop(h)));
      PutBack(h, Sort(Pop(h)));
    } else {
      NothingToSort();
    }
  }

  lemma NothingToSort()
    ensures Descending([])
  {
  }
}
