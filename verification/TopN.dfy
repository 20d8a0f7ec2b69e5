/** read_topn: keep the best `count` documents a reader delivers, hinting the reader what to skip. */
module TopN {
  import opened Postings
  import opened Heap

  // ----- The heap over a stream of scored documents ------------------------------------------------

  predicate Accepts(h: seq<Posting>, x: Posting, n: nat) {
    |h| < n || (0 < |h| && x.weight > h[0].weight)
  }

  /** What one scored document does to the heap: fill it up, then replace the least entry if beaten. */
  function Offer(h: seq<Posting>, x: Posting, n: nat): (r: seq<Posting>) {
    if |h| < n then Push(h, x)
    else if Accepts(h, x, n) then Push(Pop(h), x)
    else h
  }

  function Run(s: seq<Posting>, n: nat): (h: seq<Posting>) {
    if |s| == 0 then [] else Offer(Run(s[..|s| - 1], n), s[|s| - 1], n)
  }

  /** The documents of a stream that entered the heap, in the order they did. */
  function Entered(s: seq<Posting>, n: nat): seq<Posting> {
    if |s| == 0 then []
    else
      var front, x := s[..|s| - 1], s[|s| - 1];
      Entered(front, n) + if Accepts(Run(front, n), x, n) then [x] else []
  }

  lemma EnteredAppend(s: seq<Posting>, x: Posting, n: nat)
    ensures Entered(s + [x], n) == Entered(s, n) + if Accepts(Run(s, n), x, n) then [x] else []
  {
    assert (s + [x])[..|s|] == s;
  }

  lemma {:induction false} NoneEntered(s: seq<Posting>)
    ensures Entered(s, 0) == [] && Run(s, 0) == []
  {
    if |s| > 0 { NoneEntered(s[..|s| - 1]); }
  }

  /** Everything in `s` that is not in `h` was turned away by a full heap. */
  ghost predicate Best(h: seq<Posting>, s: seq<Posting>, n: nat) {
    && IsHeap(h)
    && |h| == (if |s| < n then |s| else n)
    && multiset(h) <= multiset(s)
    && (forall x :: multiset(s)[x] > multiset(h)[x] ==>
          |h| == n && forall k :: 0 <= k < |h| ==> x.weight <= h[k].weight)
  }

  lemma OfferHeap(h: seq<Posting>, x: Posting, n: nat)
    requires IsHeap(h) && |h| <= n
    ensures var r := Offer(h, x, n);
            && IsHeap(r) && |r| == (if |h| < n then |h| + 1 else n)
            && multiset(r) == (if |h| < n then multiset(h) + multiset{x}
                               else if Accepts(h, x, n) then multiset(h) - multiset{h[0]} + multiset{x}
                               else multiset(h))
  {
    if |h| < n {
      PushHeap(h, x);
    } else if Accepts(h, x, n) {
      PopHeap(h);
      PushHeap(Pop(h), x);
    }
  }

  /** A full heap stays full and its least entry never falls. */
  lemma OfferFront(h: seq<Posting>, x: Posting, n: nat)
    requires IsHeap(h) && |h| == n && n > 0
    ensures |Offer(h, x, n)| == n && Offer(h, x, n)[0].weight >= h[0].weight
  {
    OfferHeap(h, x, n);
    var r := Offer(h, x, n);
    if Accepts(h, x, n) {
      assert r[0] in multiset(r);
      if r[0] != x {
        assert r[0] in multiset(h);
        var j :| 0 <= j < |h| && h[j] == r[0];
        FrontIsLeast(h, j);
      }
    }
  }

  lemma InHeapAbove(h: seq<Posting>, y: Posting)
    requires IsHeap(h) && y in h
    ensures |h| > 0 && h[0].weight <= y.weight
  {
    var j :| 0 <= j < |h| && h[j] == y;
    FrontIsLeast(h, j);
  }

  /** What one offer leaves out: what was left out before, the entry it replaced, or the document itself. */
  lemma LeftOut(h: seq<Posting>, s: seq<Posting>, x: Posting, n: nat, y: Posting)
    requires IsHeap(h) && |h| == n && n > 0 && multiset(h) <= multiset(s)
    requires multiset(s + [x])[y] > multiset(Offer(h, x, n))[y]
    ensures multiset(s)[y] > multiset(h)[y] || (y == h[0] && Accepts(h, x, n)) || (y == x && !Accepts(h, x, n))
  {
    hide IsHeap, Offer, Push, Pop;
    OfferHeap(h, x, n);
    assert multiset(s + [x]) == multiset(s) + multiset{x};
    assert h[0] in multiset(h);
  }

  lemma Subsumed(h: seq<Posting>, s: seq<Posting>, x: Posting, n: nat)
    requires IsHeap(h) && |h| <= n && multiset(h) <= multiset(s)
    ensures multiset(Offer(h, x, n)) <= multiset(s + [x])
  {
    hide IsHeap, Offer, Push, Pop;
    OfferHeap(h, x, n);
    assert multiset(s + [x]) == multiset(s) + multiset{x};
  }

  lemma NothingLeftOut(h: seq<Posting>, s: seq<Posting>, x: Posting, n: nat)
    requires IsHeap(h) && |h| < n && multiset(h) == multiset(s)
    ensures multiset(Offer(h, x, n)) == multiset(s + [x])
  {
    hide IsHeap, Push, Pop;
    OfferHeap(h, x, n);
  }

  lemma SameSize(h: seq<Posting>, s: seq<Posting>)
    requires multiset(h) <= multiset(s) && |h| == |s|
    ensures multiset(h) == multiset(s)
  {
    assert |multiset(h)| == |multiset(s)|;
    var rest := multiset(s) - multiset(h);
    assert multiset(s) == multiset(h) + rest && |rest| == 0;
  }

  /** Whoever scores at most the least entry, or is refused, scores at most everybody after the offer. */
  lemma LeftOutBelow(h: seq<Posting>, x: Posting, n: nat, y: Posting)
    requires IsHeap(h) && |h| == n && n > 0 && (y.weight <= h[0].weight || (y == x && !Accepts(h, x, n)))
    ensures var r := Offer(h, x, n);
            |r| == n && forall k :: 0 <= k < |r| ==> y.weight <= r[k].weight
  {
    hide IsHeap, Offer;
    OfferHeap(h, x, n);
    OfferFront(h, x, n);
    var r := Offer(h, x, n);
    forall k | 0 <= k < |r| ensures y.weight <= r[k].weight { FrontIsLeast(r, k); }
  }

  lemma OfferBest(h: seq<Posting>, s: seq<Posting>, x: Posting, n: nat)
    requires Best(h, s, n)
    ensures Best(Offer(h, x, n), s + [x], n)
  {
    hide IsHeap, Offer;
    OfferHeap(h, x, n);
    Subsumed(h, s, x, n);
    var r := Offer(h, x, n);
    if |h| < n {
      SameSize(h, s);
      NothingLeftOut(h, s, x, n);
    } else if n > 0 {
      forall y: Posting | multiset(s + [x])[y] > multiset(r)[y]
        ensures |r| == n && forall k :: 0 <= k < |r| ==> y.weight <= r[k].weight
      {
        LeftOut(h, s, x, n, y);
        LeftOutBelow(h, x, n, y);
      }
    }
  }

  lemma EmptyBest(n: nat)
    ensures Best([], [], n)
  {
  }

  /** For every stream, the heap ends up holding a true top-n of it. */
  lemma {:induction false} RunIsBest(s: seq<Posting>, n: nat)
    ensures Best(Run(s, n), s, n)
  {
    hide Best, Offer;
    if |s| == 0 {
      EmptyBest(n);
      assert s == [];
    } else {
      var front := s[..|s| - 1];
      RunIsBest(front, n);
      OfferBest(Run(front, n), front, s[|s| - 1], n);
      assert s == front + [s[|s| - 1]];
    }
  }

  lemma RunAppend(s: seq<Posting>, x: Posting, n: nat)
    ensures Run(s + [x], n) == Offer(Run(s, n), x, n)
  {
  }

  // ----- The tie rule ----------------------------------------------------------------------------------

  /** How many entries score at least `w`. */
  function AtLeast(s: seq<Posting>, w: real): nat {
    if |s| == 0 then 0 else AtLeast(s[..|s| - 1], w) + if s[|s| - 1].weight >= w then 1 else 0
  }

  lemma {:induction false} AtLeastAppend(a: seq<Posting>, b: seq<Posting>, w: real)
    ensures AtLeast(a + b, w) == AtLeast(a, w) + AtLeast(b, w)
  {
    if |b| == 0 {
      assert a + b == a;
    } else {
      assert (a + b)[..|a + b| - 1] == a + b[..|b| - 1];
      AtLeastAppend(a, b[..|b| - 1], w);
    }
  }

  lemma TakeOut(b: seq<Posting>, j: nat, w: real)
    requires j < |b|
    ensures var rest := b[..j] + b[j + 1..];
            && multiset(b) == multiset(rest) + multiset{b[j]}
            && AtLeast(b, w) == AtLeast(rest, w) + if b[j].weight >= w then 1 else 0
  {
    assert b == b[..j] + ([b[j]] + b[j + 1..]);
    AtLeastAppend(b[..j], b[j + 1..], w);
    AtLeastAppend(b[..j], [b[j]] + b[j + 1..], w);
    AtLeastAppend([b[j]], b[j + 1..], w);
    AtLeastOne(b[j], w);
  }

  lemma Cancel(m: multiset<Posting>, m': multiset<Posting>, x: Posting)
    requires m + multiset{x} == m' + multiset{x}
    ensures m == m'
  {
    assert m == m + multiset{x} - multiset{x};
    assert m' == m' + multiset{x} - multiset{x};
  }

  lemma {:induction false} AtLeastPermuted(a: seq<Posting>, b: seq<Posting>, w: real)
    requires multiset(a) == multiset(b)
    ensures AtLeast(a, w) == AtLeast(b, w)
    decreases |a|
  {
    if |a| == 0 {
      assert |multiset(b)| == 0;
    } else {
      assert a[0] in multiset(b);
      var j :| 0 <= j < |b| && b[j] == a[0];
      TakeOut(a, 0, w);
      TakeOut(b, j, w);
      var a', b' := a[..0] + a[1..], b[..j] + b[j + 1..];
      Cancel(multiset(a'), multiset(b'), a[0]);
      AtLeastPermuted(a', b', w);
    }
  }

  lemma {:induction false} AtLeastBounded(s: seq<Posting>, w: real)
    ensures AtLeast(s, w) <= |s|
    ensures (forall k :: 0 <= k < |s| ==> s[k].weight >= w) ==> AtLeast(s, w) == |s|
    ensures (exists k :: 0 <= k < |s| && s[k].weight < w) ==> AtLeast(s, w) < |s|
  {
    if |s| > 0 {
      var front := s[..|s| - 1];
      AtLeastBounded(front, w);
      if exists k :: 0 <= k < |s| && s[k].weight < w {
        var k :| 0 <= k < |s| && s[k].weight < w;
        if k < |front| { assert front[k].weight < w; }
      }
    }
  }

  lemma AtLeastOne(x: Posting, w: real)
    ensures AtLeast([x], w) == if x.weight >= w then 1 else 0
  {
  }

  /** An entry more. */
  lemma CountsMore(h: seq<Posting>, x: Posting, r: seq<Posting>, w: real)
    requires multiset(r) == multiset(h) + multiset{x}
    ensures AtLeast(r, w) == AtLeast(h, w) + if x.weight >= w then 1 else 0
  {
    hide AtLeast;
    assert multiset(h + [x]) == multiset(h) + multiset{x};
    AtLeastPermuted(r, h + [x], w);
    AtLeastAppend(h, [x], w);
    AtLeastOne(x, w);
  }

  /** What one offer does to the number of heap entries that score at least `w`. */
  lemma OfferCounts(h: seq<Posting>, x: Posting, n: nat, w: real)
    requires IsHeap(h) && |h| <= n
    ensures var up := if x.weight >= w then 1 else 0;
            AtLeast(Offer(h, x, n), w) ==
              if |h| < n then AtLeast(h, w) + up
              else if Accepts(h, x, n) then AtLeast(h, w) + up - (if h[0].weight >= w then 1 else 0)
              else AtLeast(h, w)
  {
    hide IsHeap, AtLeast, Push, Pop;
    if |h| < n {
      PushHeap(h, x);
      CountsMore(h, x, Push(h, x), w);
    } else if Accepts(h, x, n) {
      PopHeap(h);
      PushHeap(Pop(h), x);
      PutBack(h, Pop(h));
      CountsMore(Pop(h), x, Push(Pop(h), x), w);
      CountsMore(Pop(h), h[0], h, w);
    }
  }

  /** Up to n, the heap counts the entries above any mark exactly as the whole stream does. */
  lemma {:induction false} AtLeastRun(s: seq<Posting>, n: nat, w: real)
    ensures var a, b := AtLeast(s, w), AtLeast(Run(s, n), w);
            b <= a && (b < n ==> a == b)
  {
    if |s| > 0 {
      hide Offer;
      var front, x := s[..|s| - 1], s[|s| - 1];
      var h := Run(front, n);
      AtLeastRun(front, n, w);
      RunIsBest(front, n);
      OfferCounts(h, x, n, w);
      if |h| == n && n > 0 && h[0].weight >= w { AllAtLeast(h, w); }
    }
  }

  lemma AllAtLeast(h: seq<Posting>, w: real)
    requires IsHeap(h) && |h| > 0 && h[0].weight >= w
    ensures AtLeast(h, w) == |h|
  {
    forall k | 0 <= k < |h| ensures h[k].weight >= w { FrontIsLeast(h, k); }
    AtLeastBounded(h, w);
  }

  /**
   * The tie rule, without mentioning the heap: a document enters the running top-n exactly when
   * fewer than n of the documents before it score at least as much.
   */
  lemma AcceptedIff(s: seq<Posting>, x: Posting, n: nat)
    ensures Accepts(Run(s, n), x, n) <==> AtLeast(s, x.weight) < n
  {
    var h := Run(s, n);
    RunIsBest(s, n);
    AtLeastRun(s, n, x.weight);
    AtLeastBounded(h, x.weight);
    if |h| == n && n > 0 {
      if x.weight > h[0].weight {
        assert h[0].weight < x.weight;
      } else {
        AllAtLeast(h, x.weight);
      }
    }
  }
}
