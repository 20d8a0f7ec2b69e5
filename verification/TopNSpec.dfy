/** What a top-n result means for the lists behind a query, and how it grows one document at a time. */
module TopNSpec {
  import opened Postings
  import opened WandSpec
  import opened Heap
  import opened TopN

  function Scored(lists: seq<seq<Posting>>, d: DocId): Posting {
    Posting(d, Score(lists, d))
  }

  /** All documents of the lists up to `b`, ascending, with their full scores. */
  ghost function Stream(lists: seq<seq<Posting>>, b: DocId): seq<Posting> {
    if b == 0 then [] else Stream(lists, b - 1) + if Occurs(lists, b) then [Scored(lists, b)] else []
  }

  /** Every document of the lists has an id up to `b`. */
  ghost predicate Ends(lists: seq<seq<Posting>>, b: DocId) {
    forall d: DocId :: Occurs(lists, d) ==> 0 < d <= b
  }

  ghost predicate Scores(lists: seq<seq<Posting>>, results: seq<Posting>) {
    forall k :: 0 <= k < |results| ==> Occurs(lists, results[k].doc) && results[k] == Scored(lists, results[k].doc)
  }

  ghost predicate Distinct(results: seq<Posting>) {
    forall i, j :: 0 <= i < j < |results| ==> results[i].doc != results[j].doc
  }

  /** A document left out could be skipped, or the result is full and it beats nobody in it. */
  ghost predicate Excused(lists: seq<seq<Posting>>, results: seq<Posting>, n: nat, skip: bool, limit: real, d: DocId) {
    || Scored(lists, d) in results
    || (skip && Score(lists, d) <= limit)
    || (|results| == n && forall k :: 0 <= k < |results| ==> Score(lists, d) <= results[k].weight)
  }

  /** The result of a top-n query. */
  ghost predicate IsTopN(lists: seq<seq<Posting>>, results: seq<Posting>, n: nat, skip: bool, limit: real) {
    && |results| <= n
    && Scores(lists, results)
    && Distinct(results)
    && (forall d: DocId :: Occurs(lists, d) ==> Excused(lists, results, n, skip, limit, d))
  }

  /** The documents delivered so far: exact scores, ascending ids up to `b`. */
  ghost predicate Delivered(lists: seq<seq<Posting>>, seen: seq<Posting>, b: DocId) {
    && Scores(lists, seen)
    && (forall k :: 0 <= k < |seen| ==> seen[k].doc <= b)
    && (forall i, j :: 0 <= i < j < |seen| ==> seen[i].doc < seen[j].doc)
  }

  /** Up to `b`, every document was delivered or is excused by the heap so far. */
  ghost predicate Covered(
    lists: seq<seq<Posting>>, seen: seq<Posting>, n: nat, skip: bool, limit: real, b: DocId)
  {
    forall d: DocId :: d <= b && Occurs(lists, d) ==>
      || Scored(lists, d) in seen
      || (skip && Score(lists, d) <= limit)
      || Outdone(Run(seen, n), n, Score(lists, d))
  }

  /** A full heap whose least entry scores at least `w`. */
  predicate Outdone(h: seq<Posting>, n: nat, w: real) {
    |h| == n && n > 0 && w <= h[0].weight
  }

  lemma RunIsHeap(s: seq<Posting>, n: nat)
    ensures IsHeap(Run(s, n))
  {
    RunIsBest(s, n);
  }

  lemma OfferCases(s: seq<Posting>, x: Posting, n: nat)
    requires n > 0
    ensures var h := Run(s, n);
            && |h| <= n && |Offer(h, x, n)| > 0
            && Offer(h, x, n) == (if |h| < n then Push(h, x) else if x.weight > h[0].weight then Push(Pop(h), x) else h)
            && (|h| == n ==> |Offer(h, x, n)| == n)
            && Run(s + [x], n) == Offer(h, x, n)
  {
  }

  lemma OutdoneStays(h: seq<Posting>, x: Posting, n: nat, w: real)
    requires IsHeap(h) && Outdone(h, n, w)
    ensures Outdone(Offer(h, x, n), n, w)
  {
    OfferFront(h, x, n);
  }

  /** The documents between `low` and `p`, or all beyond `low` when `p` is 0, are excused by the heap so far. */
  ghost predicate Excusable(
    lists: seq<seq<Posting>>, h: seq<Posting>, n: nat, skip: bool, limit: real, low: DocId, p: DocId)
  {
    forall d: DocId :: d > low && (p == 0 || d < p) && Occurs(lists, d) ==>
      (skip && Score(lists, d) <= limit) || Outdone(h, n, Score(lists, d))
  }

  /** One more delivery keeps everything covered, if what was skipped before it could be skipped. */
  lemma CoverMore(lists: seq<seq<Posting>>, seen: seq<Posting>, n: nat, skip: bool, limit: real, b: DocId, p: DocId)
    requires Covered(lists, seen, n, skip, limit, b) && b < p
    requires Excusable(lists, Run(seen, n), n, skip, limit, b, p)
    ensures Covered(lists, seen + [Scored(lists, p)], n, skip, limit, p)
  {
    hide Run, Offer, Best, Occurs, Score;
    var x := Scored(lists, p);
    RunAppend(seen, x, n);
    RunIsHeap(seen, n);
    forall d: DocId | d <= p && Occurs(lists, d)
      ensures || Scored(lists, d) in seen + [x]
              || (skip && Score(lists, d) <= limit)
              || Outdone(Run(seen + [x], n), n, Score(lists, d))
    {
      if Outdone(Run(seen, n), n, Score(lists, d)) {
        OutdoneStays(Run(seen, n), x, n, Score(lists, d));
      }
    }
  }

  lemma CoverRest(lists: seq<seq<Posting>>, seen: seq<Posting>, n: nat, skip: bool, limit: real, b: DocId, b': DocId)
    requires Covered(lists, seen, n, skip, limit, b) && b <= b'
    requires Excusable(lists, Run(seen, n), n, skip, limit, b, 0)
    ensures Covered(lists, seen, n, skip, limit, b')
  {
  }

  /** No document of the lists is one that may be skipped from the start. */
  ghost predicate AllWanted(lists: seq<seq<Posting>>, skip: bool, limit: real) {
    forall d: DocId :: Occurs(lists, d) ==> !(skip && Score(lists, d) <= limit)
  }

  /** The same documents entered the heap from what was delivered as would from the full stream up to `b`. */
  ghost predicate Follows(lists: seq<seq<Posting>>, seen: seq<Posting>, n: nat, b: DocId) {
    Run(seen, n) == Run(Stream(lists, b), n) && Entered(seen, n) == Entered(Stream(lists, b), n)
  }

  /** Skipping excusable documents leaves the run over the full stream where it is. */
  lemma StreamMore(lists: seq<seq<Posting>>, seen: seq<Posting>, n: nat, skip: bool, limit: real, b: DocId, p: DocId)
    requires AllWanted(lists, skip, limit) && b < p && Occurs(lists, p)
    requires Excusable(lists, Run(seen, n), n, skip, limit, b, p)
    requires Follows(lists, seen, n, b)
    ensures Follows(lists, seen + [Scored(lists, p)], n, p)
  {
    hide Run, Entered;
    SkipStream(lists, n, b, p - 1);
    RunAppend(seen, Scored(lists, p), n);
    RunAppend(Stream(lists, p - 1), Scored(lists, p), n);
    EnteredAppend(seen, Scored(lists, p), n);
    EnteredAppend(Stream(lists, p - 1), Scored(lists, p), n);
  }

  /** The largest id in the lists. */
  lemma {:induction false} LastId(lists: seq<seq<Posting>>) returns (b: DocId)
    requires forall i :: 0 <= i < |lists| ==> Sorted(lists[i])
    ensures Ends(lists, b)
    decreases |lists|
  {
    if |lists| == 0 {
      b := 0;
    } else {
      var last := lists[|lists| - 1];
      var c := LastId(lists[..|lists| - 1]);
      b := if |last| > 0 && last[|last| - 1].doc > c then last[|last| - 1].doc else c;
      forall d: DocId | Occurs(lists, d) ensures 0 < d <= b {
        var i :| 0 <= i < |lists| && d in Docs(lists[i]);
        if i < |lists| - 1 {
          assert lists[..|lists| - 1][i] == lists[i];
          assert Occurs(lists[..|lists| - 1], d);
        } else {
          var k := DocPosition(last, d);
          assert k < |last| - 1 ==> last[k].doc < last[|last| - 1].doc;
        }
      }
    }
  }

  lemma DeliverMore(lists: seq<seq<Posting>>, seen: seq<Posting>, b: DocId, p: DocId)
    requires Delivered(lists, seen, b) && b < p && Occurs(lists, p)
    ensures Delivered(lists, seen + [Scored(lists, p)], p)
  {
  }

  /** Skipping documents that the full heap outdoes leaves the run over the full stream where it is. */
  lemma {:induction false} SkipStream(lists: seq<seq<Posting>>, n: nat, b: DocId, b': DocId)
    requires b <= b'
    requires forall d: DocId ::
               b < d <= b' && Occurs(lists, d) ==> Outdone(Run(Stream(lists, b), n), n, Score(lists, d))
    ensures Run(Stream(lists, b'), n) == Run(Stream(lists, b), n)
    ensures Entered(Stream(lists, b'), n) == Entered(Stream(lists, b), n)
    decreases b'
  {
    if b < b' {
      SkipStream(lists, n, b, b' - 1);
      if Occurs(lists, b') {
        RunAppend(Stream(lists, b' - 1), Scored(lists, b'), n);
        EnteredAppend(Stream(lists, b' - 1), Scored(lists, b'), n);
      } else {
        assert Stream(lists, b') == Stream(lists, b' - 1);
      }
    }
  }

  lemma SeenToResults(h: seq<Posting>, seen: seq<Posting>, n: nat, x: Posting)
    requires Best(h, seen, n) && x in seen && x !in h
    ensures |h| == n && forall k :: 0 <= k < |h| ==> x.weight <= h[k].weight
  {
  }

  /** When everything is covered, any arrangement of the heap is a top-n result. */
  lemma Complete(
    lists: seq<seq<Posting>>, seen: seq<Posting>, results: seq<Posting>, n: nat, skip: bool, limit: real,
    b: DocId, end: DocId)
    requires Delivered(lists, seen, b) && Covered(lists, seen, n, skip, limit, end) && Ends(lists, end)
    requires multiset(results) == multiset(Run(seen, n))
    ensures IsTopN(lists, results, n, skip, limit)
  {
    RunIsBest(seen, n);
    var h := Run(seen, n);
    SameMembers(results, h);
    SubDistinct(lists, seen, b, results);
    forall d: DocId | Occurs(lists, d) ensures Excused(lists, results, n, skip, limit, d) {
      var x := Scored(lists, d);
      if x !in results && !(skip && x.weight <= limit) {
        if x in seen { SeenToResults(h, seen, n, x); }
        forall k | 0 <= k < |results| ensures x.weight <= results[k].weight {
          assert results[k] in h;
          InHeapAbove(h, results[k]);
        }
      }
    }
  }

  lemma SameMembers(a: seq<Posting>, b: seq<Posting>)
    requires multiset(a) == multiset(b)
    ensures |a| == |b| && forall x :: x in a <==> x in b
  {
    assert |multiset(a)| == |a| && |multiset(b)| == |b|;
    forall x ensures x in a <==> x in b {
      assert x in a <==> x in multiset(a);
      assert x in b <==> x in multiset(b);
    }
  }

  /** Entries drawn from an ascending stream, no more often than they occur there, are distinct and exact. */
  lemma SubDistinct(lists: seq<seq<Posting>>, seen: seq<Posting>, b: DocId, results: seq<Posting>)
    requires Delivered(lists, seen, b) && multiset(results) <= multiset(seen)
    ensures Scores(lists, results) && Distinct(results)
  {
    forall k | 0 <= k < |results|
      ensures Occurs(lists, results[k].doc) && results[k] == Scored(lists, results[k].doc)
    {
      assert results[k] in multiset(results);
      assert results[k] in seen;
    }
    forall i, j | 0 <= i < j < |results| ensures results[i].doc != results[j].doc {
      if results[i].doc == results[j].doc {
        TwiceInMultiset(results, i, j);
        OnceInMultiset(seen, results[i]);
        assert false;
      }
    }
  }

  lemma TwiceInMultiset(s: seq<Posting>, i: nat, j: nat)
    requires i < j < |s| && s[i] == s[j]
    ensures multiset(s)[s[i]] >= 2
  {
    assert s == s[..j] + [s[j]] + s[j + 1..];
    assert s[i] in s[..j];
    assert multiset(s[..j])[s[i]] >= 1;
  }

  lemma {:induction false} OnceInMultiset(s: seq<Posting>, x: Posting)
    requires forall i, j :: 0 <= i < j < |s| ==> s[i].doc < s[j].doc
    ensures multiset(s)[x] <= 1
  {
    if |s| > 0 {
      var front := s[..|s| - 1];
      OnceInMultiset(front, x);
      assert s == front + [s[|s| - 1]];
      if s[|s| - 1] == x {
        assert x !in front;
        assert multiset(front)[x] == 0;
      }
    }
  }

  lemma OccursWithin(lists: seq<seq<Posting>>, b: DocId, d: DocId)
    requires Ends(lists, b) && Occurs(lists, d)
    ensures 0 < d <= b
  {
  }

  lemma StreamRest(lists: seq<seq<Posting>>, seen: seq<Posting>, n: nat, skip: bool, limit: real, b: DocId, b': DocId)
    requires AllWanted(lists, skip, limit) && b <= b'
    requires Excusable(lists, Run(seen, n), n, skip, limit, b, 0) && Follows(lists, seen, n, b)
    ensures Follows(lists, seen, n, b')
  {
    SkipStream(lists, n, b, b');
  }

  /**
   * A drain in progress: the heap is the run over what was delivered, everything up to `current` is
   * covered, and the reader's present limit is the first one or one the full heap outdoes.
   */
  ghost predicate Progress(
    lists: seq<seq<Posting>>, seen: seq<Posting>, h: seq<Posting>, n: nat, skip: bool, limit: real, now: real,
    current: DocId)
  {
    && h == Run(seen, n) && n > 0
    && Delivered(lists, seen, current) && Covered(lists, seen, n, skip, limit, current)
    && (skip ==> now <= limit || Outdone(h, n, now))
    && (AllWanted(lists, skip, limit) ==> Follows(lists, seen, n, current))
    && (current == 0 || Occurs(lists, current))
  }

  lemma ProgressStart(lists: seq<seq<Posting>>, n: nat, skip: bool, limit: real)
    requires forall i :: 0 <= i < |lists| ==> Sorted(lists[i])
    requires n > 0
    ensures Progress(lists, [], [], n, skip, limit, limit, 0)
  {
  }

  lemma ProgressStep(
    lists: seq<seq<Posting>>, seen: seq<Posting>, h: seq<Posting>, n: nat, skip: bool, limit: real, now: real,
    current: DocId, p: DocId)
    requires Progress(lists, seen, h, n, skip, limit, now, current)
    requires Excusable(lists, h, n, skip, limit, current, p) && p > current && Occurs(lists, p)
    ensures var x := Scored(lists, p);
            var h' := Offer(h, x, n);
            && |h'| > 0 && (|h| < n || |h| == n)
            && Progress(lists, seen + [x], h', n, skip, limit, now, p)
            && (|h| == n ==> Progress(lists, seen + [x], h', n, skip, limit, h'[0].weight, p))
  {
    hide Run, Offer, Push, Pop, Stream, Covered, Delivered, Excusable, AllWanted, Occurs, IsHeap, Score, Follows;
    var x := Scored(lists, p);
    CoverMore(lists, seen, n, skip, limit, current, p);
    DeliverMore(lists, seen, current, p);
    if AllWanted(lists, skip, limit) { StreamMore(lists, seen, n, skip, limit, current, p); }
    OfferCases(seen, x, n);
    RunIsHeap(seen, n);
    if Outdone(h, n, now) { OutdoneStays(h, x, n, now); }
  }

  /** At the end of the drain the heap, in any arrangement, is a top-n result. */
  lemma ProgressEnd(
    lists: seq<seq<Posting>>, seen: seq<Posting>, h: seq<Posting>, n: nat, skip: bool, limit: real, now: real,
    current: DocId, results: seq<Posting>)
    requires Progress(lists, seen, h, n, skip, limit, now, current)
    requires Excusable(lists, h, n, skip, limit, current, 0)
    requires forall i :: 0 <= i < |lists| ==> Sorted(lists[i])
    requires multiset(results) == multiset(h)
    ensures IsTopN(lists, results, n, skip, limit)
    ensures AllWanted(lists, skip, limit) ==> forall b :: Ends(lists, b) ==> Follows(lists, seen, n, b)
  {
    hide Run, Stream, Covered, Delivered, Excusable, AllWanted, Occurs, Score, IsTopN, Follows;
    var end := LastId(lists);
    if current > 0 { OccursWithin(lists, end, current); }
    CoverRest(lists, seen, n, skip, limit, current, end);
    Complete(lists, seen, results, n, skip, limit, current, end);
    forall b | AllWanted(lists, skip, limit) && Ends(lists, b) ensures Follows(lists, seen, n, b) {
      if current > 0 { OccursWithin(lists, b, current); }
      StreamRest(lists, seen, n, skip, limit, current, b);
    }
  }
}
