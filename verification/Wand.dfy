/** WandReader: a document-at-a-time merge that skips documents which cannot beat a threshold. */
module Wand {
  import opened Sums
  import opened Postings
  import opened WandSpec

  class WandReader {
    const readers: seq<DotProductReader>
    const upperBounds: seq<real>
    var cursors: seq<DocId>
    var sorted: seq<nat>
    var acc: seq<real>
    var threshold: real

    /** The scored postings behind the readers, as they were when the reader was built. */
    ghost const lists: seq<seq<Posting>>

    /** The cursors this reader owns and moves, and the posting lists it only reads. */
    ghost const owned: set<object>
    ghost const shared: set<object>

    ghost function Iters(): (s: seq<nat>)
      requires forall i :: 0 <= i < |readers| ==> readers[i].reader in owned
      reads owned
      ensures |s| == |readers|
      ensures forall i :: 0 <= i < |s| ==> s[i] == readers[i].reader.iter
    {
      seq(|readers|, i requires 0 <= i < |readers| && readers[i].reader in owned reads owned => readers[i].reader.iter)
    }

    ghost function View(): State
      requires forall i :: 0 <= i < |readers| ==> readers[i].reader in owned
      reads this, owned
    {
      State(lists, upperBounds, Iters(), cursors, sorted, acc)
    }

    /** The readers are this reader's own, and the lists behind them have not changed. */
    ghost predicate Attached()
      reads owned, shared
      ensures Attached() ==>
                && |lists| == |readers| && this !in owned && this !in shared
                && (forall i :: 0 <= i < |readers| ==> readers[i].reader in owned)
    {
      && this !in owned && this !in shared
      && |lists| == |readers|
      && (forall i :: 0 <= i < |readers| ==> readers[i].reader in owned && readers[i].reader.list in shared)
      && (forall i :: 0 <= i < |readers| ==> readers[i].Valid() && readers[i].Scored() == lists[i])
      && (forall i, j :: 0 <= i < j < |readers| ==> readers[i].reader != readers[j].reader)
    }

    ghost predicate Valid()
      reads this, owned, shared
    {
      Attached() && Structure(View())
    }

    constructor (input: seq<DotProductReader>)
      requires forall i :: 0 <= i < |input| ==> input[i].Valid() && input[i].reader.iter == 0
      requires forall i :: 0 <= i < |input| ==> Bounds(input[i].UpperBound(), input[i].Scored())
      requires forall i, j :: 0 <= i < j < |input| ==> input[i].reader != input[j].reader
      ensures Valid() && readers == input && threshold == 0.0
      ensures lists == ScoredLists(input) && owned == CursorsOf(input) && shared == SourcesOf(input)
      ensures PassedAtMost(View(), -1) && |sorted| == |input|
    {
      hide Structure, Inputs, Prefixes, ScoredLists, UpperBoundsOf, Zeros, Counting, Iters;
      InputsOf(input);
      readers := input;
      owned, shared := CursorsOf(input), SourcesOf(input);
      lists := ScoredLists(input);
      upperBounds := UpperBoundsOf(input);
      cursors := Zeros(|input|);
      sorted := Counting(|input|);
      threshold := 0.0;
      acc := Prefixes(UpperBoundsOf(input), Counting(|input|));
      new;
      assert Attached();
      hide Attached;
      InitialStructure(View());
    }

    /** The hint of PostingListReader, as WandReader stores it. */
    method Threshold(score: real)
      requires Valid()
      modifies this`threshold
      ensures Valid() && threshold == score
    {
      threshold := score;
    }

    method UpperBound() returns (r: real)
      requires Valid()
      ensures r == Partial(upperBounds, sorted, |sorted|)
      ensures forall d: DocId :: Occurs(lists, d) && PassedAtMost(View(), d - 1) ==> Score(lists, d) <= r
    {
      ghost var st := View();
      r := if |acc| > 0 then acc[|acc| - 1] else 0.0;
      forall d: DocId | Occurs(lists, d) && PassedAtMost(st, d - 1) ensures Score(lists, d) <= r {
        SkippedBelowPivot(st, r, d - 1, |sorted|, d);
        ScoreWithinReach(lists, upperBounds, d);
      }
    }

    /** The first running sum above the threshold at or after `from`, by binary search. */
    method FindPivot(from: nat) returns (pivot: nat)
      requires Valid() && from <= |acc|
      ensures from <= pivot <= |acc|
      ensures forall k :: from <= k < pivot ==> acc[k] <= threshold
      ensures forall k :: pivot <= k < |acc| ==> acc[k] > threshold
    {
      ghost var st := View();
      var lo, hi := from, |acc|;
      while lo < hi
        invariant from <= lo <= hi <= |acc|
        invariant forall k :: from <= k < lo ==> acc[k] <= threshold
        invariant forall k :: hi <= k < |acc| ==> acc[k] > threshold
      {
        var mid := (lo + hi) / 2;
        if acc[mid] > threshold {
          forall k | mid <= k < |acc| ensures acc[k] > threshold { PrefixesMonotone(st, mid, k); }
          hi := mid;
        } else {
          forall k | from <= k <= mid ensures acc[k] <= threshold { PrefixesMonotone(st, k, mid); }
          lo := mid + 1;
        }
      }
      pivot := lo;
    }

    /** Take the reader at place `term` out of the running. */
    method RemoveTerm(term: nat)
      requires term < |sorted| && Indexes(|upperBounds|, sorted) && acc == Prefixes(upperBounds, sorted)
      modifies this`sorted, this`acc
      ensures sorted == Without(old(sorted), term)
      ensures Indexes(|upperBounds|, sorted) && acc == Prefixes(upperBounds, sorted)
    {
      hide Shifting, Prefixes, Without, Partial;
      ghost var s0 := sorted;
      ghost var w := ShiftStart(upperBounds, s0, term, acc);
      var score := 0.0;
      if term > 0 { score := acc[term - 1]; }
      var i := term + 1;
      while i < |sorted|
        invariant term + 1 <= i <= |s0| && Shifting(upperBounds, s0, w, i, sorted, acc)
        invariant score == Partial(upperBounds, w, i - 1)
      {
        ShiftStep(upperBounds, s0, w, i, sorted, acc);
        sorted := sorted[i - 1 := sorted[i]];
        score := score + upperBounds[sorted[i]];
        acc := acc[i - 1 := score];
        i := i + 1;
      }
      ShiftEnd(upperBounds, s0, w, term, sorted, acc);
      sorted := sorted[..|sorted| - 1];
      acc := acc[..|acc| - 1];
    }

    /** Move the reader at place `term` back behind all readers with a smaller cursor. */
    method MoveTerm(term: nat) returns (ghost to: nat)
      requires term < |sorted| && |cursors| == |upperBounds|
      requires Indexes(|upperBounds|, sorted) && acc == Prefixes(upperBounds, sorted)
      modifies this`sorted, this`acc
      ensures term < to <= |old(sorted)| && sorted == Rotate(old(sorted), term, to)
      ensures IsSlot(cursors, old(sorted), term + 1, cursors[old(sorted)[term]], to)
      ensures Indexes(|upperBounds|, sorted) && acc == Prefixes(upperBounds, sorted)
    {
      hide Shifting, Prefixes, Rotate, Without, Partial;
      ghost var s0 := sorted;
      ghost var w := ShiftStart(upperBounds, s0, term, acc);
      var score := 0.0;
      if term > 0 { score := acc[term - 1]; }
      var termIndex := sorted[term];
      var termCursor := cursors[termIndex];
      var i := term + 1;
      while i < |sorted|
        invariant term + 1 <= i <= |s0| && Shifting(upperBounds, s0, w, i, sorted, acc)
        invariant score == Partial(upperBounds, w, i - 1)
        invariant AllBelow(cursors, s0, term + 1, i, termCursor)
      {
        if cursors[sorted[i]] >= termCursor { break; }
        ShiftStep(upperBounds, s0, w, i, sorted, acc);
        sorted := sorted[i - 1 := sorted[i]];
        score := score + upperBounds[sorted[i]];
        acc := acc[i - 1 := score];
        i := i + 1;
      }
      score := score + upperBounds[termIndex];
      MoveEnd(upperBounds, s0, w, term, i, sorted, acc, score);
      sorted := sorted[i - 1 := termIndex];
      acc := acc[i - 1 := score];
      to := i;
    }

    /** Tell one reader to read beyond `target`; nothing else about the readers changes. */
    method AdvanceReader(x: nat, target: DocId) returns (doc: DocId)
      requires Attached() && x < |readers|
      modifies readers[x].reader
      ensures Attached()
      ensures var at := Seek(lists[x], old(Iters())[x], target);
              && Iters() == old(Iters())[x := at]
              && doc == if at < |lists[x]| then lists[x][at].doc else 0
    {
      doc := readers[x].Next(target);
    }

    /** Put the reader at place `pick` back in order, or drop it when it ran out. */
    method Reorder(pick: nat)
      requires pick < |sorted| && |cursors| == |upperBounds|
      requires Indexes(|upperBounds|, sorted) && acc == Prefixes(upperBounds, sorted)
      modifies this`sorted, this`acc
      ensures sorted == Reordered(cursors, old(sorted), pick)
      ensures Indexes(|upperBounds|, sorted) && acc == Prefixes(upperBounds, sorted)
    {
      hide Prefixes, Rotate, Without;
      ghost var s := sorted;
      var c := cursors[sorted[pick]];
      if c != 0 {
        ghost var to := MoveTerm(pick);
        SlotUnique(cursors, s, pick + 1, c, to, Slot(cursors, s, pick + 1, c));
      } else {
        RemoveTerm(pick);
      }
    }

    /** Read the first term beyond `target` and put it back in order. */
    method AdvanceFirst(target: DocId)
      requires Valid() && |sorted| > 0
      modifies this`cursors, this`sorted, this`acc, owned
      ensures View() == Advance(old(View()), target) && Valid()
    {
      hide Attached, Structure, Indexes, Prefixes, Reordered, Seek, Iters;
      ghost var st := View();
      AdvanceStructure(st, target);
      StructureParts(st);
      var pick := 0;
      var pickIndex := sorted[pick];
      var nextCursor := AdvanceReader(pickIndex, target);
      cursors := cursors[pickIndex := nextCursor];
      Reorder(pick);
    }

    /**
     * Advance the first terms beyond `target` until what precedes the pivot cannot beat the threshold,
     * and find the new pivot. The ghost arguments name facts the step keeps: what was passed stays
     * at most `passed`, and readers at or below `horizon` stay too weak to reach the threshold.
     */
    method StepNext(pivot0: nat, target: DocId, ghost passed: int, ghost horizon: int, ghost floor: int)
      returns (pivot: nat)
      requires Valid() && pivot0 < |sorted| && acc[pivot0] > threshold
      requires PassedAtMost(View(), passed) && target <= passed
      requires Behind(View(), threshold, horizon) && Behind(View(), -1.0, floor)
      modifies this`cursors, this`sorted, this`acc, owned
      ensures Valid() && IsPivot(View(), threshold, pivot)
      ensures PassedAtMost(View(), passed)
      ensures Behind(View(), threshold, horizon) && Behind(View(), -1.0, floor)
      ensures Measure(View()) <= old(Measure(View()))
      ensures old(cursors[sorted[0]]) <= target ==> Measure(View()) < old(Measure(View()))
    {
      hide Structure, Attached, Advance, PassedAtMost, Behind, Measure, Iters;
      pivot := pivot0 + 1;
      ghost var first := cursors[sorted[0]] <= target;
      while pivot > 0 && acc[pivot - 1] > threshold
        invariant Valid() && pivot <= |sorted|
        invariant pivot == pivot0 + 1 ==> View() == old(View())
        invariant PassedAtMost(View(), passed)
        invariant Behind(View(), threshold, horizon) && Behind(View(), -1.0, floor)
        invariant Measure(View()) <= old(Measure(View()))
        invariant first && pivot <= pivot0 ==> Measure(View()) < old(Measure(View()))
      {
        ghost var st := View();
        AdvancePassed(st, target, passed);
        AdvanceBehind(st, target, threshold, horizon);
        AdvanceBehind(st, target, -1.0, floor);
        AdvanceMeasure(st, target);
        AdvanceShrinks(st, target);
        AdvanceFirst(target);
        pivot := pivot - 1;
      }
      ghost var st := View();
      forall k | 0 <= k < pivot ensures acc[k] <= threshold { PrefixesMonotone(st, k, pivot - 1); }
      pivot := FindPivot(pivot);
    }

    /** The next document that may beat the threshold, 0 when there is none. */
    method Next(current: DocId) returns (p: DocId)
      requires Valid()
      modifies this`cursors, this`sorted, this`acc, owned
      ensures Valid()
      ensures p != 0 ==> p > current && Occurs(lists, p) && |sorted| > 0 && cursors[sorted[0]] == p
      ensures p != 0 ==> Chosen(View(), threshold, p)
      ensures p != 0 && old(Steady(View(), current)) ==> Located(View(), p) && Settled(View())
      ensures p != 0 && old(Steady(View(), current)) ==> Reach(lists, upperBounds, p) > threshold
      ensures old(NothingMissed(View(), threshold, current, p))
    {
      hide Structure, Attached, PassedAtMost, Behind, Measure, Iters, Skipped, NothingMissed, Located, Settled;
      hide Steady, Reach;
      ghost var st0 := View();
      ghost var floor := Floor(st0);
      ghost var steady := Steady(st0, current);
      ghost var low: int := if floor < current then current else floor;
      ghost var guard := if floor > current && steady then floor else -1;
      if steady { SteadyFloor(st0, current, floor); }
      StartHere(st0, threshold, low, floor);
      ghost var horizon, passed: int := -1, low;
      var pivot: nat := FindPivot(0);
      while true
        invariant Valid() && IsPivot(View(), threshold, pivot) && threshold == old(threshold)
        invariant horizon >= -1 && passed == Later(low, horizon)
        invariant PassedAtMost(View(), passed)
        invariant Behind(View(), threshold, horizon) && Behind(View(), -1.0, guard)
        invariant Skipped(lists, upperBounds, threshold, low, passed + 1)
        decreases Measure(View())
      {
        ghost var st := View();
        if pivot >= |sorted| {
          forall high: int ensures Skipped(lists, upperBounds, threshold, low, high) {
            SkipToEnd(st, threshold, low, passed, high);
          }
          SkippedFresh(st0, threshold, current, floor, 0);
          return 0;
        }
        var pivotCursor := cursors[sorted[pivot]];
        FirstCursor(st);
        PivotBeyond(st, threshold, pivot, horizon, guard);
        SkipToPivot(st, threshold, low, passed, pivot);
        if pivotCursor > current {
          if cursors[sorted[0]] == pivotCursor {
            if steady {
              PivotLocated(st, passed, pivotCursor);
              PivotReaches(st, threshold, pivot, pivotCursor);
            }
            assert Chosen(st, threshold, pivotCursor);
            SkippedFresh(st0, threshold, current, floor, pivotCursor);
            return pivotCursor;
          } else {
            PivotHorizon(st, threshold, pivot);
            horizon := pivotCursor - 1;
            WidenPassed(st, passed, Later(low, horizon));
            passed := Later(low, horizon);
            pivot := StepNext(pivot, pivotCursor - 1, passed, horizon, guard);
          }
        } else {
          pivot := StepNext(pivot, current, passed, horizon, guard);
        }
      }
    }

    /** The score of the document the reader stands on. */
    method Read() returns (score: real)
      requires Valid() && |sorted| > 0 && Located(View(), cursors[sorted[0]])
      ensures score == Score(lists, cursors[sorted[0]])
    {
      hide Structure, Attached, Iters, Weights, Partial, Located;
      ghost var st := View();
      score := 0.0;
      var current := cursors[sorted[0]];
      ghost var w := Weights(lists, current);
      PartialEmpty(w, sorted);
      var i := 0;
      while i < |sorted|
        invariant 0 <= i <= |sorted| && score == Partial(w, sorted, i)
        invariant forall k :: 0 <= k < i ==> cursors[sorted[k]] == current
      {
        var index := sorted[i];
        if cursors[index] != current { break; }
        var weight := ReadReader(index);
        PartialStep(w, sorted, i);
        score := score + weight;
        i := i + 1;
      }
      LocatedScore(st, current, i);
    }

    /** What the reader `x`, which stands on its cursor, delivers. */
    method ReadReader(x: nat) returns (weight: real)
      requires Valid() && x in sorted && x < |readers| && cursors[x] > 0
      ensures weight == Weights(lists, cursors[x])[x]
    {
      StandingWeight(View(), x, cursors[x]);
      weight := readers[x].Read();
    }
  }

  function Later(a: int, b: int): int {
    if a < b then b else a
  }

  /** Half way through a shift: places below `i - 1` hold `w`, the others still hold `s`. */
  ghost predicate Shifting(bounds: seq<real>, s: seq<nat>, w: seq<nat>, i: nat, sorted: seq<nat>, acc: seq<real>)
    ensures Shifting(bounds, s, w, i, sorted, acc) ==>
              && i <= |s| == |w| + 1 == |sorted| == |acc| && Within(|bounds|, w)
              && (i < |s| ==> sorted[i] == s[i] < |bounds|)
  {
    && 0 < i <= |s| == |w| + 1 == |sorted| == |acc|
    && Within(|bounds|, s) && Within(|bounds|, w)
    && (forall k {:trigger sorted[k]} :: 0 <= k < i - 1 ==> sorted[k] == w[k])
    && (forall k {:trigger acc[k]} :: 0 <= k < i - 1 ==> acc[k] == Partial(bounds, w, k + 1))
    && (forall k {:trigger sorted[k]} :: i - 1 <= k < |s| ==> sorted[k] == s[k])
    && (forall k {:trigger acc[k]} :: i - 1 <= k < |s| ==> acc[k] == Partial(bounds, s, k + 1))
    && (forall k {:trigger s[k]} :: i <= k < |s| ==> s[k] == w[k - 1])
  }

  lemma ShiftStart(bounds: seq<real>, s: seq<nat>, term: nat, acc: seq<real>) returns (w: seq<nat>)
    requires Indexes(|bounds|, s) && term < |s| && acc == Prefixes(bounds, s)
    ensures w == Without(s, term)
    ensures Shifting(bounds, s, w, term + 1, s, acc)
    ensures Partial(bounds, w, term) == if term == 0 then 0.0 else acc[term - 1]
  {
    w := Without(s, term);
    WithoutIndexes(|bounds|, s, term);
    forall k | 0 <= k <= term ensures Partial(bounds, w, k) == Partial(bounds, s, k) {
      PartialAgrees(bounds, bounds, w, s, k);
    }
  }

  lemma ShiftStep(bounds: seq<real>, s: seq<nat>, w: seq<nat>, i: nat, sorted: seq<nat>, acc: seq<real>)
    requires 0 < i < |s| && Shifting(bounds, s, w, i, sorted, acc)
    ensures sorted[i] == s[i] < |bounds|
    ensures var score := Partial(bounds, w, i - 1) + bounds[s[i]];
            && score == Partial(bounds, w, i)
            && Shifting(bounds, s, w, i + 1, sorted[i - 1 := s[i]], acc[i - 1 := score])
  {
  }

  lemma ShiftEnd(bounds: seq<real>, s: seq<nat>, w: seq<nat>, term: nat, sorted: seq<nat>, acc: seq<real>)
    requires Indexes(|bounds|, s) && term < |s| && w == Without(s, term) && Shifting(bounds, s, w, |s|, sorted, acc)
    ensures sorted[..|sorted| - 1] == w && Indexes(|bounds|, w)
    ensures acc[..|acc| - 1] == Prefixes(bounds, w)
  {
  }

  lemma MovedSum(bounds: seq<real>, s: seq<nat>, term: nat, to: nat, k: nat)
    requires Within(|bounds|, s) && term < to <= |s| && k <= |s|
    requires Within(|bounds|, Rotate(s, term, to)) && Within(|bounds|, Without(s, term))
    ensures Partial(bounds, Rotate(s, term, to), k) ==
            if k < to then Partial(bounds, Without(s, term), k) else Partial(bounds, s, k)
  {
    if k < to {
      PartialAgrees(bounds, bounds, Rotate(s, term, to), Without(s, term), k);
    } else {
      RotateSums(bounds, s, term, to, k);
    }
  }

  lemma MoveEnd(
    bounds: seq<real>, s: seq<nat>, w: seq<nat>, term: nat, to: nat, sorted: seq<nat>, acc: seq<real>, score: real)
    requires Indexes(|bounds|, s) && term < to <= |s|
    requires w == Without(s, term) && Shifting(bounds, s, w, to, sorted, acc)
    requires score == Partial(bounds, w, to - 1) + bounds[s[term]]
    ensures var moved := sorted[to - 1 := s[term]];
            && moved == Rotate(s, term, to)
            && Indexes(|bounds|, moved)
            && acc[to - 1 := score] == Prefixes(bounds, moved)
  {
    RotateIndexes(|bounds|, s, term, to);
    var r := Rotate(s, term, to);
    assert sorted[to - 1 := s[term]] == r;
    var now := acc[to - 1 := score];
    forall k | 0 <= k < |s| ensures now[k] == Partial(bounds, r, k + 1) {
      MovedSum(bounds, s, term, to, if k == to - 1 then k else k + 1);
    }
  }

  /** Every weight stored in a list, and its bound, is 0. */
  ghost predicate AllZero(list: PostingList)
    reads list
  {
    list.upperBound == 0.0 && forall d :: d in list.posting ==> list.posting[d] == 0.0
  }

  /** A scaled cursor keeps what readers promise exactly when its query weight is not negative or its list all zero. */
  lemma ScoredBound(r: DotProductReader)
    requires r.Valid()
    ensures Sorted(r.Scored())
    ensures Bounds(r.UpperBound(), r.Scored()) <==> r.query >= 0.0 || AllZero(r.reader.list)
  {
    hide InKeyOrder, Sorted;
    var s, bound := r.reader.Order(), r.reader.list.upperBound;
    OrderedBounds(r.reader.list);
    ScaleSorted(s, r.query);
    OrderedZeros(r.reader.list.posting);
    ScaledBound(s, bound, r.query);
    assert AllZero(r.reader.list) <==> bound == 0.0 && forall k :: 0 <= k < |s| ==> s[k].weight == 0.0;
  }

  lemma OrderedZeros(m: map<DocId, real>)
    requires 0 !in m
    ensures var s := InKeyOrder(m);
            (forall k :: 0 <= k < |s| ==> s[k].weight == 0.0) <==> forall d :: d in m ==> m[d] == 0.0
  {
    hide InKeyOrder, Contents, WeightOf;
    var s := InKeyOrder(m);
    InKeyOrderContents(m);
    forall k | 0 <= k < |s| ensures s[k].doc in m && s[k].weight == m[s[k].doc] {
      SeekFinds(s, k);
      OrderedWeight(m, s[k].doc);
    }
    forall d | d in m ensures exists k :: 0 <= k < |s| && s[k].doc == d {
      assert d in Docs(s);
    }
  }

  lemma ScaleSorted(s: seq<Posting>, query: real)
    requires Sorted(s)
    ensures Sorted(Scale(s, query))
  {
  }

  function Zeros(n: nat): (r: seq<DocId>)
    ensures |r| == n && forall i :: 0 <= i < n ==> r[i] == 0
  {
    seq(n, i => 0)
  }

  function Counting(n: nat): (r: seq<nat>)
    ensures |r| == n && forall i :: 0 <= i < n ==> r[i] == i
  {
    seq(n, i requires 0 <= i < n => i)
  }

  ghost function CursorsOf(input: seq<DotProductReader>): (r: set<object>)
    ensures forall i :: 0 <= i < |input| ==> input[i].reader in r
  {
    set i | 0 <= i < |input| :: input[i].reader
  }

  ghost function SourcesOf(input: seq<DotProductReader>): (r: set<object>)
    ensures forall i :: 0 <= i < |input| ==> input[i].reader.list in r
  {
    set i | 0 <= i < |input| :: input[i].reader.list
  }

  ghost function ScoredLists(input: seq<DotProductReader>): (r: seq<seq<Posting>>)
    reads SourcesOf(input)
    ensures |r| == |input| && forall i :: 0 <= i < |input| ==> r[i] == input[i].Scored()
  {
    seq(|input|, i requires 0 <= i < |input| reads SourcesOf(input) => input[i].Scored())
  }

  function UpperBoundsOf(input: seq<DotProductReader>): (r: seq<real>)
    reads SourcesOf(input)
    ensures |r| == |input| && forall i :: 0 <= i < |input| ==> r[i] == input[i].UpperBound()
  {
    seq(|input|, i requires 0 <= i < |input| reads SourcesOf(input) => input[i].UpperBound())
  }

  lemma InputsOf(input: seq<DotProductReader>)
    requires forall i :: 0 <= i < |input| ==> input[i].Valid() && Bounds(input[i].UpperBound(), input[i].Scored())
    ensures Inputs(ScoredLists(input), UpperBoundsOf(input))
  {
    forall i | 0 <= i < |input|
      ensures Sorted(ScoredLists(input)[i]) && Bounds(UpperBoundsOf(input)[i], ScoredLists(input)[i])
    {
      InKeyOrderContents(input[i].reader.list.posting);
    }
  }
}
