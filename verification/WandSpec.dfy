/**
 * The values a WandReader works on, and what advancing one of its readers does to them.
 * Everything here is independent of the heap; module Wand ties it to the mutable reader.
 */
module WandSpec {
  import opened Sums
  import opened Postings

  /**
   * lists:   the scored postings behind every reader
   * bounds:  the cached upper bound of every reader
   * iters:   how many postings every reader has left behind
   * cursors: the id every reader was last seen at; 0 before its first step
   * sorted:  the readers that are not exhausted, in cursor order
   * acc:     running sums of the bounds along `sorted`
   */
  datatype State = State(
    lists: seq<seq<Posting>>, bounds: seq<real>, iters: seq<nat>, cursors: seq<DocId>, sorted: seq<nat>, acc: seq<real>)

  /** The weights of one document, reader by reader; 0 where it is absent. */
  function Weights(lists: seq<seq<Posting>>, d: DocId): (w: seq<real>)
    ensures |w| == |lists|
  {
    seq(|lists|, i requires 0 <= i < |lists| => WeightOf(lists[i], d))
  }

  /** The reference meaning of a query: the sum of every posting of the document. */
  function Score(lists: seq<seq<Posting>>, d: DocId): real {
    Sum(Weights(lists, d))
  }

  ghost predicate Occurs(lists: seq<seq<Posting>>, d: DocId) {
    exists i :: 0 <= i < |lists| && d in Docs(lists[i])
  }

  ghost predicate Inputs(lists: seq<seq<Posting>>, bounds: seq<real>) {
    && |lists| == |bounds|
    && (forall i :: 0 <= i < |lists| ==> Sorted(lists[i]) && Bounds(bounds[i], lists[i]))
  }

  ghost predicate Placed(list: seq<Posting>, iter: nat, cursor: DocId, active: bool) {
    && iter <= |list|
    && if active then (cursor == 0 && iter == 0) || (iter < |list| && cursor == list[iter].doc)
       else iter == |list|
  }

  ghost predicate InOrder(cursors: seq<DocId>, s: seq<nat>)
    requires Within(|cursors|, s)
  {
    forall a, b :: 0 <= a < b < |s| ==> cursors[s[a]] <= cursors[s[b]]
  }

  /** Running sums of the bounds along `s`. */
  function Prefixes(bounds: seq<real>, s: seq<nat>): (acc: seq<real>)
    requires Within(|bounds|, s)
    ensures |acc| == |s|
    ensures forall k :: 0 <= k < |s| ==> acc[k] == Partial(bounds, s, k + 1)
  {
    seq(|s|, k requires 0 <= k < |s| => Partial(bounds, s, k + 1))
  }

  /** The structural invariant of the reader. */
  ghost predicate Structure(st: State)
    ensures Structure(st) ==>
              && |st.acc| == |st.sorted|
              && |st.iters| == |st.cursors| == |st.lists| == |st.bounds|
              && Within(|st.lists|, st.sorted)
  {
    && Inputs(st.lists, st.bounds)
    && |st.iters| == |st.cursors| == |st.lists|
    && Indexes(|st.lists|, st.sorted)
    && (forall i :: 0 <= i < |st.lists| ==> Placed(st.lists[i], st.iters[i], st.cursors[i], i in st.sorted))
    && InOrder(st.cursors, st.sorted)
    && st.acc == Prefixes(st.bounds, st.sorted)
  }

  lemma StructureParts(st: State)
    requires Structure(st)
    ensures |st.iters| == |st.cursors| == |st.lists| == |st.bounds|
    ensures Indexes(|st.bounds|, st.sorted) && Within(|st.bounds|, st.sorted)
    ensures st.acc == Prefixes(st.bounds, st.sorted)
  {
  }

  /** No reader has left behind a document above `h`. */
  ghost predicate PassedAtMost(st: State, h: int)
    requires Structure(st)
  {
    forall i, k :: 0 <= i < |st.lists| && 0 <= k < st.iters[i] ==> st.lists[i][k].doc <= h
  }

  /** Readers at or below `h` cannot reach the threshold together. */
  ghost predicate Behind(st: State, threshold: real, h: int)
    requires Structure(st)
  {
    forall k :: 0 <= k < |st.sorted| && st.acc[k] > threshold ==> st.cursors[st.sorted[k]] > h
  }

  /** Every remaining reader stands beyond everything that was left behind. */
  ghost predicate Settled(st: State)
    requires Structure(st)
  {
    forall j, i, k :: 0 <= j < |st.sorted| && 0 <= i < |st.lists| && 0 <= k < st.iters[i]
      ==> st.lists[i][k].doc < st.cursors[st.sorted[j]]
  }

  /** Nothing beyond `current` was lost: either nothing above it was passed, or the reader is settled. */
  ghost predicate Steady(st: State, current: DocId)
    requires Structure(st)
  {
    PassedAtMost(st, current) || Settled(st)
  }

  /** The first reader stands on `p`, and so does every reader whose list holds `p`. */
  ghost predicate Located(st: State, p: DocId)
    ensures Located(st, p) ==> p > 0 && Structure(st)
  {
    && Structure(st)
    && p > 0
    && |st.sorted| > 0 && st.cursors[st.sorted[0]] == p
    && (forall i :: 0 <= i < |st.lists| && p in Docs(st.lists[i]) ==> i in st.sorted && st.cursors[i] == p)
  }

  ghost predicate AllBelow(cursors: seq<DocId>, s: seq<nat>, from: nat, to: nat, c: DocId)
    requires Within(|cursors|, s) && to <= |s|
  {
    forall k {:trigger s[k]} :: from <= k < to ==> cursors[s[k]] < c
  }

  /** `j` is the first position at or after `from` whose cursor is not below `c`. */
  ghost predicate IsSlot(cursors: seq<DocId>, s: seq<nat>, from: nat, c: DocId, j: nat)
    requires Within(|cursors|, s)
  {
    && from <= j <= |s|
    && AllBelow(cursors, s, from, j, c)
    && (j < |s| ==> cursors[s[j]] >= c)
  }

  function Slot(cursors: seq<DocId>, s: seq<nat>, from: nat, c: DocId): (j: nat)
    requires Within(|cursors|, s) && from <= |s|
    ensures IsSlot(cursors, s, from, c, j)
    decreases |s| - from
  {
    if from < |s| && cursors[s[from]] < c then Slot(cursors, s, from + 1, c) else from
  }

  lemma SlotUnique(cursors: seq<DocId>, s: seq<nat>, from: nat, c: DocId, i: nat, j: nat)
    requires Within(|cursors|, s) && IsSlot(cursors, s, from, c, i) && IsSlot(cursors, s, from, c, j)
    ensures i == j
  {
  }

  /** Move the entry at `from` behind the entries up to, and not including, `to`. */
  function Rotate(s: seq<nat>, from: nat, to: nat): (r: seq<nat>)
    requires from < to <= |s|
    ensures |r| == |s|
    ensures forall k {:trigger r[k]} :: 0 <= k < from ==> r[k] == s[k]
    ensures forall k {:trigger r[k]} :: from <= k < to - 1 ==> r[k] == s[k + 1]
    ensures r[to - 1] == s[from]
    ensures forall k {:trigger r[k]} :: to <= k < |s| ==> r[k] == s[k]
  {
    s[..from] + s[from + 1..to] + [s[from]] + s[to..]
  }

  function Without(s: seq<nat>, at: nat): (r: seq<nat>)
    requires at < |s|
    ensures |r| == |s| - 1
    ensures forall k {:trigger r[k]} :: 0 <= k < at ==> r[k] == s[k]
    ensures forall k {:trigger r[k]} :: at <= k < |r| ==> r[k] == s[k + 1]
  {
    s[..at] + s[at + 1..]
  }

  /** The index list after the reader at place `pick` took its new cursor; 0 means it ran out. */
  function Reordered(cursors: seq<DocId>, s: seq<nat>, pick: nat): seq<nat>
    requires Within(|cursors|, s) && pick < |s|
  {
    var c := cursors[s[pick]];
    if c != 0 then Rotate(s, pick, Slot(cursors, s, pick + 1, c)) else Without(s, pick)
  }

  /** The state after the first reader was told to read beyond `target`. */
  ghost function Advance(st: State, target: DocId): (r: State)
    requires Structure(st) && |st.sorted| > 0
  {
    var x := st.sorted[0];
    var list := st.lists[x];
    var at := Seek(list, st.iters[x], target);
    var c := if at < |list| then list[at].doc else 0;
    var cursors := st.cursors[x := c];
    var sorted := Reordered(cursors, st.sorted, 0);
    State(st.lists, st.bounds, st.iters[x := at], cursors, sorted,
          if Indexes(|st.bounds|, sorted) then Prefixes(st.bounds, sorted) else [])
  }

  // ----- Rearranging the index list ---------------------------------------------------------

  lemma RotateIndexes(n: nat, s: seq<nat>, from: nat, to: nat)
    requires Indexes(n, s) && from < to <= |s|
    ensures Indexes(n, Rotate(s, from, to))
    ensures forall i :: i in Rotate(s, from, to) <==> i in s
  {
  }

  lemma WithoutIndexes(n: nat, s: seq<nat>, at: nat)
    requires Indexes(n, s) && at < |s|
    ensures Indexes(n, Without(s, at))
    ensures forall i :: i in Without(s, at) <==> i in s && i != s[at]
  {
  }

  /** Dropping the entry at `at` lowers every later running sum by its bound. */
  lemma {:induction false} WithoutSums(bounds: seq<real>, s: seq<nat>, at: nat, k: nat)
    requires Within(|bounds|, s) && at < k <= |s|
    requires Within(|bounds|, Without(s, at))
    ensures Partial(bounds, Without(s, at), k - 1) == Partial(bounds, s, k) - bounds[s[at]]
  {
    if k == at + 1 {
      PartialAgrees(bounds, bounds, Without(s, at), s, at);
    } else {
      WithoutSums(bounds, s, at, k - 1);
    }
  }

  /** Beyond the landing place, a rotation does not change the running sums. */
  lemma {:induction false} RotateSums(bounds: seq<real>, s: seq<nat>, from: nat, to: nat, k: nat)
    requires Within(|bounds|, s) && from < to <= k <= |s|
    requires Within(|bounds|, Rotate(s, from, to))
    ensures Partial(bounds, Rotate(s, from, to), k) == Partial(bounds, s, k)
  {
    if k == to {
      var w := Without(s, from);
      WithoutSums(bounds, s, from, to);
      PartialAgrees(bounds, bounds, Rotate(s, from, to), w, to - 1);
    } else {
      RotateSums(bounds, s, from, to, k - 1);
    }
  }

  /** The running sums never decrease, so a binary search over them is meaningful. */
  lemma PrefixesMonotone(st: State, j: nat, k: nat)
    requires Structure(st) && j <= k < |st.acc|
    ensures st.acc[j] <= st.acc[k]
  {
    PartialGrows(st.bounds, st.sorted, j + 1, k + 1);
  }

  /** Before the first step all readers are active, in input order, at cursor 0. */
  lemma InitialStructure(st: State)
    requires Inputs(st.lists, st.bounds)
    requires |st.iters| == |st.cursors| == |st.sorted| == |st.lists|
    requires forall i :: 0 <= i < |st.lists| ==> st.iters[i] == 0 && st.cursors[i] == 0 && st.sorted[i] == i
    requires st.acc == Prefixes(st.bounds, st.sorted)
    ensures Structure(st) && PassedAtMost(st, -1)
  {
  }

  // ----- One advance --------------------------------------------------------------------------

  lemma AdvanceOrderPair(cursors: seq<DocId>, now: seq<DocId>, s: seq<nat>, to: nat, a: nat, b: nat)
    requires Within(|cursors|, s) && |now| == |cursors| && InOrder(cursors, s)
    requires 0 < to <= |s| && a < b < |s|
    requires forall k :: 0 < k < |s| ==> now[s[k]] == cursors[s[k]]
    requires forall k :: 0 < k < to ==> now[s[k]] < now[s[0]]
    requires to < |s| ==> now[s[to]] >= now[s[0]]
    ensures now[Rotate(s, 0, to)[a]] <= now[Rotate(s, 0, to)[b]]
  {
  }

  lemma AdvanceOrder(cursors: seq<DocId>, s: seq<nat>, c: DocId)
    requires Indexes(|cursors|, s) && |s| > 0 && InOrder(cursors, s)
    ensures var now := cursors[s[0] := c];
            var r := Rotate(s, 0, Slot(now, s, 1, c));
            Indexes(|now|, r) && InOrder(now, r)
  {
    var now := cursors[s[0] := c];
    var to := Slot(now, s, 1, c);
    RotateIndexes(|now|, s, 0, to);
    forall k | 0 < k < |s| ensures now[s[k]] == cursors[s[k]] { }
    forall a, b | 0 <= a < b < |s| ensures now[Rotate(s, 0, to)[a]] <= now[Rotate(s, 0, to)[b]] {
      AdvanceOrderPair(cursors, now, s, to, a, b);
    }
  }

  lemma WithoutOrder(cursors: seq<DocId>, s: seq<nat>, c: DocId)
    requires Indexes(|cursors|, s) && |s| > 0 && InOrder(cursors, s)
    ensures var r := Without(s, 0);
            Indexes(|cursors|, r) && InOrder(cursors[s[0] := c], r)
  {
  }

  /** Which readers stay active: all but the advanced one, and that one unless it ran out. */
  lemma AdvanceActive(st: State, target: DocId)
    requires Structure(st) && |st.sorted| > 0
    ensures var r := Advance(st, target);
            && Indexes(|st.lists|, r.sorted)
            && InOrder(r.cursors, r.sorted)
            && (forall i :: i in r.sorted <==> i in st.sorted && (i != st.sorted[0] || r.cursors[i] != 0))
  {
    var x := st.sorted[0];
    var r := Advance(st, target);
    if r.cursors[x] != 0 {
      AdvanceOrder(st.cursors, st.sorted, r.cursors[x]);
      RotateIndexes(|st.lists|, st.sorted, 0, Slot(r.cursors, st.sorted, 1, r.cursors[x]));
    } else {
      WithoutOrder(st.cursors, st.sorted, 0);
      WithoutIndexes(|st.lists|, st.sorted, 0);
    }
    assert x in st.sorted;
  }

  lemma AdvancePlaced(st: State, target: DocId, i: nat)
    requires Structure(st) && |st.sorted| > 0 && i < |st.lists|
    ensures var r := Advance(st, target);
            Placed(r.lists[i], r.iters[i], r.cursors[i], i in r.sorted)
  {
    AdvanceActive(st, target);
    assert Placed(st.lists[i], st.iters[i], st.cursors[i], i in st.sorted);
    assert Sorted(st.lists[i]);
    assert st.sorted[0] in st.sorted;
  }

  lemma AdvanceStructure(st: State, target: DocId)
    requires Structure(st) && |st.sorted| > 0
    ensures Structure(Advance(st, target))
  {
    AdvanceActive(st, target);
    var r := Advance(st, target);
    forall i | 0 <= i < |r.lists| ensures Placed(r.lists[i], r.iters[i], r.cursors[i], i in r.sorted) {
      AdvancePlaced(st, target, i);
    }
  }

  lemma AdvanceShrinks(st: State, target: DocId)
    requires Structure(st) && |st.sorted| > 0
    ensures |st.sorted| - 1 <= |Advance(st, target).sorted| <= |st.sorted|
  {
  }

  lemma AdvancePassed(st: State, target: DocId, h: int)
    requires Structure(st) && |st.sorted| > 0
    requires PassedAtMost(st, h) && target <= h
    ensures Structure(Advance(st, target)) && PassedAtMost(Advance(st, target), h)
  {
    AdvanceStructure(st, target);
  }

  lemma CursorGrows(st: State, target: DocId)
    requires Structure(st) && |st.sorted| > 0
    ensures var x := st.sorted[0];
            var c := Advance(st, target).cursors[x];
            c == 0 || (c >= st.cursors[x] && c > target)
  {
  }

  /** A reader that moved up ahead of the advanced one had a larger running sum before. */
  lemma ShiftedSum(st: State, r: seq<nat>, k: nat)
    requires Structure(st) && k + 1 < |st.sorted|
    requires Within(|st.bounds|, r) && k < |r|
    requires forall j :: 0 <= j <= k ==> r[j] == st.sorted[j + 1]
    ensures Partial(st.bounds, r, k + 1) <= st.acc[k + 1]
  {
    WithoutSums(st.bounds, st.sorted, 0, k + 2);
    PartialAgrees(st.bounds, st.bounds, r, Without(st.sorted, 0), k + 1);
    assert st.bounds[st.sorted[0]] >= 0.0;
  }

  /** The advanced reader, now at `c`, landed just before place `to`. */
  lemma BehindRotated(st: State, c: DocId, to: nat, threshold: real, h: int, k: nat)
    requires Structure(st) && Behind(st, threshold, h)
    requires 0 < to <= |st.sorted| && k < |st.sorted|
    requires c >= st.cursors[st.sorted[0]]
    requires forall j :: 0 < j < to ==> st.cursors[st.sorted[j]] < c
    requires Within(|st.bounds|, Rotate(st.sorted, 0, to))
    requires Partial(st.bounds, Rotate(st.sorted, 0, to), k + 1) > threshold
    ensures (if k == to - 1 then c else st.cursors[Rotate(st.sorted, 0, to)[k]]) > h
  {
    hide Partial, Prefixes, Slot, Placed;
    var s := st.sorted;
    if k < to - 1 {
      ShiftedSum(st, Rotate(s, 0, to), k);
    } else {
      RotateSums(st.bounds, s, 0, to, k + 1);
      assert st.cursors[s[k]] > h;
    }
  }

  lemma AdvanceBehindAt(st: State, target: DocId, threshold: real, h: int, k: nat)
    requires Structure(st) && |st.sorted| > 0 && Behind(st, threshold, h)
    requires var r := Advance(st, target);
             Structure(r) && k < |r.sorted| && r.acc[k] > threshold
    ensures var r := Advance(st, target);
            r.cursors[r.sorted[k]] > h
  {
    hide Partial, Prefixes, Slot, Seek, Placed, Inputs;
    CursorGrows(st, target);
    var x, r := st.sorted[0], Advance(st, target);
    var c := r.cursors[x];
    assert forall j :: 0 < j < |st.sorted| ==> r.cursors[st.sorted[j]] == st.cursors[st.sorted[j]];
    if c == 0 {
      ShiftedSum(st, r.sorted, k);
    } else {
      BehindRotated(st, c, Slot(r.cursors, st.sorted, 1, c), threshold, h, k);
    }
  }

  lemma AdvanceBehind(st: State, target: DocId, threshold: real, h: int)
    requires Structure(st) && |st.sorted| > 0 && Behind(st, threshold, h)
    ensures Structure(Advance(st, target)) && Behind(Advance(st, target), threshold, h)
  {
    AdvanceStructure(st, target);
    var r := Advance(st, target);
    forall k | 0 <= k < |r.sorted| && r.acc[k] > threshold ensures r.cursors[r.sorted[k]] > h {
      AdvanceBehindAt(st, target, threshold, h, k);
    }
  }

  // ----- Termination --------------------------------------------------------------------------

  /** One for an active reader, plus the postings beyond its cursor. */
  function Left(list: seq<Posting>, iter: nat, cursor: DocId, active: bool): nat {
    if !active then 0
    else if cursor == 0 then 1 + |list|
    else if iter < |list| then |list| - iter
    else 0
  }

  ghost function Pending(st: State): (r: seq<nat>)
    requires Structure(st)
  {
    seq(|st.lists|, i requires 0 <= i < |st.lists| => Left(st.lists[i], st.iters[i], st.cursors[i], i in st.sorted))
  }

  ghost function Measure(st: State): nat
    requires Structure(st)
  {
    Count(Pending(st))
  }

  lemma AdvanceLeft(st: State, target: DocId)
    requires Structure(st) && |st.sorted| > 0
    ensures var r, x := Advance(st, target), st.sorted[0];
            var was := Left(st.lists[x], st.iters[x], st.cursors[x], true);
            var now := Left(r.lists[x], r.iters[x], r.cursors[x], r.cursors[x] != 0);
            now <= was && (st.cursors[x] <= target ==> now < was)
  {
  }

  lemma AdvanceMeasure(st: State, target: DocId)
    requires Structure(st) && |st.sorted| > 0
    ensures Structure(Advance(st, target))
    ensures Measure(Advance(st, target)) <= Measure(st)
    ensures st.cursors[st.sorted[0]] <= target ==> Measure(Advance(st, target)) < Measure(st)
  {
    AdvanceStructure(st, target);
    AdvanceActive(st, target);
    AdvanceLeft(st, target);
    var x := st.sorted[0];
    assert x in st.sorted;
    var was, now := Pending(st), Pending(Advance(st, target));
    assert now == was[x := now[x]];
    CountUpdate(was, x, now[x]);
  }

  // ----- What a skipped document can score ------------------------------------------------------

  /** A document nobody has passed lies ahead of every reader whose list holds it. */
  lemma AheadOf(st: State, h: int, d: DocId, i: nat)
    requires Structure(st) && PassedAtMost(st, h) && d > h
    requires i < |st.lists| && d in Docs(st.lists[i])
    ensures i in st.sorted && st.cursors[i] <= d
  {
  }

  lemma WeightBound(s: seq<Posting>, bound: real, d: DocId)
    requires Bounds(bound, s)
    ensures WeightOf(s, d) <= bound
  {
  }

  /** The bounds of the readers that hold a document; 0 for the others. */
  ghost function Caps(lists: seq<seq<Posting>>, bounds: seq<real>, d: DocId): (r: seq<real>)
    requires |lists| == |bounds|
    ensures |r| == |lists| && forall i :: 0 <= i < |r| ==> r[i] == if d in Docs(lists[i]) then bounds[i] else 0.0
  {
    seq(|lists|, i requires 0 <= i < |lists| => if d in Docs(lists[i]) then bounds[i] else 0.0)
  }

  /** What a document could score at most, judged by the bounds of the lists that hold it. */
  ghost function Reach(lists: seq<seq<Posting>>, bounds: seq<real>, d: DocId): real
    requires |lists| == |bounds|
  {
    Sum(Caps(lists, bounds, d))
  }

  /** If only the first `m` readers can hold `d`, it reaches at most the sum of their bounds. */
  lemma ReachBound(st: State, d: DocId, m: nat)
    requires Structure(st) && m <= |st.sorted|
    requires forall i :: 0 <= i < |st.lists| && d in Docs(st.lists[i]) ==> i in st.sorted[..m]
    ensures Reach(st.lists, st.bounds, d) <= Partial(st.bounds, st.sorted, m)
  {
    var c := Caps(st.lists, st.bounds, d);
    PartialAll(c, st.sorted, m);
    PartialBelow(c, st.bounds, st.sorted, m);
  }

  lemma ScoreWithinReach(lists: seq<seq<Posting>>, bounds: seq<real>, d: DocId)
    requires Inputs(lists, bounds)
    ensures Score(lists, d) <= Reach(lists, bounds, d)
  {
    var w, c := Weights(lists, d), Caps(lists, bounds, d);
    forall i | 0 <= i < |w| ensures w[i] <= c[i] {
      WeightBound(lists[i], bounds[i], d);
      if d !in Docs(lists[i]) { NoWeight(lists[i], d); }
    }
    SumBelow(w, c);
  }

  lemma NoWeight(s: seq<Posting>, d: DocId)
    requires d !in Docs(s)
    ensures WeightOf(s, d) == 0.0
  {
  }

  /** `pivot` is the first place whose running sum beats the threshold. */
  ghost predicate IsPivot(st: State, threshold: real, pivot: nat)
    requires Structure(st)
  {
    && pivot <= |st.sorted|
    && (forall k :: 0 <= k < pivot ==> st.acc[k] <= threshold)
    && (forall k :: pivot <= k < |st.sorted| ==> st.acc[k] > threshold)
  }

  /** `p` is the document of the pivot. */
  ghost predicate Chosen(st: State, threshold: real, p: DocId)
    requires Structure(st)
  {
    exists k: nat :: k < |st.sorted| && IsPivot(st, threshold, k) && st.cursors[st.sorted[k]] == p
  }

  lemma AheadOfPivot(st: State, h: int, pivot: nat, d: DocId, i: nat)
    requires Structure(st) && PassedAtMost(st, h)
    requires pivot <= |st.sorted| && h < d && i < |st.lists| && d in Docs(st.lists[i])
    requires pivot < |st.sorted| ==> d < st.cursors[st.sorted[pivot]]
    ensures i in st.sorted[..pivot]
  {
    AheadOf(st, h, d, i);
    var k :| 0 <= k < |st.sorted| && st.sorted[k] == i;
    assert !(k >= pivot);
    assert st.sorted[..pivot][k] == i;
  }

  /** Documents between what was passed and the pivot cannot beat the threshold. */
  lemma SkippedBelowPivot(st: State, threshold: real, h: int, pivot: nat, d: DocId)
    requires Structure(st) && PassedAtMost(st, h)
    requires pivot <= |st.sorted|
    requires pivot > 0 ==> st.acc[pivot - 1] <= threshold
    requires h < d && Occurs(st.lists, d)
    requires pivot < |st.sorted| ==> d < st.cursors[st.sorted[pivot]]
    ensures Reach(st.lists, st.bounds, d) <= threshold
  {
    forall i | 0 <= i < |st.lists| && d in Docs(st.lists[i]) ensures i in st.sorted[..pivot] {
      AheadOfPivot(st, h, pivot, d, i);
    }
    hide Structure, PassedAtMost;
    var i :| 0 <= i < |st.lists| && d in Docs(st.lists[i]);
    assert i in st.sorted[..pivot];
    ReachBound(st, d, pivot);
  }

  lemma StandsOn(st: State, pivot: nat, p: DocId, j: nat)
    requires Located(st, p) && j <= pivot < |st.sorted| && st.cursors[st.sorted[pivot]] == p
    ensures p in Docs(st.lists[st.sorted[j]])
  {
    var x := st.sorted[j];
    assert x in st.sorted;
    assert Placed(st.lists[x], st.iters[x], st.cursors[x], true);
    if 0 < j { assert st.cursors[st.sorted[0]] <= st.cursors[x]; }
    if j < pivot { assert st.cursors[x] <= st.cursors[st.sorted[pivot]]; }
    SeekFinds(st.lists[x], st.iters[x]);
  }

  lemma FrontReaches(bounds: seq<real>, c: seq<real>, sorted: seq<nat>, m: nat)
    requires Indexes(|bounds|, sorted) && |c| == |bounds| && m <= |sorted|
    requires forall j :: 0 <= j < m ==> c[sorted[j]] == bounds[sorted[j]]
    requires forall i :: 0 <= i < |c| ==> c[i] >= 0.0 && (i in sorted || c[i] == 0.0)
    ensures Partial(bounds, sorted, m) <= Sum(c)
  {
    PartialAgrees(bounds, c, sorted, sorted, m);
    PartialGrows(c, sorted, m, |sorted|);
    assert sorted[..|sorted|] == sorted;
    PartialAll(c, sorted, |sorted|);
  }

  lemma LocatedCaps(st: State, p: DocId)
    requires Located(st, p)
    ensures var c := Caps(st.lists, st.bounds, p);
            forall i :: 0 <= i < |c| ==> c[i] >= 0.0 && (i in st.sorted || c[i] == 0.0)
  {
    hide Prefixes, InOrder, Placed, Indexes;
  }

  /** A chosen document that all its readers stand on reaches beyond the threshold. */
  lemma PivotReaches(st: State, threshold: real, pivot: nat, p: DocId)
    requires Located(st, p) && IsPivot(st, threshold, pivot) && pivot < |st.sorted|
    requires st.cursors[st.sorted[pivot]] == p
    ensures Reach(st.lists, st.bounds, p) > threshold
  {
    hide Structure, Located, Prefixes, Docs, Partial;
    StructureParts(st);
    LocatedCaps(st, p);
    var c := Caps(st.lists, st.bounds, p);
    forall j | 0 <= j <= pivot ensures c[st.sorted[j]] == st.bounds[st.sorted[j]] {
      StandsOn(st, pivot, p, j);
    }
    FrontReaches(st.bounds, c, st.sorted, pivot + 1);
    assert st.acc[pivot] == Partial(st.bounds, st.sorted, pivot + 1) > threshold;
  }

  /** When the first cursor is the pivot cursor, every list holding it stands on it. */
  lemma PivotLocated(st: State, h: int, p: DocId)
    requires Structure(st) && PassedAtMost(st, h)
    requires |st.sorted| > 0 && st.cursors[st.sorted[0]] == p && p > h && p > 0
    ensures Located(st, p) && Settled(st) && Occurs(st.lists, p)
  {
  }

  /** Summing over the readers that stand on `p` gives the full score of `p`. */
  lemma LocatedScore(st: State, p: DocId, m: nat)
    requires Located(st, p) && m <= |st.sorted|
    requires forall k :: 0 <= k < m ==> st.cursors[st.sorted[k]] == p
    requires m < |st.sorted| ==> st.cursors[st.sorted[m]] != p
    ensures Partial(Weights(st.lists, p), st.sorted, m) == Score(st.lists, p)
  {
    var w, ix := Weights(st.lists, p), st.sorted[..m];
    forall i | 0 <= i < |w| && i !in ix ensures w[i] == 0.0 {
      assert forall k :: 0 <= k < m ==> ix[k] == st.sorted[k];
      assert forall k :: m < k < |st.sorted| ==> st.cursors[st.sorted[m]] <= st.cursors[st.sorted[k]];
      assert m > 0 ==> m < |st.sorted| ==> st.cursors[st.sorted[0]] <= st.cursors[st.sorted[m]];
      assert p !in Docs(st.lists[i]);
    }
    PartialAll(w, st.sorted, m);
  }

  /** The largest id any reader has left behind, or -1. */
  lemma Floor(st: State) returns (h: int)
    requires Structure(st)
    ensures h >= -1 && PassedAtMost(st, h)
    ensures h == -1 || exists i, k :: 0 <= i < |st.lists| && 0 <= k < st.iters[i] && st.lists[i][k].doc == h
  {
    h := -1;
    for n := 0 to |st.lists|
      invariant h >= -1
      invariant forall i, k :: 0 <= i < n && 0 <= k < st.iters[i] ==> st.lists[i][k].doc <= h
      invariant h == -1 || exists i, k :: 0 <= i < |st.lists| && 0 <= k < st.iters[i] && st.lists[i][k].doc == h
    {
      assert Placed(st.lists[n], st.iters[n], st.cursors[n], n in st.sorted) && Sorted(st.lists[n]);
      var m := st.iters[n];
      if m > 0 {
        assert forall k :: 0 <= k < m ==> st.lists[n][k].doc <= st.lists[n][m - 1].doc;
        if st.lists[n][m - 1].doc > h { h := st.lists[n][m - 1].doc; }
      }
    }
  }

  /** Where a steady reader starts: every active cursor, or the requested id, is at or beyond the floor. */
  lemma SteadyFloor(st: State, current: DocId, floor: int)
    requires Structure(st) && Steady(st, current)
    requires floor == -1 || exists i, k :: 0 <= i < |st.lists| && 0 <= k < st.iters[i] && st.lists[i][k].doc == floor
    ensures floor <= current || Behind(st, -1.0, floor)
  {
  }

  /** Raising the horizon to just below the pivot's cursor keeps the lagging readers harmless. */
  lemma PivotHorizon(st: State, threshold: real, pivot: nat)
    requires Structure(st) && IsPivot(st, threshold, pivot) && pivot < |st.sorted|
    ensures Behind(st, threshold, st.cursors[st.sorted[pivot]] as int - 1)
  {
  }

  /** The documents of the range were offered no chance they needed: none reaches beyond the threshold. */
  ghost predicate Skipped(lists: seq<seq<Posting>>, bounds: seq<real>, threshold: real, low: int, high: int)
    requires |lists| == |bounds|
  {
    forall d: DocId :: low < d < high && Occurs(lists, d) ==> Reach(lists, bounds, d) <= threshold
  }

  lemma SkipToPivot(st: State, threshold: real, low: int, h: int, pivot: nat)
    requires Structure(st) && IsPivot(st, threshold, pivot) && pivot < |st.sorted|
    requires PassedAtMost(st, h) && low <= h && Skipped(st.lists, st.bounds, threshold, low, h + 1)
    ensures Skipped(st.lists, st.bounds, threshold, low, st.cursors[st.sorted[pivot]])
  {
    forall d: DocId | low < d < st.cursors[st.sorted[pivot]] && Occurs(st.lists, d)
      ensures Reach(st.lists, st.bounds, d) <= threshold
    {
      if d > h { SkippedBelowPivot(st, threshold, h, pivot, d); }
    }
  }

  lemma SkipToEnd(st: State, threshold: real, low: int, h: int, high: int)
    requires Structure(st) && IsPivot(st, threshold, |st.sorted|)
    requires PassedAtMost(st, h) && low <= h && Skipped(st.lists, st.bounds, threshold, low, h + 1)
    ensures Skipped(st.lists, st.bounds, threshold, low, high)
  {
    forall d: DocId | low < d < high && Occurs(st.lists, d) ensures Reach(st.lists, st.bounds, d) <= threshold {
      if d > h { SkippedBelowPivot(st, threshold, h, |st.sorted|, d); }
    }
  }

  /** Nothing worth returning was missed before `p`, or at all when `p` is 0. */
  ghost predicate NothingMissed(st: State, threshold: real, current: DocId, p: DocId)
    requires Structure(st)
  {
    forall d: DocId :: d > current && (p == 0 || d < p) && Occurs(st.lists, d) && PassedAtMost(st, d - 1)
      ==> Reach(st.lists, st.bounds, d) <= threshold
  }

  lemma SkippedFresh(st: State, threshold: real, current: DocId, floor: int, p: DocId)
    requires Structure(st)
    requires floor == -1 || exists i, k :: 0 <= i < |st.lists| && 0 <= k < st.iters[i] && st.lists[i][k].doc == floor
    requires var low := if floor < current then current else floor;
             if p == 0 then forall high: int :: Skipped(st.lists, st.bounds, threshold, low, high)
             else Skipped(st.lists, st.bounds, threshold, low, p)
    ensures NothingMissed(st, threshold, current, p)
  {
    var low := if floor < current then current else floor;
    forall d: DocId | d > current && (p == 0 || d < p) && Occurs(st.lists, d) && PassedAtMost(st, d - 1)
      ensures Reach(st.lists, st.bounds, d) <= threshold
    {
      assert Skipped(st.lists, st.bounds, threshold, low, if p == 0 then d + 1 else p);
    }
  }

  lemma FirstCursor(st: State)
    requires Structure(st) && |st.sorted| > 0
    ensures st.acc[0] >= 0.0
    ensures st.cursors[st.sorted[0]] > 0 ==> Occurs(st.lists, st.cursors[st.sorted[0]])
  {
    var x := st.sorted[0];
    assert x in st.sorted;
    assert Placed(st.lists[x], st.iters[x], st.cursors[x], true);
    assert st.acc[0] == Partial(st.bounds, st.sorted, 1) == 0.0 + st.bounds[x];
    if st.cursors[x] > 0 { SeekFinds(st.lists[x], st.iters[x]); }
  }

  lemma StartHere(st: State, threshold: real, low: int, floor: int)
    requires Structure(st) && PassedAtMost(st, floor) && floor <= low
    ensures PassedAtMost(st, low) && Behind(st, threshold, -1) && Behind(st, -1.0, -1)
    ensures Skipped(st.lists, st.bounds, threshold, low, low + 1)
  {
  }

  lemma WidenPassed(st: State, h: int, h': int)
    requires Structure(st) && PassedAtMost(st, h) && h <= h'
    ensures PassedAtMost(st, h')
  {
  }

  /** The pivot's cursor lies beyond the horizon and the guard, and no cursor is below the first. */
  lemma PivotBeyond(st: State, threshold: real, pivot: nat, horizon: int, guard: int)
    requires Structure(st) && IsPivot(st, threshold, pivot) && pivot < |st.sorted|
    requires Behind(st, threshold, horizon) && Behind(st, -1.0, guard)
    ensures st.cursors[st.sorted[pivot]] > horizon && st.cursors[st.sorted[pivot]] > guard
    ensures st.cursors[st.sorted[0]] <= st.cursors[st.sorted[pivot]]
  {
    FirstCursor(st);
    PrefixesMonotone(st, 0, pivot);
    if pivot > 0 { assert st.cursors[st.sorted[0]] <= st.cursors[st.sorted[pivot]]; }
  }

  /** A reader that stands on `p` is about to deliver the weight its list stores for `p`. */
  lemma StandingWeight(st: State, x: nat, p: DocId)
    requires Structure(st) && x in st.sorted && x < |st.lists| && st.cursors[x] == p && p > 0
    ensures st.iters[x] < |st.lists[x]| && st.lists[x][st.iters[x]].weight == Weights(st.lists, p)[x]
  {
  }

  // ----- What the code's own remarks miss ---------------------------------------------------------------

  /** Advancing a reader that stands beyond the target already does nothing, and only then. */
  lemma AdvanceIdle(st: State, target: DocId)
    requires Structure(st) && |st.sorted| > 0
    ensures Advance(st, target) == st <==> st.cursors[st.sorted[0]] > target
  {
    var x, r := st.sorted[0], Advance(st, target);
    if st.cursors[x] > target {
      assert Seek(st.lists[x], st.iters[x], target) == st.iters[x];
      assert r.cursors == st.cursors && r.iters == st.iters;
      SlotUnique(st.cursors, st.sorted, 1, st.cursors[x], Slot(st.cursors, st.sorted, 1, st.cursors[x]), 1);
      assert r.sorted == st.sorted;
    } else {
      assert r.cursors[x] > target || r.cursors[x] == 0;
    }
  }

  /** Two readers at documents 3 and 5; together, and the second one alone, they beat a threshold of 1.5. */
  function Overtaking(): State {
    State([[Posting(3, 1.0), Posting(9, 1.0)], [Posting(5, 2.0)]], [1.0, 2.0], [0, 0], [3, 5], [0, 1], [1.0, 3.0])
  }

  lemma OvertakingValid()
    ensures Structure(Overtaking()) && IsPivot(Overtaking(), 1.5, 1)
  {
    hide Prefixes, Partial;
    var st := Overtaking();
    TwoSums([1.0, 2.0], 0, 1);
    OvertakingInputs();
    assert 0 in st.sorted && 1 in st.sorted;
    assert Placed(st.lists[0], 0, 3, true) && Placed(st.lists[1], 0, 5, true);
    assert Indexes(2, [0, 1]);
  }

  lemma OvertakingInputs()
    ensures Inputs(Overtaking().lists, [1.0, 2.0])
  {
    var lists := Overtaking().lists;
    assert Sorted(lists[0]) && Bounds(1.0, lists[0]);
    assert Sorted(lists[1]) && Bounds(2.0, lists[1]);
  }

  /** Two readers over the same lists as a WandReader is built. */
  function Untouched(): State {
    Overtaking().(cursors := [0, 0])
  }

  /** After the first of the readers moved, it stands behind the other. */
  function HalfWay(): State {
    State(Overtaking().lists, [1.0, 2.0], [0, 0], [3, 0], [1, 0], [2.0, 3.0])
  }

  lemma UntouchedValid()
    ensures Structure(Untouched())
  {
    hide Prefixes, Partial;
    var st := Untouched();
    OvertakingInputs();
    TwoSums([1.0, 2.0], 0, 1);
    assert Placed(st.lists[0], 0, 0, true) && Placed(st.lists[1], 0, 0, true);
    assert Indexes(2, [0, 1]) && 0 in st.sorted && 1 in st.sorted;
  }

  lemma UntouchedAdvances()
    requires Structure(Untouched())
    ensures Advance(Untouched(), 0) == HalfWay()
  {
    hide Structure, Prefixes, Rotate, Slot;
    var st, cursors := Untouched(), [3, 0];
    assert st.cursors[0 := 3] == cursors && st.iters[0 := 0] == [0, 0];
    SlotUnique(cursors, [0, 1], 1, 3, Slot(cursors, [0, 1], 1, 3), 2);
    assert Rotate([0, 1], 0, 2) == [1, 0];
    TwoSums([1.0, 2.0], 1, 0);
  }

  lemma HalfWayAdvances()
    requires Structure(HalfWay())
    ensures Advance(HalfWay(), 0) == Overtaking()
  {
    hide Structure, Prefixes, Rotate, Slot;
    var st, cursors := HalfWay(), [3, 5];
    assert st.cursors[1 := 5] == cursors && st.iters[1 := 0] == [0, 0];
    SlotUnique(cursors, [1, 0], 1, 5, Slot(cursors, [1, 0], 1, 5), 2);
    assert Rotate([1, 0], 0, 2) == [0, 1];
    TwoSums([1.0, 2.0], 0, 1);
  }

  /** next(0) with threshold 0 takes a new reader there: each of its two step_next advances the first reader once. */
  lemma OvertakingReached()
    ensures Structure(Untouched()) && IsPivot(Untouched(), 0.0, 0) && Advance(Untouched(), 0) == HalfWay()
    ensures Structure(HalfWay()) && IsPivot(HalfWay(), 0.0, 0) && Advance(HalfWay(), 0) == Overtaking()
    ensures Structure(Overtaking()) && IsPivot(Overtaking(), 0.0, 0)
  {
    hide Structure, Advance;
    UntouchedValid();
    UntouchedAdvances();
    AdvanceStructure(Untouched(), 0);
    HalfWayAdvances();
    AdvanceStructure(HalfWay(), 0);
  }

  /** A later pick of one step_next may stand beyond its target: the first pick overtakes the second reader. */
  lemma LaterPickBeyond()
    ensures Structure(Overtaking()) && IsPivot(Overtaking(), 1.5, 1)
    ensures Overtaking().cursors[Overtaking().sorted[0]] <= 4
    ensures var r := Advance(Overtaking(), 4);
            r.sorted == [1, 0] && r.acc == [2.0, 3.0] && r.acc[0] > 1.5 && r.cursors[r.sorted[0]] > 4
  {
    hide Structure, Prefixes, Rotate, Slot;
    OvertakingValid();
    var st, cursors := Overtaking(), [9, 5];
    assert Seek(st.lists[0], 0, 4) == 1;
    assert st.cursors[0 := 9] == cursors;
    SlotUnique(cursors, [0, 1], 1, 9, Slot(cursors, [0, 1], 1, 9), 2);
    assert Rotate([0, 1], 0, 2) == [1, 0];
    TwoSums([1.0, 2.0], 1, 0);
  }

  lemma TwoSums(bounds: seq<real>, i: nat, j: nat)
    requires i < |bounds| && j < |bounds|
    ensures Prefixes(bounds, [i, j]) == [bounds[i], bounds[i] + bounds[j]]
  {
    assert Partial(bounds, [i, j], 0) == 0.0;
    assert Partial(bounds, [i, j], 1) == bounds[i];
  }

  /**
   * Why the weights of several terms must not be negative: with weights -1 and 1 over the stored lists {1: 5} and
   * {2: 1} no running sum beats the first threshold, so nothing is delivered, though document 2 scores 1.
   */
  lemma NegativeWeightLoses()
    ensures var lists := [Scale([Posting(1, 5.0)], -1.0), Scale([Posting(2, 1.0)], 1.0)];
            var acc := Prefixes([5.0 * -1.0, 1.0 * 1.0], [0, 1]);
            && (forall k :: 0 <= k < |acc| ==> acc[k] <= 0.0)
            && Occurs(lists, 2) && Score(lists, 2) == 1.0
  {
    var a, b := Scale([Posting(1, 5.0)], -1.0), Scale([Posting(2, 1.0)], 1.0);
    TwoSums([5.0 * -1.0, 1.0 * 1.0], 0, 1);
    assert Sorted(a) && Sorted(b) && b[0] == Posting(2, 1.0);
    SeekFinds(b, 0);
    assert [a, b][1] == b;
    var w := Weights([a, b], 2);
    assert WeightOf(a, 2) == 0.0;
    assert w == [0.0, 1.0];
    assert w[..1] == [0.0] && w[..1][..0] == [];
    assert Sum([0.0]) == 0.0;
  }
}
