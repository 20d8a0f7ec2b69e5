/** DocumentIndexManager: turning a weighted query into a reader over the published lists, and searching with it. */
module Manager {
  import opened Wrappers
  import opened Sums
  import opened Postings
  import opened WandSpec
  import opened Wand
  import opened Heap
  import TopN
  import opened TopNSpec
  import opened Reading
  import opened BaseIndex
  import Spec = RowSpec
  import RowIndex

  /** The weight the row of a document gives a term, 0 when there is none. */
  function DocWeight(rows: Spec.Rows, d: DocId, t: TermId): real {
    if d in rows && t in rows[d] then rows[d][t] else 0.0
  }

  /** The dot product of a query with the row of a document. */
  function Dot(queries: seq<QueryTerm>, rows: Spec.Rows, d: DocId): real {
    if |queries| == 0 then 0.0
    else
      var q := queries[|queries| - 1];
      Dot(queries[..|queries| - 1], rows, d) + DocWeight(rows, d, q.term) * q.weight
  }

  /** A query of one term scores its weight times the row's, and queries add up. */
  lemma {:induction false} DotIs(a: seq<QueryTerm>, b: seq<QueryTerm>, q: QueryTerm, rows: Spec.Rows, d: DocId)
    ensures Dot([], rows, d) == 0.0
    ensures Dot([q], rows, d) == if d in rows && q.term in rows[d] then rows[d][q.term] * q.weight else 0.0
    ensures Dot(a + b, rows, d) == Dot(a, rows, d) + Dot(b, rows, d)
  {
    assert [q][..0] == [];
    if |b| == 0 {
      assert a + b == a;
    } else {
      var front := b[..|b| - 1];
      DotIs(a, front, q, rows, d);
      assert (a + b)[..|a + b| - 1] == a + front;
    }
  }

  /** The scored postings behind the readers of a query. */
  ghost function HitLists(queries: seq<QueryTerm>, live: Table): (r: seq<seq<Posting>>)
    ensures |r| == |Hits(queries, live)|
  {
    if |queries| == 0 then []
    else
      var q := queries[|queries| - 1];
      HitLists(queries[..|queries| - 1], live)
        + if q.term in live then [Scale(InKeyOrder(live[q.term]), q.weight)] else []
  }

  lemma {:induction false} HitListsAt(queries: seq<QueryTerm>, live: Table, k: nat)
    requires k < |Hits(queries, live)|
    ensures var hit := Hits(queries, live)[k];
            && hit.term in live && hit in queries
            && HitLists(queries, live)[k] == Scale(InKeyOrder(live[hit.term]), hit.weight)
  {
    var front := queries[..|queries| - 1];
    if k < |Hits(front, live)| { HitListsAt(front, live, k); }
  }

  lemma ScaleWeight(s: seq<Posting>, query: real, d: DocId)
    requires Sorted(s)
    ensures Sorted(Scale(s, query)) && Docs(Scale(s, query)) == Docs(s)
    ensures WeightOf(Scale(s, query), d) == WeightOf(s, d) * query
  {
  }

  lemma SumAppend(v: seq<real>, x: real)
    ensures Sum(v + [x]) == Sum(v) + x
  {
  }

  lemma ScoreAppend(lists: seq<seq<Posting>>, s: seq<Posting>, d: DocId)
    ensures Score(lists + [s], d) == Score(lists, d) + WeightOf(s, d)
    ensures Occurs(lists + [s], d) <==> Occurs(lists, d) || d in Docs(s)
  {
    assert Weights(lists + [s], d) == Weights(lists, d) + [WeightOf(s, d)];
    SumAppend(Weights(lists, d), WeightOf(s, d));
    assert (lists + [s])[|lists|] == s;
    if Occurs(lists, d) {
      var i :| 0 <= i < |lists| && d in Docs(lists[i]);
      assert (lists + [s])[i] == lists[i];
    }
  }

  /** A stored map, read through its ordered and scaled list. */
  lemma HitWeight(m: map<DocId, real>, query: real, d: DocId)
    requires 0 !in m
    ensures WeightOf(Scale(InKeyOrder(m), query), d) == if d in m then m[d] * query else 0.0
    ensures d in Docs(Scale(InKeyOrder(m), query)) <==> d in m
  {
    hide InKeyOrder, Scale, WeightOf, Sorted, Docs, Contents;
    InKeyOrderContents(m);
    OrderedWeight(m, d);
    ScaleWeight(InKeyOrder(m), query, d);
  }

  /** What the readers of a query sum up for a document is the dot product with its row. */
  lemma {:induction false} ScoreIsDot(queries: seq<QueryTerm>, live: Table, rows: Spec.Rows, d: DocId)
    requires Spec.Inverts(live, rows) && d != 0
    ensures Score(HitLists(queries, live), d) == Dot(queries, rows, d)
    ensures !Occurs(HitLists(queries, live), d) ==> Dot(queries, rows, d) == 0.0
  {
    hide InKeyOrder, Scale, WeightOf, Score, Occurs, Docs, Spec.Inverts;
    if |queries| > 0 {
      var front, q := queries[..|queries| - 1], queries[|queries| - 1];
      ScoreIsDot(front, live, rows, d);
      InvertsAt(live, rows, q.term, d);
      if q.term in live {
        HitWeight(live[q.term], q.weight, d);
        ScoreAppend(HitLists(front, live), Scale(InKeyOrder(live[q.term]), q.weight), d);
      } else {
        assert HitLists(queries, live) == HitLists(front, live);
      }
    } else {
      ScoreOfNone(d);
    }
  }

  lemma ScoreOfNone(d: DocId)
    ensures Score([], d) == 0.0 && !Occurs([], d)
  {
  }

  lemma InvertsAt(live: Table, rows: Spec.Rows, t: TermId, d: DocId)
    requires Spec.Inverts(live, rows) && d != 0
    ensures Spec.Cell(live, t, d) == Spec.RowCell(rows, t, d)
    ensures t in live ==> 0 !in live[t]
  {
    assert Spec.Cell(live, t, 0) == None;
    assert Spec.Cell(live, t, d) == Spec.RowCell(rows, t, d);
  }

  predicate NonNegative(queries: seq<QueryTerm>) {
    forall k :: 0 <= k < |queries| ==> queries[k].weight >= 0.0
  }

  /** A found term whose scaled bound bounds its scaled list. */
  ghost predicate Trusted(hit: QueryTerm, index: Index)
    reads index, index.index.Values
  {
    hit.weight >= 0.0 || (hit.term in index.index && AllZero(index.index[hit.term]))
  }

  /** Queries a search can prune: all terms found have bounds to trust, or there is nothing to merge. */
  ghost predicate Sound(queries: seq<QueryTerm>, index: Index)
    reads index, index.index.Values
  {
    || |Hits(queries, index.live)| <= 1
    || forall k :: 0 <= k < |Hits(queries, index.live)| ==> Trusted(Hits(queries, index.live)[k], index)
  }

  lemma NonNegativeSound(queries: seq<QueryTerm>, index: Index)
    requires NonNegative(queries)
    ensures Sound(queries, index)
  {
    forall k | 0 <= k < |Hits(queries, index.live)| ensures Trusted(Hits(queries, index.live)[k], index) {
      HitListsAt(queries, index.live, k);
    }
  }

  /** The readers found by a batch query stand ready over the published lists of the hits. */
  ghost predicate Ready(readers: seq<(TermId, DotProductReader)>, lists: seq<seq<Posting>>, published: set<PostingList>)
    reads set r | r in readers :: r.1.reader, set r | r in readers :: r.1.reader.list
  {
    && |readers| == |lists|
    && (forall k :: 0 <= k < |readers| ==> ReadyReader(readers[k].1, lists[k], published))
    && (forall j, k :: 0 <= j < k < |readers| ==> readers[j].1.reader != readers[k].1.reader)
  }

  ghost predicate ReadyReader(r: DotProductReader, list: seq<Posting>, published: set<PostingList>)
    reads r.reader, r.reader.list
  {
    r.Valid() && r.reader.iter == 0 && r.Scored() == list && r.reader.list in published
  }

  method FindReaders(index: Index, queries: seq<QueryTerm>) returns (readers: seq<(TermId, DotProductReader)>)
    requires index.Valid()
    ensures Ready(readers, HitLists(queries, index.live), index.published)
    ensures forall k :: 0 <= k < |readers| ==>
              var hit := Hits(queries, index.live)[k];
              && readers[k].1.query == hit.weight && hit.term in index.index
              && readers[k].1.reader.list == index.index[hit.term]
    ensures forall k :: 0 <= k < |readers| ==> fresh(readers[k].1.reader)
  {
    hide HitLists, Hits, Index.PendingOk, Scale, InKeyOrder;
    readers := index.BatchQuery(queries);
    forall k | 0 <= k < |readers|
      ensures ReadyReader(readers[k].1, HitLists(queries, index.live)[k], index.published)
    {
      HitListsAt(queries, index.live, k);
    }
  }

  /** A reader that has delivered nothing yet, over the given lists, all of them published. */
  ghost predicate Prepared(reader: QueryReader, lists: seq<seq<Posting>>, published: set<PostingList>)
    reads reader.Moved(), reader.Sources()
  {
    && reader.Valid() && reader.Passed(0)
    && reader.Lists() == lists && reader.Limit() == 0.0
    && (forall o :: o in reader.Sources() ==> o in published)
    && (forall o :: o in reader.Moved() ==> !(o is PostingList))
  }

  function Simple(readers: seq<(TermId, DotProductReader)>): (r: seq<DotProductReader>)
    ensures |r| == |readers| && forall k :: 0 <= k < |r| ==> r[k] == readers[k].1
  {
    seq(|readers|, k requires 0 <= k < |readers| => readers[k].1)
  }

  method Merge(readers: seq<(TermId, DotProductReader)>, ghost lists: seq<seq<Posting>>,
               ghost published: set<PostingList>)
    returns (w: WandReader)
    requires Ready(readers, lists, published)
    requires forall k :: 0 <= k < |readers| ==> Bounds(readers[k].1.UpperBound(), lists[k])
    ensures fresh(w) && w.owned == CursorsOf(Simple(readers))
    ensures Prepared(Merged(w), lists, published)
  {
    hide Simple, Bounds, CursorsOf, SourcesOf, ScoredLists, Prepared, PassedAtMost, Structure, WandReader.Attached;
    var simple := Simple(readers);
    ReadySimple(readers, lists, published);
    w := new WandReader(simple);
    MergedPrepared(w, simple, lists, published);
  }

  lemma ReadySimple(readers: seq<(TermId, DotProductReader)>, lists: seq<seq<Posting>>, published: set<PostingList>)
    requires Ready(readers, lists, published)
    ensures var simple := Simple(readers);
            && ScoredLists(simple) == lists
            && (forall k :: 0 <= k < |simple| ==> simple[k].Valid() && simple[k].reader.iter == 0)
            && (forall k :: 0 <= k < |simple| ==> simple[k].Scored() == lists[k])
            && (forall k :: 0 <= k < |simple| ==> simple[k].reader.list in published)
  {
    assert forall k :: 0 <= k < |readers| ==> ReadyReader(readers[k].1, lists[k], published);
  }

  lemma MergedPrepared(w: WandReader, simple: seq<DotProductReader>, lists: seq<seq<Posting>>,
                       published: set<PostingList>)
    requires w.Valid() && w.lists == lists && w.threshold == 0.0 && PassedAtMost(w.View(), -1)
    requires w.owned == CursorsOf(simple) && w.shared == SourcesOf(simple)
    requires forall k :: 0 <= k < |simple| ==> simple[k].reader.list in published
    ensures Prepared(Merged(w), lists, published)
  {
    hide Structure, PassedAtMost, WandReader.Attached;
    NothingPassed(w.View());
  }

  lemma NothingPassed(st: WandSpec.State)
    requires Structure(st) && PassedAtMost(st, -1)
    ensures PassedAtMost(st, 0)
  {
  }

  lemma ReadersTrusted(index: Index, queries: seq<QueryTerm>, readers: seq<(TermId, DotProductReader)>)
    requires Sound(queries, index) && |readers| > 1 && Ready(readers, HitLists(queries, index.live), index.published)
    requires forall k :: 0 <= k < |readers| ==>
               var hit := Hits(queries, index.live)[k];
               && readers[k].1.query == hit.weight && hit.term in index.index
               && readers[k].1.reader.list == index.index[hit.term]
    ensures forall k :: 0 <= k < |readers| ==> Bounds(readers[k].1.UpperBound(), HitLists(queries, index.live)[k])
  {
    hide HitLists, Hits, Bounds;
    forall k | 0 <= k < |readers| ensures Bounds(readers[k].1.UpperBound(), HitLists(queries, index.live)[k]) {
      assert Trusted(Hits(queries, index.live)[k], index);
      assert ReadyReader(readers[k].1, HitLists(queries, index.live)[k], index.published);
      ScoredBound(readers[k].1);
    }
  }

  /** No reader without hits, the one cursor for one hit, a WandReader for more. */
  method Query(index: Index, queries: seq<QueryTerm>) returns (reader: Option<QueryReader>)
    requires index.Valid() && Sound(queries, index)
    ensures reader.None? ==> HitLists(queries, index.live) == []
    ensures reader.Some? ==> Prepared(reader.value, HitLists(queries, index.live), index.published)
    ensures reader.Some? ==> fresh(reader.value.Moved())
    ensures index.Valid()
  {
    hide HitLists, Hits, Index.Valid, Structure, Bounds, Sound, Simple, WandReader.Valid, PassedAtMost;
    if |queries| == 0 {
      NoLists(index.live);
      return None;
    }
    var readers := FindReaders(index, queries);
    if |readers| == 0 { return None; }
    if |readers| == 1 {
      assert ReadyReader(readers[0].1, HitLists(queries, index.live)[0], index.published);
      return Some(Single(readers[0].1));
    }
    ReadersTrusted(index, queries, readers);
    var w := Merge(readers, HitLists(queries, index.live), index.published);
    return Some(Merged(w));
  }

  lemma NoLists(live: Table)
    ensures HitLists([], live) == []
  {
  }

  /**
   * The answer to a query: at most `n` distinct documents by descending score, each with the exact dot
   * product of the query and its row; whoever is missing scores at most 0, or the answer is full and
   * nobody in it scores less.
   */
  ghost predicate Answers(results: seq<Posting>, queries: seq<QueryTerm>, rows: Spec.Rows, n: nat) {
    && |results| <= n && Descending(results) && Distinct(results)
    && (forall k :: 0 <= k < |results| ==>
          results[k].doc != 0 && results[k].weight == Dot(queries, rows, results[k].doc))
    && (forall d: DocId :: d != 0 ==> Accounted(results, queries, rows, n, d))
  }

  ghost predicate Accounted(results: seq<Posting>, queries: seq<QueryTerm>, rows: Spec.Rows, n: nat, d: DocId) {
    || (exists k :: 0 <= k < |results| && results[k].doc == d)
    || Dot(queries, rows, d) <= 0.0
    || (|results| == n && forall k :: 0 <= k < |results| ==> Dot(queries, rows, d) <= results[k].weight)
  }

  lemma OccursValid(queries: seq<QueryTerm>, live: Table, rows: Spec.Rows, d: DocId)
    requires Spec.Inverts(live, rows) && Occurs(HitLists(queries, live), d)
    ensures d != 0
  {
    var i :| 0 <= i < |HitLists(queries, live)| && d in Docs(HitLists(queries, live)[i]);
    HitListsAt(queries, live, i);
    var hit := Hits(queries, live)[i];
    InvertsAt(live, rows, hit.term, 1);
    HitWeight(live[hit.term], hit.weight, d);
  }

  lemma TopNAnswers(
    results: seq<Posting>, queries: seq<QueryTerm>, live: Table, rows: Spec.Rows, n: nat, skip: bool)
    requires Spec.Inverts(live, rows) && Descending(results)
    requires IsTopN(HitLists(queries, live), results, n, skip, 0.0)
    ensures Answers(results, queries, rows, n)
  {
    hide HitLists, Score, Occurs, Spec.Inverts, Dot, Descending;
    var lists := HitLists(queries, live);
    forall k | 0 <= k < |results|
      ensures results[k].doc != 0 && results[k].weight == Dot(queries, rows, results[k].doc)
    {
      OccursValid(queries, live, rows, results[k].doc);
      ScoreIsDot(queries, live, rows, results[k].doc);
    }
    forall d: DocId | d != 0 ensures Accounted(results, queries, rows, n, d) {
      ScoreIsDot(queries, live, rows, d);
      if Occurs(lists, d) { assert Excused(lists, results, n, skip, 0.0, d); }
    }
  }

  lemma NothingFound(queries: seq<QueryTerm>, live: Table, rows: Spec.Rows, n: nat)
    requires Spec.Inverts(live, rows) && HitLists(queries, live) == []
    ensures Answers([], queries, rows, n)
  {
    hide HitLists, Score, Spec.Inverts, Dot;
    forall d: DocId | d != 0 ensures Accounted([], queries, rows, n, d) {
      ScoreIsDot(queries, live, rows, d);
      ScoreOfNone(d);
    }
  }

  /** Drain a prepared reader into an answer. */
  method Drain(reader: QueryReader, count: nat, ghost queries: seq<QueryTerm>, ghost live: Table, ghost rows: Spec.Rows,
               ghost published: set<PostingList>)
    returns (results: seq<Posting>)
    requires Prepared(reader, HitLists(queries, live), published) && Spec.Inverts(live, rows)
    modifies reader.Moved()
    ensures Answers(results, queries, rows, count)
  {
    hide HitLists, Spec.Inverts, IsTopN, AllWanted, Arranged, Ends, Follows;
    hide QueryReader.Valid, QueryReader.Moved, QueryReader.Lists;
    ghost var seen;
    results, seen := ReadTopN(reader, count, true, true);
    TopNAnswers(results, queries, live, rows, count, reader.Merged?);
  }

  lemma RowsInvert(rows: RowIndex.Rows)
    requires rows.Valid()
    ensures rows.index.Valid() && Spec.Inverts(rows.index.live, rows.applied)
  {
  }

  /** The answer to a query is the one for the rows as of the last apply. */
  method Search(rows: RowIndex.Rows, queries: seq<QueryTerm>, count: nat) returns (results: seq<Posting>)
    requires rows.Valid() && Sound(queries, rows.index)
    ensures Answers(results, queries, rows.applied, count)
  {
    hide RowIndex.Rows.Valid, Index.Valid, HitLists, Spec.Inverts, Answers, Sound, QueryReader.Moved;
    ghost var live, applied, published := rows.index.live, rows.applied, rows.index.published;
    RowsInvert(rows);
    var reader := Query(rows.index, queries);
    if reader.None? {
      NothingFound(queries, live, applied, count);
      return [];
    }
    results := Drain(reader.value, count, queries, live, applied, published);
  }

  // ----- Searching while the index changes ---------------------------------------------------------------

  function Joined(batches: seq<seq<Spec.Op>>): seq<Spec.Op> {
    if |batches| == 0 then [] else Joined(batches[..|batches| - 1]) + batches[|batches| - 1]
  }

  lemma RunJoin(a: seq<Spec.State>, ops: seq<Spec.Op>, b: seq<Spec.State>, more: seq<Spec.Op>, maxSize: nat)
    requires Spec.Run(a, ops, maxSize) && Spec.Run(b, more, maxSize) && a[|ops|] == b[0]
    ensures Spec.Run(a + b[1..], ops + more, maxSize)
    ensures (a + b[1..])[0] == a[0] && (a + b[1..])[|ops + more|] == b[|more|]
  {
    hide Spec.Step;
    var t := a + b[1..];
    forall i | 0 <= i < |ops + more| ensures Spec.Step(t[i], (ops + more)[i], t[i + 1], maxSize) {
      if i < |ops| {
        assert Spec.Step(a[i], ops[i], a[i + 1], maxSize);
      } else {
        assert Spec.Step(b[i - |ops|], more[i - |ops|], b[i - |ops| + 1], maxSize);
      }
    }
  }

  lemma RunMoreBatches(trace: seq<Spec.State>, batches: seq<seq<Spec.Op>>, i: nat, more: seq<Spec.State>, maxSize: nat)
    requires i < |batches| && Spec.Run(trace, Joined(batches[..i]), maxSize) && Spec.Run(more, batches[i], maxSize)
    requires trace[|trace| - 1] == more[0]
    ensures Spec.Run(trace + more[1..], Joined(batches[..i + 1]), maxSize)
    ensures (trace + more[1..])[0] == trace[0] && (trace + more[1..])[|trace + more[1..]| - 1] == more[|batches[i]|]
  {
    assert batches[..i + 1][..i] == batches[..i];
    RunJoin(trace, Joined(batches[..i]), more, batches[i], maxSize);
  }

  /** The first `i` batches were run, through these states of the plain table. */
  ghost predicate Amid(rows: RowIndex.Rows, batches: seq<seq<Spec.Op>>, i: nat, trace: seq<Spec.State>,
                       first: Spec.State)
    reads rows, rows.expire
  {
    && i <= |batches|
    && Spec.Run(trace, Joined(batches[..i]), rows.maxSize)
    && trace[0] == first && trace[|trace| - 1] == rows.Abstract()
  }

  /** What a reader moves is apart from the index, and what it reads was published. */
  ghost predicate Shielded(reader: QueryReader, rows: RowIndex.Rows)
    reads rows, rows.index
  {
    && rows !in reader.Moved() && rows.index !in reader.Moved() && rows.expire !in reader.Moved()
    && reader.Moved() !! rows.index.private
    && (forall o :: o in reader.Moved() ==> !(o is PostingList))
    && (forall o :: o in reader.Sources() ==> o in rows.index.published)
  }

  /** A search and an index that is being changed, both in good order. */
  ghost predicate Going(rows: RowIndex.Rows, reader: QueryReader, batches: seq<seq<Spec.Op>>, i: nat,
                        trace: seq<Spec.State>, first: Spec.State)
    reads rows, rows.index, rows.expire, rows.index.private, rows.index.published, reader.Moved(), reader.Sources()
    ensures Going(rows, reader, batches, i, trace, first) ==> reader.Valid() && i <= |batches|
  {
    rows.Valid() && reader.Valid() && Shielded(reader, rows) && Amid(rows, batches, i, trace, first)
  }

  /** Other threads run the next batch, if there is one; the reader stays where it is, over the lists it had. */
  method Interrupt(rows: RowIndex.Rows, reader: QueryReader, batches: seq<seq<Spec.Op>>, i: nat,
                   ghost trace: seq<Spec.State>, ghost first: Spec.State)
    returns (next: nat, ghost trace': seq<Spec.State>)
    requires Going(rows, reader, batches, i, trace, first)
    modifies rows, rows.index, rows.expire, rows.index.private
    ensures Going(rows, reader, batches, next, trace', first)
    ensures next == if i < |batches| then i + 1 else i
    ensures fresh(rows.index.private - old(rows.index.private))
    ensures reader.Lists() == old(reader.Lists()) && reader.Limit() == old(reader.Limit())
    ensures forall c: int :: old(reader.Passed(c)) ==> reader.Passed(c)
    ensures forall p: DocId :: old(reader.At(p)) ==> reader.At(p)
  {
    hide RowIndex.Rows.Valid, Spec.Run;
    hide QueryReader.Valid, QueryReader.Lists, QueryReader.Passed, QueryReader.At, QueryReader.Limit;
    next, trace' := i, trace;
    if i < |batches| {
      ghost var more := rows.Execute(batches[i]);
      next, trace' := i + 1, trace + more[1..];
      RunMoreBatches(trace, batches, i, more, rows.maxSize);
    }
  }

  /** A next() that other threads get in before. */
  method NextAmid(rows: RowIndex.Rows, reader: QueryReader, current: DocId, batches: seq<seq<Spec.Op>>, i: nat,
                  ghost trace: seq<Spec.State>, ghost first: Spec.State)
    returns (p: DocId, next: nat, ghost trace': seq<Spec.State>)
    requires Going(rows, reader, batches, i, trace, first) && reader.Passed(current)
    modifies reader.Moved(), rows, rows.index, rows.expire, rows.index.private
    ensures Going(rows, reader, batches, next, trace', first)
    ensures fresh(rows.index.private - old(rows.index.private))
    ensures reader.Lists() == old(reader.Lists()) && reader.Limit() == old(reader.Limit())
    ensures p != 0 ==> p > current && Occurs(reader.Lists(), p) && reader.At(p) && reader.Passed(p)
    ensures Gap(reader.Lists(), reader.Merged?, reader.Limit(), current, p)
  {
    hide RowIndex.Rows.Valid, Spec.Run, Gap, Occurs;
    hide QueryReader.Valid, QueryReader.Lists, QueryReader.Passed, QueryReader.At, QueryReader.Limit;
    next, trace' := Interrupt(rows, reader, batches, i, trace, first);
    p := NextDocument(reader, current);
  }

  /** A turn of the loop that other threads get in before. */
  method ConsiderAmid(rows: RowIndex.Rows, reader: QueryReader, results: seq<Posting>, count: nat, p: DocId,
                      batches: seq<seq<Spec.Op>>, i: nat, ghost trace: seq<Spec.State>, ghost first: Spec.State)
    returns (more: seq<Posting>, next: nat, ghost trace': seq<Spec.State>)
    requires Going(rows, reader, batches, i, trace, first) && reader.At(p) && reader.Passed(p)
    requires 0 < count && |results| <= count
    modifies reader.Moved(), rows, rows.index, rows.expire, rows.index.private
    ensures Going(rows, reader, batches, next, trace', first)
    ensures fresh(rows.index.private - old(rows.index.private))
    ensures reader.Lists() == old(reader.Lists()) && reader.Passed(p)
    ensures more == TopN.Offer(results, Scored(reader.Lists(), p), count)
    ensures || reader.Limit() == old(reader.Limit())
            || (|results| == count && |more| > 0 && reader.Limit() == more[0].weight)
  {
    hide RowIndex.Rows.Valid, Spec.Run, TopN.Offer, Scored;
    hide QueryReader.Valid, QueryReader.Lists, QueryReader.Passed, QueryReader.At, QueryReader.Limit;
    next, trace' := Interrupt(rows, reader, batches, i, trace, first);
    more := Consider(reader, results, count, p, true);
  }

  /** read_topn with other threads at work before every next() and every read(): still the top n of its own lists. */
  method ReadTopNAmid(rows: RowIndex.Rows, reader: QueryReader, count: nat, batches: seq<seq<Spec.Op>>)
    returns (results: seq<Posting>, ghost trace: seq<Spec.State>)
    requires rows.Valid() && reader.Valid() && Shielded(reader, rows) && reader.Passed(0)
    modifies reader.Moved(), rows, rows.index, rows.expire, rows.index.private
    ensures rows.Valid() && Spec.Run(trace, Joined(batches), rows.maxSize)
    ensures trace[0] == old(rows.Abstract()) && trace[|trace| - 1] == rows.Abstract()
    ensures IsTopN(old(reader.Lists()), results, count, reader.Merged?, old(reader.Limit())) && Descending(results)
  {
    hide Progress, TopN.Offer, Excusable, Gap, Occurs, IsTopN, Going, Scored, Sort, Descending, Ends, Follows;
    hide RowIndex.Rows.Valid, Spec.Run;
    hide QueryReader.Valid, QueryReader.Lists, QueryReader.Passed, QueryReader.At, QueryReader.Limit;
    ghost var lists, skip, limit, first := reader.Lists(), reader.Merged?, reader.Limit(), rows.Abstract();
    var i: nat := 0;
    trace := [first];
    StartAmid(rows, reader, batches);
    results := [];
    if count > 0 {
      ListsSorted(reader);
      ghost var seen: seq<Posting> := [];
      ghost var end := LastId(lists);
      ProgressStart(lists, count, skip, limit);
      var current: DocId, p: DocId := 0, 0;
      p, i, trace := NextAmid(rows, reader, current, batches, i, trace, first);
      GapExcusable(lists, seen, results, count, skip, limit, reader.Limit(), current, p);
      while p != 0
        invariant Going(rows, reader, batches, i, trace, first) && reader.Lists() == lists
        invariant fresh(rows.index.private - old(rows.index.private))
        invariant Progress(lists, seen, results, count, skip, limit, reader.Limit(), current)
        invariant Excusable(lists, results, count, skip, limit, current, p)
        invariant p != 0 ==> p > current && Occurs(lists, p) && reader.At(p) && reader.Passed(p)
        decreases end as int - current
      {
        OccursWithin(lists, end, p);
        ProgressStep(lists, seen, results, count, skip, limit, reader.Limit(), current, p);
        seen := seen + [Scored(lists, p)];
        results, i, trace := ConsiderAmid(rows, reader, results, count, p, batches, i, trace, first);
        current := p;
        p, i, trace := NextAmid(rows, reader, current, batches, i, trace, first);
        GapExcusable(lists, seen, results, count, skip, limit, reader.Limit(), current, p);
      }
      ProgressHeap(lists, seen, results, count, skip, limit, reader.Limit(), current);
      SortHeap(results);
      ProgressEnd(lists, seen, results, count, skip, limit, reader.Limit(), current, Sort(results));
      results := Sort(results);
    } else {
      NoneWanted(lists, skip, limit, true);
    }
    while i < |batches|
      invariant Going(rows, reader, batches, i, trace, first)
      invariant fresh(rows.index.private - old(rows.index.private))
    {
      i, trace := Interrupt(rows, reader, batches, i, trace, first);
    }
    EndAmid(rows, reader, batches, i, trace, first);
  }

  lemma StartAmid(rows: RowIndex.Rows, reader: QueryReader, batches: seq<seq<Spec.Op>>)
    requires rows.Valid() && reader.Valid() && Shielded(reader, rows)
    ensures Going(rows, reader, batches, 0, [rows.Abstract()], rows.Abstract())
  {
    hide RowIndex.Rows.Valid, QueryReader.Valid;
  }

  lemma EndAmid(rows: RowIndex.Rows, reader: QueryReader, batches: seq<seq<Spec.Op>>, i: nat,
                trace: seq<Spec.State>, first: Spec.State)
    requires Going(rows, reader, batches, i, trace, first) && i >= |batches|
    ensures rows.Valid() && Spec.Run(trace, Joined(batches), rows.maxSize)
    ensures trace[0] == first && trace[|trace| - 1] == rows.Abstract()
  {
    hide RowIndex.Rows.Valid, QueryReader.Valid, Spec.Run;
    assert batches[..i] == batches;
  }

  /**
   * Isolation end to end: whatever updates, removals and applies run between taking a query and any two steps of
   * draining it, it answers for the rows as of the last apply before it was taken.
   */
  method SearchInterleaved(rows: RowIndex.Rows, queries: seq<QueryTerm>, count: nat, batches: seq<seq<Spec.Op>>)
    returns (results: seq<Posting>, ghost trace: seq<Spec.State>)
    requires rows.Valid() && Sound(queries, rows.index)
    modifies rows, rows.index, rows.expire, rows.index.private
    ensures rows.Valid() && Spec.Run(trace, Joined(batches), rows.maxSize)
    ensures trace[0] == old(rows.Abstract()) && trace[|trace| - 1] == rows.Abstract()
    ensures Answers(results, queries, old(rows.applied), count)
  {
    hide Index.Valid, HitLists, Spec.Inverts, Answers, Sound, RowIndex.Rows.Valid, Spec.Run, IsTopN, Descending;
    hide QueryReader.Valid, QueryReader.Lists, QueryReader.Passed, QueryReader.At;
    ghost var live, applied := rows.index.live, rows.applied;
    RowsInvert(rows);
    var reader := Query(rows.index, queries);
    if reader.None? {
      NothingFound(queries, live, applied, count);
      results := [];
      trace := rows.Execute(Joined(batches));
    } else {
      results, trace := ReadTopNAmid(rows, reader.value, count, batches);
      TopNAnswers(results, queries, live, applied, count, reader.value.Merged?);
    }
  }

  /**
   * The whole life of an index: from the empty one through any operations, a query answers for the rows as of
   * the last apply among them, whatever happens while it is drained.
   */
  method SearchFromEmpty(maxSize: nat, before: seq<Spec.Op>, queries: seq<QueryTerm>, count: nat,
                         batches: seq<seq<Spec.Op>>)
    returns (results: seq<Posting>, ghost trace: seq<Spec.State>, ghost after: seq<Spec.State>)
    requires NonNegative(queries)
    ensures Spec.Run(trace, before, maxSize) && trace[0] == Spec.State(map[], map[], map[])
    ensures Spec.Run(after, Joined(batches), maxSize) && after[0] == trace[|before|]
    ensures Answers(results, queries, trace[|before|].applied, count)
    ensures forall run: seq<Spec.State> ::
              Spec.Run(run, before, maxSize) && run[0] == Spec.State(map[], map[], map[]) ==>
                Answers(results, queries, run[|before|].applied, count)
  {
    hide Answers, Sound, NonNegative, RowIndex.Rows.Valid, Spec.Run;
    var rows := new RowIndex.Rows(maxSize);
    trace := rows.Execute(before);
    NonNegativeSound(queries, rows.index);
    results, after := SearchInterleaved(rows, queries, count, batches);
    forall run: seq<Spec.State> | Spec.Run(run, before, maxSize) && run[0] == Spec.State(map[], map[], map[])
      ensures Answers(results, queries, run[|before|].applied, count)
    {
      Spec.RunFunctional(run, trace, before, |before|, maxSize);
    }
  }

  // ----- Updating documents --------------------------------------------------------------------------------

  /** All features of all vectors of a document, in order. */
  function Flat(vectors: seq<Spec.DocTerms>): Spec.DocTerms {
    if |vectors| == 0 then [] else Flat(vectors[..|vectors| - 1]) + vectors[|vectors| - 1]
  }

  lemma {:induction false} RowOfConcat(a: Spec.DocTerms, b: Spec.DocTerms)
    ensures Spec.RowOf(a + b) == Spec.RowOf(a) + Spec.RowOf(b)
  {
    if |b| == 0 {
      assert a + b == a;
    } else {
      var front := b[..|b| - 1];
      RowOfConcat(a, front);
      assert (a + b)[..|a + b| - 1] == a + front;
    }
  }

  /** Where two vectors of a document share a feature, the later one decides its weight. */
  lemma FlatRow(vectors: seq<Spec.DocTerms>)
    requires |vectors| > 0
    ensures Spec.RowOf(Flat(vectors)) == Spec.RowOf(Flat(vectors[..|vectors| - 1])) + Spec.RowOf(vectors[|vectors| - 1])
  {
    RowOfConcat(Flat(vectors[..|vectors| - 1]), vectors[|vectors| - 1]);
  }

  /** Entry i of vector v is the last one of a document that gives term t. */
  ghost predicate LastIn(vectors: seq<Spec.DocTerms>, t: TermId, v: nat, i: nat) {
    && v < |vectors| && Spec.LastGiven(vectors[v], t, i)
    && forall u :: v < u < |vectors| ==> t !in Spec.RowOf(vectors[u])
  }

  /** The row of a document has exactly the features of its vectors, each with the weight given last. */
  lemma {:induction false} FlatIs(vectors: seq<Spec.DocTerms>, t: TermId)
    ensures t in Spec.RowOf(Flat(vectors)) <==> exists v: nat, i: nat :: LastIn(vectors, t, v, i)
    ensures forall v: nat, i: nat :: LastIn(vectors, t, v, i) ==>
              t in Spec.RowOf(Flat(vectors)) && Spec.RowOf(Flat(vectors))[t] == vectors[v][i].1
  {
    hide Spec.RowOf, Spec.LastGiven;
    if |vectors| == 0 {
      NoFeatures();
    } else {
      var n := |vectors| - 1;
      var front := vectors[..n];
      FlatIs(front, t);
      FlatRow(vectors);
      Spec.RowOfIs(vectors[n], t);
      if t in Spec.RowOf(vectors[n]) {
        var i: nat :| Spec.LastGiven(vectors[n], t, i);
        assert LastIn(vectors, t, n, i);
        forall v: nat, j: nat | LastIn(vectors, t, v, j) ensures v == n { assert !(v < n); }
      } else {
        forall v: nat, i: nat ensures LastIn(vectors, t, v, i) <==> LastIn(front, t, v, i) {
          FrontLast(vectors, t, v, i);
        }
      }
    }
  }

  lemma NoFeatures()
    ensures Flat([]) == [] && Spec.RowOf([]) == map[]
  {
  }

  lemma FrontLast(vectors: seq<Spec.DocTerms>, t: TermId, v: nat, i: nat)
    requires |vectors| > 0 && t !in Spec.RowOf(vectors[|vectors| - 1])
    ensures LastIn(vectors, t, v, i) <==> LastIn(vectors[..|vectors| - 1], t, v, i)
    ensures LastIn(vectors, t, v, i) ==> v < |vectors| - 1
  {
    hide Spec.RowOf, Spec.LastGiven;
    var front := vectors[..|vectors| - 1];
    assert forall u :: 0 <= u < |front| ==> front[u] == vectors[u];
    if v == |vectors| - 1 { Spec.RowOfIs(vectors[v], t); }
  }

  /** Flatten the feature vectors of a document and write them as its row. */
  method UpdateDocument(rows: RowIndex.Rows, doc: DocId, vectors: seq<Spec.DocTerms>, time: int) returns (ret: int)
    requires rows.Valid()
    modifies rows, rows.index, rows.expire, rows.index.private
    ensures rows.Valid()
    ensures Spec.Step(old(rows.Abstract()), Spec.Update(doc, Flat(vectors), time), rows.Abstract(), rows.maxSize)
    ensures ret == if doc == 0 then 0 else |Flat(vectors)|
    ensures rows.index.KeepsPublished()
  {
    hide RowIndex.Rows.Valid, Index.KeepsPublished, Spec.RowOf;
    var weights: Spec.DocTerms := [];
    var i := 0;
    while i < |vectors|
      invariant 0 <= i <= |vectors| && weights == Flat(vectors[..i])
    {
      assert vectors[..i + 1][..i] == vectors[..i];
      var j := 0;
      while j < |vectors[i]|
        invariant 0 <= j <= |vectors[i]| && weights == Flat(vectors[..i]) + vectors[i][..j]
      {
        weights := weights + [vectors[i][j]];
        j := j + 1;
      }
      assert vectors[i][..j] == vectors[i];
      i := i + 1;
    }
    assert vectors[..i] == vectors;
    ret := rows.Update(doc, weights, time);
  }
}
