/** RowIndexImpl: an index updated row by row, each row with an expiry time. */
module RowIndex {
  import opened Postings
  import opened BaseIndex
  import opened ExpireTable
  import opened RowSpec

  /** Remove a document from the pending lists of the given terms. */
  method RemoveTerms(index: Index, doc: DocId, terms: seq<TermId>) returns (ret: int)
    requires index.Valid()
    modifies index, index.private
    ensures index.Valid()
    ensures index.index == old(index.index) && index.live == old(index.live) && index.published == old(index.published)
    ensures old(index.private) <= index.private && fresh(index.private - old(index.private))
    ensures Cleared(old(index.View()), index.View(), doc, terms)
    ensures ret == |Held(old(index.View()), doc, terms)|
    ensures index.pending.Keys == old(index.pending).Keys + Known(terms, old(index.View()).Keys)
    ensures index.KeepsPublished()
  {
    hide Index.Valid, Cleared, Held, Known, Pending;
    ghost var known, was := index.View().Keys, index.pending.Keys;
    PendingEnds(was, was, terms, known);
    ret := 0;
    ClearedNone(index.View(), doc);
    NoneHeld(index.View(), doc, terms);
    var i := 0;
    while i < |terms|
      invariant 0 <= i <= |terms| && index.Valid()
      invariant index.index == old(index.index) && index.live == old(index.live)
      invariant index.published == old(index.published)
      invariant old(index.private) <= index.private && fresh(index.private - old(index.private))
      invariant Cleared(old(index.View()), index.View(), doc, terms[..i])
      invariant ret == |Held(old(index.View()), doc, terms[..i])|
      invariant Pending(index.pending.Keys, was, terms, i, known) && index.View().Keys == known
      invariant index.KeepsPublished()
    {
      ghost var before, pending := index.View(), index.pending;
      var one := index.Remove(doc, terms[i]);
      RemovedCell(before, index.live, pending, old(index.View()), index.View(), doc, terms, i);
      HeldMore(old(index.View()), before, doc, terms, i);
      PendingMore(pending.Keys, index.pending.Keys, was, terms, i, known);
      ret := ret + one;
      i := i + 1;
    }
    PendingEnds(index.pending.Keys, was, terms, known);
    assert terms[..i] == terms;
  }

  lemma NoneHeld(v: Table, doc: DocId, terms: seq<TermId>)
    ensures Held(v, doc, terms[..0]) == {}
  {
  }

  lemma RemovedCell(
    before: Table, live: Table, pending: Table, first: Table, after: Table, doc: DocId, terms: seq<TermId>, i: nat)
    requires i < |terms| && Cleared(first, before, doc, terms[..i]) && before == live + pending
    requires var t := terms[i];
             after == live + if t in before then pending[t := before[t] - {doc}] else pending
    ensures Cleared(first, after, doc, terms[..i + 1])
  {
    var t := terms[i];
    if t in before { ViewUpdate(live, pending, t, before[t] - {doc}); }
    RemoveCell(before, doc, t, after);
    ClearedMore(first, before, after, doc, terms[..i], t);
    assert terms[..i + 1] == terms[..i] + [t];
  }

  /** Write a document into the pending lists of its terms. */
  method WriteTerms(index: Index, doc: DocId, terms: DocTerms) returns (ret: int)
    requires index.Valid()
    modifies index, index.private
    ensures index.Valid()
    ensures index.index == old(index.index) && index.live == old(index.live) && index.published == old(index.published)
    ensures old(index.private) <= index.private && fresh(index.private - old(index.private))
    ensures Written(old(index.View()), index.View(), doc, RowOf(terms))
    ensures ret == if doc == 0 then 0 else |terms|
    ensures index.KeepsPublished()
  {
    hide Index.Valid, Written, RowOf;
    ret := 0;
    WrittenNone(index.View(), doc);
    assert terms[..0] == [];
    var i := 0;
    while i < |terms|
      invariant 0 <= i <= |terms| && index.Valid()
      invariant index.index == old(index.index) && index.live == old(index.live)
      invariant index.published == old(index.published)
      invariant old(index.private) <= index.private && fresh(index.private - old(index.private))
      invariant Written(old(index.View()), index.View(), doc, RowOf(terms[..i]))
      invariant ret == if doc == 0 then 0 else i
      invariant index.KeepsPublished()
    {
      ghost var before, pending := index.View(), index.pending;
      var one := index.CreateUpdate(doc, terms[i].0, terms[i].1);
      WrittenCell(before, index.live, pending, old(index.View()), index.View(), doc, terms, i);
      ret := ret + one;
      i := i + 1;
    }
    assert terms[..i] == terms;
  }

  lemma WrittenCell(
    before: Table, live: Table, pending: Table, first: Table, after: Table, doc: DocId, terms: DocTerms, i: nat)
    requires i < |terms| && Written(first, before, doc, RowOf(terms[..i])) && before == live + pending
    requires var m := At(before, terms[i].0);
             after == live + pending[terms[i].0 := if doc == 0 then m else m[doc := terms[i].1]]
    ensures Written(first, after, doc, RowOf(terms[..i + 1]))
  {
    var t, weight := terms[i].0, terms[i].1;
    ViewUpdate(live, pending, t, if doc == 0 then At(before, t) else At(before, t)[doc := weight]);
    CreateCell(before, doc, t, weight, after);
    WrittenMore(first, before, after, doc, terms[..i], t, weight);
    assert terms[..i + 1] == terms[..i] + [(t, weight)];
  }

  class Rows {
    const index: Index
    const expire: Expiries
    const maxSize: nat
    var docTerms: map<DocId, seq<TermId>>

    /** The forward table now, and as it was at the last apply. */
    ghost var rows: RowSpec.Rows
    ghost var applied: RowSpec.Rows

    ghost predicate Apart()
      reads this, index
    {
      this !in index.private && expire !in index.private && index !in index.private
    }

    /** The lists, the forward map and the rows agree. */
    ghost predicate Agrees()
      reads this, index, index.private, index.published
      ensures Agrees() ==> Apart()
    {
      && Apart()
      && index.Valid()
      && Lists(docTerms, rows)
      && Inverts(index.View(), rows)
      && Inverts(index.live, applied)
    }

    ghost predicate Valid()
      reads this, index, expire, index.private, index.published
    {
      && Agrees()
      && expire.Valid()
      && Keyed(rows, expire.times)
    }

    /** The plain table this index stands for. */
    ghost function Abstract(): State
      reads this, expire
    {
      State(rows, applied, expire.times)
    }

    constructor (maxSize: nat)
      ensures Valid() && fresh(index) && fresh(expire) && fresh(index.private)
      ensures this.maxSize == maxSize && Abstract() == State(map[], map[], map[]) && index.published == {}
    {
      this.maxSize := maxSize;
      index := new Index();
      expire := new Expiries();
      docTerms, rows, applied := map[], map[], map[];
    }

    /** An index put together from loaded parts, taken to hold the given table. */
    constructor FromParts(
      maxSize: nat, index: Index, expire: Expiries, docTerms: map<DocId, seq<TermId>>, ghost rows: RowSpec.Rows)
      ensures this.maxSize == maxSize && this.index == index && this.expire == expire && this.docTerms == docTerms
      ensures this.rows == rows && this.applied == rows
    {
      this.maxSize, this.index, this.expire, this.docTerms := maxSize, index, expire, docTerms;
      this.rows, this.applied := rows, rows;
    }

    method RemoveDocInternal(doc: DocId) returns (ret: int)
      requires Agrees()
      modifies this`docTerms, this`rows, index, index.private
      ensures Agrees() && rows == old(rows) - {doc} && ret == RowSize(old(rows), doc)
      ensures docTerms == old(docTerms) - {doc} && index.View().Keys == old(index.View()).Keys
      ensures index.pending.Keys == old(index.pending).Keys +
              if doc in old(docTerms) then Known(old(docTerms)[doc], old(index.View()).Keys) else {}
      ensures index.live == old(index.live) && index.published == old(index.published)
      ensures old(index.private) <= index.private && fresh(index.private - old(index.private))
      ensures index.KeepsPublished()
    {
      hide Index.Valid, Inverts, Cleared, Held, Lists, RowSize;
      assert doc !in docTerms ==> docTerms - {doc} == docTerms;
      if doc in docTerms {
        ret := RemoveTerms(index, doc, docTerms[doc]);
        TakeOut(old(index.View()), index.View(), rows, docTerms, doc);
        docTerms := docTerms - {doc};
      } else {
        ret := 0;
        NotThere(rows, doc);
      }
      rows := rows - {doc};
    }

    /** Replace the terms remembered for a document, taking it out of the lists of its old ones. */
    method UpdateDocTerms(doc: DocId, terms: DocTerms)
      requires Agrees()
      modifies this`docTerms, this`rows, index, index.private
      ensures docTerms == old(docTerms)[doc := TermsOf(terms)] && rows == old(rows) - {doc}
      ensures index.Valid() && Apart() && Inverts(index.View(), rows)
      ensures index.live == old(index.live) && index.published == old(index.published)
      ensures old(index.private) <= index.private && fresh(index.private - old(index.private))
      ensures index.KeepsPublished()
    {
      hide Index.Valid, Inverts, Cleared;
      if doc in docTerms {
        var ret := RemoveTerms(index, doc, docTerms[doc]);
        ClearRow(old(index.View()), index.View(), rows, doc, docTerms[doc]);
      } else {
        assert rows - {doc} == rows;
      }
      docTerms := docTerms[doc := TermsOf(terms)];
      rows := rows - {doc};
    }

    method Update(doc: DocId, terms: DocTerms, time: int) returns (ret: int)
      requires Valid()
      modifies this, index, expire, index.private
      ensures Valid() && Step(old(Abstract()), Op.Update(doc, terms, time), Abstract(), maxSize)
      ensures index.live == old(index.live) && index.published == old(index.published)
      ensures old(index.private) <= index.private && fresh(index.private - old(index.private))
      ensures ret == if doc == 0 then 0 else |terms|
      ensures index.KeepsPublished()
    {
      hide Index.Valid, Expiries.Valid, Inverts, Written, RowOf, TermsOf, Lists, Keyed;
      ListsWrite(docTerms, rows, doc, terms);
      KeyedWrite(rows, expire.times, doc, RowOf(terms), time);
      expire.Update(RowKey(doc), time);
      UpdateDocTerms(doc, terms);
      ghost var view := index.View();
      ret := WriteTerms(index, doc, terms);
      WriteRow(view, index.View(), rows, doc, RowOf(terms));
      rows := rows[doc := RowOf(terms)];
    }

    method Remove(doc: DocId) returns (ret: int)
      requires Valid()
      modifies this, index, index.private
      ensures Valid() && Step(old(Abstract()), RemoveDoc(doc), Abstract(), maxSize)
      ensures ret == RowSize(old(rows), doc)
      ensures index.live == old(index.live) && index.published == old(index.published)
      ensures old(index.private) <= index.private && fresh(index.private - old(index.private))
      ensures index.KeepsPublished()
    {
      hide Agrees, Expiries.Valid, Index.Valid;
      ret := RemoveDocInternal(doc);
    }

    /** Take the expired documents out of the lists. */
    method RemoveExpired(results: seq<Item>)
      requires Agrees()
      modifies this`docTerms, this`rows, index, index.private
      ensures Agrees() && rows == old(rows) - DocsOf(Members(results))
      ensures index.pending.Keys == old(index.pending).Keys +
              Touched(old(docTerms), DocsOf(Members(results)), old(index.View()).Keys)
      ensures index.live == old(index.live) && index.published == old(index.published)
      ensures old(index.private) <= index.private && fresh(index.private - old(index.private))
      ensures index.KeepsPublished()
    {
      hide Agrees, Index.Valid, Members, DocsOf, Touched, Known;
      ghost var known := index.View().Keys;
      NoDocs(rows);
      NoneTouched(docTerms, known);
      var i := 0;
      assert results[..0] == [];
      while i < |results|
        invariant 0 <= i <= |results| && Agrees()
        invariant rows == old(rows) - DocsOf(Members(results[..i]))
        invariant docTerms == old(docTerms) - DocsOf(Members(results[..i])) && index.View().Keys == known
        invariant index.pending.Keys == old(index.pending).Keys +
                  Touched(old(docTerms), DocsOf(Members(results[..i])), known)
        invariant index.KeepsPublished()
        invariant index.live == old(index.live) && index.published == old(index.published)
        invariant old(index.private) <= index.private && fresh(index.private - old(index.private))
      {
        MoreDocs(old(rows), results, i);
        TouchedMore(old(docTerms), DocsOf(Members(results[..i])), results[i].key.doc, known);
        var ret := RemoveDocInternal(results[i].key.doc);
        i := i + 1;
      }
      assert results[..i] == results;
    }

    /** Publish all pending changes. */
    method PublishRows() returns (ret: int)
      requires Agrees()
      modifies this`applied, index, index.private
      ensures Agrees() && applied == rows && index.pending == map[] && index.private == {}
      ensures ret == |old(index.pending).Keys|
      ensures index.KeepsPublished()
    {
      hide Index.Valid, Inverts, Lists, Applied;
      ghost var live, pending := index.live, index.pending;
      ret := index.Apply();
      forall t ensures At(index.live, t) == At(live + pending, t) { AppliedReads(live, pending, t); }
      SameCells(live + pending, index.live, rows);
      assert index.View() == index.live;
      applied := rows;
    }

    /** Expire what is due or too many, and publish all pending changes. */
    method Apply(time: int) returns (ret: int, retExpire: int)
      requires Valid()
      modifies this, index, expire, index.private
      ensures Valid() && Step(old(Abstract()), Op.Apply(time), Abstract(), maxSize)
      ensures index.pending == map[] && index.private == {}
      ensures retExpire == |old(expire.table)| - |expire.table|
      ensures var gone := DocsOf(old(expire.table) - expire.table);
              ret == |old(index.pending).Keys + Touched(old(docTerms), gone, old(index.View()).Keys)|
      ensures index.KeepsPublished()
    {
      hide Agrees, Bijection, Expires, Ascending, KeysOf, Members, DocsOf, Step, Touched;
      TableIs(expire.times, expire.table);
      var results := expire.ExpireWithLimit(time, maxSize);
      retExpire := |results|;
      RemoveExpired(results);
      ret := PublishRows();
      ExpiredSize(old(expire.table), results, time, maxSize);
      Gone(old(expire.table), results, time, maxSize);
      ExpiredStep(old(Abstract()), old(expire.table), results, Abstract(), time, maxSize);
    }

    /** One operation of any kind. */
    method Perform(op: Op)
      requires Valid()
      modifies this, index, expire, index.private
      ensures Valid() && Step(old(Abstract()), op, Abstract(), maxSize)
      ensures fresh(index.private - old(index.private))
      ensures index.KeepsPublished()
    {
      hide Agrees, Step, Expiries.Valid, Index.KeepsPublished;
      match op
      case Update(doc, terms, time) =>
        var ret := Update(doc, terms, time);
      case RemoveDoc(doc) =>
        var ret := Remove(doc);
      case Apply(time) =>
        var ret, retExpire := Apply(time);
    }

    /**
     * Any run of operations refines a run of the plain table, and leaves every list that was published
     * before it exactly as it was.
     */
    method Execute(ops: seq<Op>) returns (ghost trace: seq<State>)
      requires Valid()
      modifies this, index, expire, index.private
      ensures Valid() && Run(trace, ops, maxSize)
      ensures trace[0] == old(Abstract()) && trace[|ops|] == Abstract()
      ensures fresh(index.private - old(index.private))
      ensures index.KeepsPublished()
    {
      hide Valid, Step;
      trace := [Abstract()];
      var i := 0;
      while i < |ops|
        invariant 0 <= i <= |ops| && Valid() && Run(trace, ops[..i], maxSize)
        invariant trace[0] == old(Abstract()) && trace[i] == Abstract()
        invariant fresh(index.private - old(index.private))
        invariant index.KeepsPublished()
      {
        Perform(ops[i]);
        RunMore(trace, ops, i, Abstract(), maxSize);
        trace := trace + [Abstract()];
        i := i + 1;
      }
      assert ops[..i] == ops;
    }
  }

  /** Clearing the listed terms of a document takes its row out everywhere. */
  lemma TakeOut(v: Table, v': Table, rows: RowSpec.Rows, docTerms: map<DocId, seq<TermId>>, doc: DocId)
    requires Inverts(v, rows) && Lists(docTerms, rows) && doc in docTerms && Cleared(v, v', doc, docTerms[doc])
    ensures Inverts(v', rows - {doc}) && Lists(docTerms - {doc}, rows - {doc})
    ensures |Held(v, doc, docTerms[doc])| == RowSize(rows, doc)
  {
    hide Inverts, Cleared, Held;
    ListsRemove(docTerms, rows, doc);
    HeldRow(v, rows, doc, docTerms[doc]);
    ClearRow(v, v', rows, doc, docTerms[doc]);
  }

  lemma NotThere(rows: RowSpec.Rows, doc: DocId)
    requires doc !in rows
    ensures rows - {doc} == rows && RowSize(rows, doc) == 0
  {
  }

  lemma RunMore(trace: seq<State>, ops: seq<Op>, i: nat, s: State, maxSize: nat)
    requires i < |ops| && Run(trace, ops[..i], maxSize) && Step(trace[i], ops[i], s, maxSize)
    ensures Run(trace + [s], ops[..i + 1], maxSize)
  {
    hide Step;
    var more := trace + [s];
    forall k | 0 <= k < i + 1 ensures Step(more[k], ops[..i + 1][k], more[k + 1], maxSize) {
      if k < i { assert Step(trace[k], ops[..i][k], trace[k + 1], maxSize); }
    }
  }

  lemma NoDocs(rows: RowSpec.Rows)
    ensures rows - DocsOf(Members([])) == rows
  {
  }

  lemma NoneTouched(docTerms: map<DocId, seq<TermId>>, known: set<TermId>)
    ensures docTerms - DocsOf(Members([])) == docTerms && Touched(docTerms, DocsOf(Members([])), known) == {}
  {
    assert DocsOf(Members([])) == {};
  }

  lemma Gone(table: set<Item>, results: seq<Item>, time: int, limit: nat)
    requires Expires(table, Members(results), time, limit)
    ensures table - (table - Members(results)) == Members(results)
  {
  }

  lemma MoreDocs(rows: RowSpec.Rows, results: seq<Item>, i: nat)
    requires i < |results|
    ensures DocsOf(Members(results[..i + 1])) == DocsOf(Members(results[..i])) + {results[i].key.doc}
    ensures rows - DocsOf(Members(results[..i + 1])) == rows - DocsOf(Members(results[..i])) - {results[i].key.doc}
  {
  }

  lemma TableIs(times: map<Key, int>, table: set<Item>)
    requires Bijection(times, table)
    ensures table == ItemsOf(times)
  {
  }

  lemma ExpiredSize(table: set<Item>, results: seq<Item>, time: int, limit: nat)
    requires Expires(table, Members(results), time, limit) && Ascending(results)
    ensures |table - Members(results)| == |table| - |results|
  {
    MembersSize(results);
  }

  lemma ExpiredStep(s: State, table: set<Item>, results: seq<Item>, s': State, time: int, maxSize: nat)
    requires table == ItemsOf(s.times) && Expires(table, Members(results), time, maxSize)
    requires s'.times == s.times - KeysOf(results) && s'.rows == s.rows - DocsOf(Members(results))
    requires s'.applied == s'.rows
    requires Keyed(s.rows, s.times)
    ensures Step(s, Op.Apply(time), s', maxSize)
    ensures Keyed(s'.rows, s'.times)
  {
    assert KeysOf(results) == KeySet(Members(results));
    assert Expired(s, Members(results), s', time, maxSize);
  }
}
