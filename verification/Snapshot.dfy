/** Dumping an index into a snapshot and loading it back. */
module Snapshot {
  import opened Wrappers
  import opened Postings
  import opened BaseIndex
  import opened ExpireTable
  import opened RowSpec
  import opened SnapshotFormat
  import RowIndex
  import PointIndex

  /** SnapshotDumper: a stream of words that only grows. */
  class Dumper {
    var words: seq<Word>

    constructor ()
      ensures words == []
    {
      words := [];
    }

    method Dump(w: Word)
      modifies this
      ensures words == old(words) + [w]
    {
      words := words + [w];
    }
  }

  /** SnapshotLoader: what is left of a stream of words; reading past its end throws. */
  class Loader {
    var rest: seq<Word>

    constructor (words: seq<Word>)
      ensures rest == words
    {
      rest := words;
    }

    method Load() returns (r: Option<Word>)
      modifies this
      ensures if old(rest) == [] then r == None && rest == [] else r == Some(old(rest)[0]) && rest == old(rest)[1..]
    {
      if rest == [] { return None; }
      r := Some(rest[0]);
      rest := rest[1..];
    }
  }

  // ----- Loading ------------------------------------------------------------------------------------------

  /** SnapshotReader: a cursor that consumes the shared stream. */
  class SnapshotReader {
    const loader: Loader

    constructor (loader: Loader)
      ensures this.loader == loader
    {
      this.loader := loader;
    }

    /** The first document beyond `current`, or 0 at the end of the list. */
    method Next(current: DocId) returns (r: Option<DocId>)
      modifies loader
      ensures forall acc :: ParseList(old(loader.rest), current, acc) ==
                            if r.None? then None else ParseFrom(r.value, loader.rest, acc)
      ensures r.Some? ==> |loader.rest| < |old(loader.rest)| && (r.value == 0 || r.value > current)
    {
      hide ParseFrom;
      var w := loader.Load();
      if w.None? { return None; }
      var doc := AsNat(w.value);
      while doc != 0 && doc <= current
        invariant |loader.rest| < |old(loader.rest)|
        invariant forall acc :: ParseList(old(loader.rest), current, acc) ==
                    if doc == 0 || doc > current then ParseFrom(doc, loader.rest, acc)
                    else if |loader.rest| == 0 then None else ParseList(loader.rest[1..], current, acc)
        decreases |loader.rest|
      {
        w := loader.Load();
        if w.None? { return None; }
        w := loader.Load();
        if w.None? { return None; }
        doc := AsNat(w.value);
      }
      return Some(doc);
    }

    method Read() returns (r: Option<real>)
      modifies loader
      ensures if old(loader.rest) == [] then r == None && loader.rest == []
              else r == Some(old(loader.rest)[0]) && loader.rest == old(loader.rest)[1..]
    {
      r := loader.Load();
    }
  }

  /** A posting list built from the stream: its contents are the parsed ones and its bound is exact. */
  method LoadList(loader: Loader) returns (r: Option<PostingList>)
    modifies loader
    ensures r.None? <==> ParseList(old(loader.rest), 0, map[]) == None
    ensures r.Some? ==> fresh(r.value) && r.value.Valid() && Maximum(r.value.upperBound, r.value.posting)
    ensures r.Some? ==> ParseList(old(loader.rest), 0, map[]) == Some((r.value.posting, loader.rest))
  {
    hide ParseList, Maximum;
    var reader := new SnapshotReader(loader);
    var taken, bound := map[], 0.0;
    StartOf([], 0);
    var doc := reader.Next(0);
    if doc.None? { return None; }
    while doc.value != 0
      invariant doc.Some? && reader.loader == loader
      invariant ParseList(old(loader.rest), 0, map[]) == ParseFrom(doc.value, loader.rest, taken)
      invariant Maximum(bound, taken) && 0 !in taken && (doc.value != 0 ==> forall d :: d in taken ==> d < doc.value)
      decreases |loader.rest|
    {
      var weight := reader.Read();
      if weight.None? { return None; }
      MaximumGrows(bound, taken, doc.value, weight.value);
      if weight.value > bound { bound := weight.value; }
      taken := taken[doc.value := weight.value];
      var next := reader.Next(doc.value);
      if next.None? { return None; }
      doc := next;
    }
    var list := new PostingList();
    list.posting, list.upperBound := taken, bound;
    r := Some(list);
  }

  /** Add a loaded list to an index that is being loaded. */
  method Adopt(index: Index, t: TermId, list: PostingList)
    requires index.Valid() && index.changed == map[] && index.private == {} && list.Valid()
    modifies index
    ensures index.Valid() && index.changed == map[] && index.pending == map[] && index.private == {}
    ensures index.live == old(index.live)[t := list.posting] && index.index == old(index.index)[t := list]
    ensures index.published == old(index.published) + {list}
  {
    index.index := index.index[t := list];
    index.live := index.live[t := list.posting];
    index.published := index.published + {list};
  }

  /** Every published list has the exact bound of its weights. */
  ghost predicate ExactBounds(index: Index)
    reads index, index.index.Values
  {
    forall t :: t in index.index ==> Maximum(index.index[t].upperBound, index.index[t].posting)
  }

  method LoadIndex(loader: Loader) returns (r: Option<Index>)
    modifies loader
    ensures r.None? <==> ParseIndex(old(loader.rest)) == None
    ensures r.Some? ==>
              && fresh(r.value) && fresh(r.value.published) && r.value.Valid()
              && r.value.pending == map[] && r.value.private == {}
              && ExactBounds(r.value)
              && ParseIndex(old(loader.rest)) == Some((r.value.live, loader.rest))
  {
    hide ParseList, Maximum;
    var size := loader.Load();
    if size.None? { return None; }
    var index := new Index();
    var n := AsNat(size.value);
    var i := 0;
    while i < n
      invariant 0 <= i <= n && fresh(index) && fresh(index.published)
      invariant index.Valid() && index.changed == map[] && index.pending == map[] && index.private == {}
      invariant ExactBounds(index)
      invariant ParseIndex(old(loader.rest)) == ParseTerms(loader.rest, n - i, index.live)
    {
      var term := loader.Load();
      if term.None? { return None; }
      var list := LoadList(loader);
      if list.None? { return None; }
      Adopt(index, AsNat(term.value), list.value);
      i := i + 1;
    }
    r := Some(index);
  }

  /** The key of an expire table's item: one word for a document, two for a point. */
  method LoadKey(loader: Loader, points: bool) returns (r: Option<Key>)
    modifies loader
    ensures r.None? <==> |old(loader.rest)| < if points then 2 else 1
    ensures r.Some? ==>
              r.value == KeyOf(old(loader.rest), points) && loader.rest == old(loader.rest)[if points then 2 else 1..]
  {
    var term: nat := 0;
    if points {
      var w := loader.Load();
      if w.None? { return None; }
      term := AsNat(w.value);
    }
    var w := loader.Load();
    if w.None? { return None; }
    r := Some(Key(term, AsNat(w.value)));
  }

  method LoadExpire(loader: Loader, points: bool) returns (r: Option<Expiries>)
    modifies loader
    ensures r.None? <==> ParseExpire(old(loader.rest), points) == None
    ensures r.Some? ==> fresh(r.value) && r.value.Valid()
    ensures r.Some? ==> ParseExpire(old(loader.rest), points) == Some((r.value.times, loader.rest))
  {
    hide Bijection;
    var size := loader.Load();
    if size.None? { return None; }
    var expire := new Expiries();
    var n := AsNat(size.value);
    var i := 0;
    while i < n
      invariant 0 <= i <= n && fresh(expire) && expire.Valid()
      invariant ParseExpire(old(loader.rest), points) == ParseItems(loader.rest, n - i, points, expire.times)
    {
      var key := LoadKey(loader, points);
      if key.None? { return None; }
      var time := loader.Load();
      if time.None? { return None; }
      expire.InsertLoaded(key.value, AsTime(time.value));
      i := i + 1;
    }
    r := Some(expire);
  }

  method LoadTerms(loader: Loader, num: nat) returns (r: Option<seq<TermId>>)
    modifies loader
    ensures r.None? <==> |old(loader.rest)| < num
    ensures r.Some? ==> r.value == AsNats(old(loader.rest)[..num]) && loader.rest == old(loader.rest)[num..]
  {
    var terms: seq<TermId> := [];
    var j := 0;
    while j < num
      invariant 0 <= j <= num && j <= |old(loader.rest)| && loader.rest == old(loader.rest)[j..]
      invariant terms == AsNats(old(loader.rest)[..j])
    {
      var w := loader.Load();
      if w.None? { return None; }
      terms := terms + [AsNat(w.value)];
      j := j + 1;
    }
    r := Some(terms);
  }

  method LoadDocTerms(loader: Loader) returns (r: Option<map<DocId, seq<TermId>>>)
    modifies loader
    ensures match r
            case None => ParseDocTerms(old(loader.rest)) == None
            case Some(docTerms) => ParseDocTerms(old(loader.rest)) == Some((docTerms, loader.rest))
  {
    hide AsNats;
    var size := loader.Load();
    if size.None? { return None; }
    var docTerms: map<DocId, seq<TermId>> := map[];
    var n := AsNat(size.value);
    var i := 0;
    while i < n
      invariant 0 <= i <= n
      invariant ParseDocTerms(old(loader.rest)) == ParseDocs(loader.rest, n - i, docTerms)
    {
      ghost var words := loader.rest;
      var doc := loader.Load();
      if doc.None? { return None; }
      var num := loader.Load();
      if num.None? { return None; }
      var terms := LoadTerms(loader, AsNat(num.value));
      if terms.None? { return None; }
      assert words[1..][1..] == words[2..] && words[2..][AsNat(num.value)..] == words[2 + AsNat(num.value)..];
      assert words[2..][..AsNat(num.value)] == words[2..2 + AsNat(num.value)];
      if AsNat(num.value) > 0 && AsNat(doc.value) !in docTerms {
        docTerms := docTerms[AsNat(doc.value) := terms.value];
      }
      i := i + 1;
    }
    r := Some(docTerms);
  }

  /** The loaded parts are those of an index that holds `rows`. */
  ghost predicate Fits(parts: RowParts, rows: Rows) {
    Lists(parts.docTerms, rows) && Inverts(parts.live, rows) && Keyed(rows, parts.times)
  }

  ghost function PartsOf(rows: RowIndex.Rows): RowParts
    reads rows, rows.index, rows.expire
  {
    RowParts(rows.index.live, rows.expire.times, rows.docTerms)
  }

  /**
   * Which parts make a row index: the lists hold exactly the remembered terms of the valid documents, every
   * document has a time, and nothing but documents has.
   */
  ghost predicate Consistent(parts: RowParts) {
    && (forall t, d {:trigger Cell(parts.live, t, d)} ::
          Cell(parts.live, t, d).Some? <==> d != 0 && d in parts.docTerms && t in parts.docTerms[d])
    && (forall d :: d in parts.docTerms ==> RowKey(d) in parts.times)
    && (forall k :: k in parts.times ==> k.term == 0)
  }

  /** The table such parts hold; nobody can read the weights of the invalid document. */
  ghost function RowsOf(parts: RowParts): Rows {
    map d | d in parts.docTerms ::
      map t | t in parts.docTerms[d] :: if Cell(parts.live, t, d).Some? then Cell(parts.live, t, d).value else 0.0
  }

  /** Parts fit some table exactly when they are consistent. */
  lemma ConsistentIff(parts: RowParts)
    ensures (exists rows :: Fits(parts, rows)) <==> Consistent(parts)
    ensures Consistent(parts) ==> Fits(parts, RowsOf(parts))
  {
    if Consistent(parts) {
      var rows := RowsOf(parts);
      forall t, d ensures Cell(parts.live, t, d) == if d == 0 then None else RowCell(rows, t, d) {
      }
      assert Fits(parts, rows);
    }
    forall rows | Fits(parts, rows) ensures Consistent(parts) { FitsConsistent(parts, rows); }
  }

  lemma FitsConsistent(parts: RowParts, rows: Rows)
    requires Fits(parts, rows)
    ensures Consistent(parts)
  {
    forall t, d ensures Cell(parts.live, t, d).Some? <==> d != 0 && d in parts.docTerms && t in parts.docTerms[d] {
      assert Cell(parts.live, t, d) == if d == 0 then None else RowCell(rows, t, d);
    }
  }

  /** The table a loaded index is taken to hold: the hoped-for one if it fits, else the one the parts say. */
  ghost function Taken(parts: RowParts, hoped: Rows): Rows {
    if Fits(parts, hoped) then hoped else RowsOf(parts)
  }

  lemma TakenFits(parts: RowParts, hoped: Rows)
    ensures Fits(parts, Taken(parts, hoped)) <==> Consistent(parts)
  {
    hide Consistent, RowsOf, Fits;
    ConsistentIff(parts);
  }

  /** A row index from any stream: it keeps its invariants exactly when the parts in the stream are consistent. */
  method LoadRows(loader: Loader, maxSize: nat, ghost hoped: Rows) returns (r: Option<RowIndex.Rows>)
    modifies loader
    ensures match r
            case None => ParseRowIndex(old(loader.rest)) == None
            case Some(loaded) =>
              && ParseRowIndex(old(loader.rest)) == Some((PartsOf(loaded), loader.rest))
              && fresh(loaded) && fresh(loaded.index) && fresh(loaded.expire) && fresh(loaded.index.published)
              && loaded.index.pending == map[] && ExactBounds(loaded.index)
              && loaded.maxSize == maxSize && loaded.rows == loaded.applied == Taken(PartsOf(loaded), hoped)
              && (loaded.Valid() <==> Consistent(PartsOf(loaded)))
  {
    hide ParseIndex, ParseExpire, ParseDocTerms, Lists, Inverts, Keyed, ExactBounds, Consistent, Taken;
    var index := LoadIndex(loader);
    if index.None? { return None; }
    var expire := LoadExpire(loader, false);
    if expire.None? { return None; }
    var docTerms := LoadDocTerms(loader);
    if docTerms.None? { return None; }
    ghost var parts := RowParts(index.value.live, expire.value.times, docTerms.value);
    TakenFits(parts, hoped);
    var loaded := new RowIndex.Rows.FromParts(
      maxSize, index.value, expire.value, docTerms.value, Taken(parts, hoped));
    assert loaded.index.View() == loaded.index.live;
    r := Some(loaded);
  }

  ghost predicate FitsPoints(parts: PointParts, points: PointIndex.Weights) {
    PointIndex.Holds(parts.live, points) && points.Keys == parts.times.Keys
  }

  /** Which parts make a point index: the lists hold exactly the timed points of the valid documents. */
  ghost predicate ConsistentPoints(parts: PointParts) {
    forall t, d {:trigger Cell(parts.live, t, d)} ::
      Cell(parts.live, t, d).Some? <==> d != 0 && Key(t, d) in parts.times
  }

  ghost function PointsOf(parts: PointParts): PointIndex.Weights {
    map k | k in parts.times ::
      if Cell(parts.live, k.term, k.doc).Some? then Cell(parts.live, k.term, k.doc).value else 0.0
  }

  lemma ConsistentPointsIff(parts: PointParts)
    ensures (exists points :: FitsPoints(parts, points)) <==> ConsistentPoints(parts)
    ensures ConsistentPoints(parts) ==> FitsPoints(parts, PointsOf(parts))
  {
    if ConsistentPoints(parts) {
      var points := PointsOf(parts);
      assert points.Keys == parts.times.Keys;
      assert FitsPoints(parts, points);
    }
    forall points | FitsPoints(parts, points) ensures ConsistentPoints(parts) {
      forall t, d ensures Cell(parts.live, t, d).Some? <==> d != 0 && Key(t, d) in parts.times {
        assert Key(t, d) in points <==> Key(t, d) in parts.times;
      }
    }
  }

  ghost function TakenPoints(parts: PointParts, hoped: PointIndex.Weights): PointIndex.Weights {
    if FitsPoints(parts, hoped) then hoped else PointsOf(parts)
  }

  lemma TakenPointsFit(parts: PointParts, hoped: PointIndex.Weights)
    ensures FitsPoints(parts, TakenPoints(parts, hoped)) <==> ConsistentPoints(parts)
  {
    hide ConsistentPoints, PointsOf, FitsPoints;
    ConsistentPointsIff(parts);
  }

  ghost function PointPartsOf(points: PointIndex.Points): PointParts
    reads points, points.index, points.expire
  {
    PointParts(points.index.live, points.expire.times)
  }

  method LoadPoints(loader: Loader, maxSize: nat, ghost hoped: PointIndex.Weights)
    returns (r: Option<PointIndex.Points>)
    modifies loader
    ensures match r
            case None => ParsePointIndex(old(loader.rest)) == None
            case Some(loaded) =>
              && ParsePointIndex(old(loader.rest)) == Some((PointPartsOf(loaded), loader.rest))
              && fresh(loaded) && fresh(loaded.index) && fresh(loaded.expire) && fresh(loaded.index.published)
              && loaded.index.pending == map[] && ExactBounds(loaded.index)
              && loaded.maxSize == maxSize
              && loaded.points == loaded.applied == TakenPoints(PointPartsOf(loaded), hoped)
              && (loaded.Valid() <==> ConsistentPoints(PointPartsOf(loaded)))
  {
    hide ParseIndex, ParseExpire, PointIndex.Holds, ExactBounds, ConsistentPoints, TakenPoints;
    var index := LoadIndex(loader);
    if index.None? { return None; }
    var expire := LoadExpire(loader, true);
    if expire.None? { return None; }
    ghost var parts := PointParts(index.value.live, expire.value.times);
    TakenPointsFit(parts, hoped);
    var loaded := new PointIndex.Points.FromParts(maxSize, index.value, expire.value, TakenPoints(parts, hoped));
    assert loaded.index.View() == loaded.index.live;
    r := Some(loaded);
  }

  // ----- Dumping ------------------------------------------------------------------------------------------

  /** read_dump: drain a cursor into the stream and close the list with the invalid id. */
  method DumpList(list: PostingList, dumper: Dumper)
    requires list.Valid()
    modifies dumper
    ensures dumper.words == old(dumper.words) + ListWords(InKeyOrder(list.posting))
  {
    hide InKeyOrder, Seek, Sorted, ListWords;
    var reader := new PostingCursor(list);
    ghost var order := reader.Order();
    InKeyOrderContents(list.posting);
    StartOf(order, 0);
    ListWordsEnds(order);
    var doc := reader.Next(0);
    while doc != 0
      invariant reader.Valid() && reader.list == list && reader.Order() == order && doc == reader.Current()
      invariant dumper.words + ListWords(order[reader.iter..]) == old(dumper.words) + ListWords(order)
      decreases |order| - reader.iter
    {
      var weight := reader.Read();
      ListWordsStep(dumper.words, order, reader.iter);
      dumper.Dump(doc as real);
      dumper.Dump(weight);
      SeekOne(order, reader.iter);
      doc := reader.Next(doc);
    }
    Finished(order, 0, reader.iter);
    dumper.Dump(doc as real);
  }

  method DumpIndex(index: Index, dumper: Dumper) returns (ghost order: seq<TermId>)
    requires index.Valid()
    modifies dumper
    ensures Enumerates(order, index.live.Keys)
    ensures dumper.words == old(dumper.words) + IndexWords(order, index.live)
  {
    hide ListWords, InKeyOrder, TermsWords, Visited, Enumerates, Index.PendingOk;
    dumper.Dump(|index.index| as real);
    order := [];
    var todo := index.index.Keys;
    NothingWritten(index.live, map[]);
    NoneVisited(todo);
    while todo != {}
      invariant Visited(order, todo, index.live.Keys)
      invariant dumper.words == old(dumper.words) + [|index.index| as real] + TermsWords(order, index.live)
      decreases |todo|
    {
      var t :| t in todo;
      dumper.Dump(t as real);
      DumpList(index.index[t], dumper);
      TermsWordsStep(old(dumper.words) + [|index.index| as real], order, t, index.live);
      Visit(order, todo, index.live.Keys, t);
      order, todo := order + [t], todo - {t};
    }
  }

  method DumpKey(key: Key, points: bool, dumper: Dumper)
    modifies dumper
    ensures dumper.words == old(dumper.words) + KeyWords(key, points)
  {
    if points { dumper.Dump(key.term as real); }
    dumper.Dump(key.doc as real);
  }

  method DumpExpire(expire: Expiries, points: bool, dumper: Dumper)
    requires expire.Valid()
    modifies dumper
    ensures dumper.words == old(dumper.words) + ExpireWords(Ordered(expire.table), points)
  {
    hide Ordered, KeyWords, ItemsWords, ExpireWords;
    OrderedIs(expire.table);
    var items := Ordered(expire.table);
    dumper.Dump(|expire.table| as real);
    ItemsWordsEnds(items, points);
    var i := 0;
    while i < |items|
      invariant 0 <= i <= |items|
      invariant dumper.words + ItemsWords(items[i..], points) == old(dumper.words) + ExpireWords(items, points)
    {
      ItemsWordsStep(dumper.words, items, i, points);
      DumpKey(items[i].key, points, dumper);
      dumper.Dump(items[i].time as real);
      i := i + 1;
    }
  }

  method DumpDocTerms(docTerms: map<DocId, seq<TermId>>, dumper: Dumper) returns (ghost order: seq<DocId>)
    modifies dumper
    ensures Enumerates(order, docTerms.Keys)
    ensures dumper.words == old(dumper.words) + DocTermsWords(order, docTerms)
  {
    hide NatWords, DocsWords, Visited, Enumerates;
    dumper.Dump(|docTerms| as real);
    order := [];
    var todo := docTerms.Keys;
    NothingWritten(map[], docTerms);
    NoneVisited(todo);
    while todo != {}
      invariant Visited(order, todo, docTerms.Keys)
      invariant dumper.words == old(dumper.words) + [|docTerms| as real] + DocsWords(order, docTerms)
      decreases |todo|
    {
      var d :| d in todo;
      DumpRecord(d, docTerms[d], dumper);
      DocsWordsAppend(order, d, docTerms);
      Visit(order, todo, docTerms.Keys, d);
      order, todo := order + [d], todo - {d};
    }
  }

  method DumpRecord(d: DocId, terms: seq<TermId>, dumper: Dumper)
    modifies dumper
    ensures dumper.words == old(dumper.words) + ([d as real, |terms| as real] + NatWords(terms))
  {
    dumper.Dump(d as real);
    dumper.Dump(|terms| as real);
    var j := 0;
    while j < |terms|
      invariant 0 <= j <= |terms|
      invariant dumper.words == old(dumper.words) + ([d as real, |terms| as real] + NatWords(terms[..j]))
    {
      dumper.Dump(terms[j] as real);
      assert NatWords(terms[..j + 1]) == NatWords(terms[..j]) + [terms[j] as real];
      j := j + 1;
    }
    assert terms[..j] == terms;
  }

  method DumpRows(rows: RowIndex.Rows, dumper: Dumper) returns (ghost order: seq<TermId>, ghost docs: seq<DocId>)
    requires rows.Valid()
    modifies dumper
    ensures Enumerates(order, rows.index.live.Keys) && Enumerates(docs, rows.docTerms.Keys)
    ensures dumper.words ==
            old(dumper.words) + RowWords(order, rows.index.live, Ordered(rows.expire.table), docs, rows.docTerms)
  {
    hide IndexWords, ExpireWords, DocTermsWords, Ordered, Lists, Inverts, Keyed, Bijection;
    order := DumpIndex(rows.index, dumper);
    DumpExpire(rows.expire, false, dumper);
    docs := DumpDocTerms(rows.docTerms, dumper);
  }

  lemma PointsParts(points: PointIndex.Points)
    requires points.Valid()
    ensures points.index.Valid() && points.expire.Valid()
  {
  }

  /**
   * A point index is dumped without the lock its updates take: the lists in one step, the expire table in another,
   * and whatever runs in between changes only the second.
   */
  method DumpPoints(points: PointIndex.Points, dumper: Dumper, ops: seq<PointIndex.PointOp>)
    returns (ghost order: seq<TermId>, ghost trace: seq<PointIndex.PointState>)
    requires points.Valid() && dumper !in points.index.private
    modifies dumper, points, points.index, points.expire, points.index.private
    ensures points.Valid() && PointIndex.PointRun(trace, ops, points.maxSize)
    ensures trace[0] == old(points.Abstract()) && trace[|ops|] == points.Abstract()
    ensures Enumerates(order, old(points.index.live).Keys)
    ensures dumper.words ==
            old(dumper.words) + PointWords(order, old(points.index.live), Ordered(points.expire.table))
  {
    hide IndexWords, ExpireWords, Ordered, Enumerates, PointIndex.Points.Valid, PointIndex.PointRun;
    PointsParts(points);
    order := DumpIndex(points.index, dumper);
    trace := points.Execute(ops);
    PointsParts(points);
    DumpExpire(points.expire, true, dumper);
  }

  // ----- There and back ----------------------------------------------------------------------------------

  /** The documents whose row has at least one term. */
  ghost function NonEmpty(rows: Rows): Rows {
    map d | d in rows && rows[d] != map[] :: rows[d]
  }

  /** Forgetting empty rows changes no cell; it is what the loaded document-term map describes. */
  lemma NonEmptyFits(parts: RowParts, rows: Rows)
    requires Lists(parts.docTerms, rows) && Keyed(rows, parts.times)
    ensures Fits(parts.(docTerms := WithTerms(parts.docTerms)), NonEmpty(rows)) <==> Inverts(parts.live, rows)
  {
    var kept := WithTerms(parts.docTerms);
    forall d | d in rows ensures parts.docTerms[d] != [] <==> rows[d] != map[] {
      if parts.docTerms[d] != [] { assert parts.docTerms[d][0] in rows[d]; }
      if rows[d] != map[] {
        var t :| t in rows[d];
        assert t in parts.docTerms[d];
      }
    }
    assert Lists(kept, NonEmpty(rows));
    forall t, d ensures RowCell(NonEmpty(rows), t, d) == RowCell(rows, t, d) {
    }
  }

  /** No pending list says anything the published one does not; true when nothing is pending. */
  ghost predicate SameLists(live: Table, pending: Table) {
    forall t :: t in pending ==> pending[t] == At(live, t)
  }

  /** Every pending list holds the same documents as the published one, with whatever weights. */
  ghost predicate SameDocuments(live: Table, pending: Table) {
    forall t :: t in pending ==> pending[t].Keys == At(live, t).Keys
  }

  lemma SameListsSame(live: Table, pending: Table)
    ensures SameLists(live, pending) ==> SameDocuments(live, pending)
    ensures pending == map[] ==> SameLists(live, pending)
  {
  }

  lemma SameListsIff(live: Table, pending: Table)
    ensures SameLists(live, pending) <==> forall t, d :: Cell(live, t, d) == Cell(live + pending, t, d)
  {
    if forall t, d :: Cell(live, t, d) == Cell(live + pending, t, d) {
      forall t | t in pending ensures pending[t] == At(live, t) {
        forall d ensures d in pending[t] <==> d in At(live, t) {
          assert Cell(live, t, d) == Cell(live + pending, t, d);
        }
        forall d | d in pending[t] ensures pending[t][d] == At(live, t)[d] {
          assert Cell(live, t, d) == Cell(live + pending, t, d);
        }
      }
    }
  }

  lemma SameDocumentsIff(live: Table, pending: Table)
    ensures SameDocuments(live, pending) <==>
            forall t, d :: Cell(live, t, d).Some? <==> Cell(live + pending, t, d).Some?
  {
    if forall t, d :: Cell(live, t, d).Some? <==> Cell(live + pending, t, d).Some? {
      forall t | t in pending ensures pending[t].Keys == At(live, t).Keys {
        forall d ensures d in pending[t] <==> d in At(live, t) {
          assert Cell(live, t, d).Some? <==> Cell(live + pending, t, d).Some?;
        }
      }
    }
  }

  /** The published lists are up to date with the rows exactly when the pending ones repeat them. */
  lemma UpToDateIff(live: Table, pending: Table, rows: Rows)
    requires Inverts(live + pending, rows)
    ensures Inverts(live, rows) <==> SameLists(live, pending)
  {
    hide SameLists;
    SameListsIff(live, pending);
    if Inverts(live, rows) {
      forall t, d ensures Cell(live, t, d) == Cell(live + pending, t, d) {
        assert Cell(live, t, d) == if d == 0 then None else RowCell(rows, t, d);
      }
    }
  }

  /** What is dumped is consistent exactly when the pending lists hold the documents of the published ones. */
  lemma DumpedIff(live: Table, pending: Table, times: map<Key, int>, docTerms: map<DocId, seq<TermId>>, rows: Rows)
    requires Lists(docTerms, rows) && Keyed(rows, times) && Inverts(live + pending, rows)
    ensures Consistent(RowParts(live, times, WithTerms(docTerms))) <==> SameDocuments(live, pending)
  {
    hide SameDocuments;
    SameDocumentsIff(live, pending);
    var kept := WithTerms(docTerms);
    forall t, d ensures Cell(live + pending, t, d).Some? <==> d != 0 && d in kept && t in kept[d] {
      assert Cell(live + pending, t, d) == if d == 0 then None else RowCell(rows, t, d);
    }
    if Consistent(RowParts(live, times, kept)) {
      forall t, d ensures Cell(live, t, d).Some? <==> Cell(live + pending, t, d).Some? {
      }
    }
  }

  lemma SourceFits(source: RowIndex.Rows)
    requires source.Valid()
    ensures var parts := PartsOf(source).(docTerms := WithTerms(source.docTerms));
            && (Fits(parts, NonEmpty(source.rows)) <==> SameLists(source.index.live, source.index.pending))
            && (Consistent(parts) <==> SameDocuments(source.index.live, source.index.pending))
  {
    hide Fits, Lists, Inverts, Keyed, Index.Valid, Consistent, SameLists, SameDocuments;
    NonEmptyFits(PartsOf(source), source.rows);
    UpToDateIff(source.index.live, source.index.pending, source.rows);
    DumpedIff(source.index.live, source.index.pending, source.expire.times, source.docTerms, source.rows);
  }

  lemma Saved(source: RowIndex.Rows)
    requires source.Valid()
    ensures Bijection(source.expire.times, source.expire.table) && forall k :: k in source.expire.times ==> k.term == 0
    ensures forall t :: t in source.index.live ==> 0 !in source.index.live[t]
  {
  }

  /** The words of a dumped row index are read back as its parts, to the end of the stream. */
  method SaveRows(source: RowIndex.Rows) returns (words: seq<Word>)
    requires source.Valid()
    ensures ParseRowIndex(words) == Some((PartsOf(source).(docTerms := WithTerms(source.docTerms)), []))
  {
    hide RowWords, ParseRowIndex, WithTerms, Bijection, Ordered, Enumerates, RowIndex.Rows.Valid;
    Saved(source);
    var dumper := new Dumper();
    ghost var order, docs := DumpRows(source, dumper);
    words := dumper.words;
    assert words == RowWords(order, source.index.live, Ordered(source.expire.table), docs, source.docTerms) + [];
    RowRoundTrip(order, source.index.live, source.expire.times, source.expire.table, docs, source.docTerms, []);
  }

  /**
   * Dump and load a row index. The stream is consumed to its end; the copy has the published lists with exact
   * bounds, the expiry times, and the terms of every document that has any. It keeps the invariants of an index
   * exactly when the pending lists hold the same documents as the published ones, and it holds the same table, up
   * to empty rows, exactly when they are the same lists, as they are when nothing is pending.
   */
  method ReloadRows(source: RowIndex.Rows) returns (copy: RowIndex.Rows, left: seq<Word>)
    requires source.Valid()
    ensures left == [] && fresh(copy) && copy.maxSize == source.maxSize
    ensures copy.index.live == source.index.live && copy.index.pending == map[] && ExactBounds(copy.index)
    ensures copy.expire.times == source.expire.times && copy.docTerms == WithTerms(source.docTerms)
    ensures copy.Valid() <==> SameDocuments(source.index.live, source.index.pending)
    ensures copy.Valid() && copy.rows == copy.applied == NonEmpty(source.rows) <==>
            SameLists(source.index.live, source.index.pending)
  {
    hide ParseRowIndex, WithTerms, NonEmpty, ExactBounds, Fits, RowIndex.Rows.Valid, Consistent, RowsOf;
    SourceFits(source);
    TakenFits(PartsOf(source).(docTerms := WithTerms(source.docTerms)), NonEmpty(source.rows));
    SameListsSame(source.index.live, source.index.pending);
    var words := SaveRows(source);
    var loader := new Loader(words);
    var loaded := LoadRows(loader, source.maxSize, NonEmpty(source.rows));
    copy, left := loaded.value, loader.rest;
  }

  /** A term a valid document gained since the last apply makes what is dumped inconsistent. */
  lemma GainedTerm(source: RowIndex.Rows, t: TermId, d: DocId)
    requires source.Valid() && d != 0
    requires RowCell(source.rows, t, d).Some? && RowCell(source.applied, t, d).None?
    ensures !SameDocuments(source.index.live, source.index.pending)
    ensures d in WithTerms(source.docTerms) && t in WithTerms(source.docTerms)[d]
    ensures Cell(source.index.live, t, d).None?
  {
    hide Index.Valid, SameDocuments;
    SameDocumentsIff(source.index.live, source.index.pending);
    assert Cell(source.index.View(), t, d) == RowCell(source.rows, t, d);
    assert Cell(source.index.live, t, d) == RowCell(source.applied, t, d);
  }

  /** One update that was not applied is enough: the copy remembers a term of a document without its posting. */
  method UnappliedUpdate() returns (copy: RowIndex.Rows)
    ensures !copy.Valid() && forall rows :: !Fits(PartsOf(copy), rows)
    ensures 1 in copy.docTerms && 7 in copy.docTerms[1] && Cell(copy.index.live, 7, 1).None?
  {
    hide RowIndex.Rows.Valid, SameDocuments, SameLists, Fits, Consistent, WithTerms;
    var source := new RowIndex.Rows(0);
    var ret := source.Update(1, [(7, 2.0)], 5);
    assert RowCell(source.rows, 7, 1) == Some(2.0) && RowCell(source.applied, 7, 1).None?;
    GainedTerm(source, 7, 1);
    SourceFits(source);
    ghost var left;
    copy, left := ReloadRows(source);
    ConsistentIff(PartsOf(copy));
  }

  /** A changed weight alone gives a consistent copy, of the table before the change. */
  lemma WeightChange()
    ensures var live: Table, pending: Table := map[7 := map[1 := 1.0]], map[7 := map[1 := 2.0]];
            && SameDocuments(live, pending) && !SameLists(live, pending)
            && Fits(RowParts(live, map[RowKey(1) := 5], map[1 := [7]]), map[1 := map[7 := 1.0]])
            && !Inverts(live, map[1 := map[7 := 2.0]])
  {
    var live: Table, pending: Table := map[7 := map[1 := 1.0]], map[7 := map[1 := 2.0]];
    assert pending[7][1] != live[7][1];
    assert Cell(live, 7, 1) != RowCell(map[1 := map[7 := 2.0]], 7, 1);
  }

  // ----- There and back, point by point ------------------------------------------------------------------

  /** The points of the valid documents that the lists hold. */
  ghost function ListedPoints(live: Table): set<Key> {
    set t, d | t in live && d in live[t] && d != 0 :: Key(t, d)
  }

  /** The points of the valid documents that have a time. */
  ghost function TimedPoints(times: map<Key, int>): set<Key> {
    set k | k in times && k.doc != 0
  }

  /** Lists and times make a point index exactly when they name the same valid points. */
  lemma SamePointsIff(live: Table, times: map<Key, int>)
    requires forall t :: t in live ==> 0 !in live[t]
    ensures ConsistentPoints(PointParts(live, times)) <==> ListedPoints(live) == TimedPoints(times)
  {
    forall t, d ensures Key(t, d) in ListedPoints(live) <==> Cell(live, t, d).Some? {
    }
    if ListedPoints(live) == TimedPoints(times) {
      forall t, d ensures Cell(live, t, d).Some? <==> d != 0 && Key(t, d) in times {
        assert Key(t, d) in ListedPoints(live) <==> Key(t, d) in TimedPoints(times);
      }
    }
    if ConsistentPoints(PointParts(live, times)) {
      forall k ensures k in ListedPoints(live) <==> k in TimedPoints(times) {
        assert k == Key(k.term, k.doc);
        assert Cell(live, k.term, k.doc).Some? <==> k.doc != 0 && k in times;
      }
    }
  }

  lemma ListedValid(source: PointIndex.Points)
    requires source.Valid()
    ensures forall t :: t in source.index.live ==> 0 !in source.index.live[t]
  {
    hide PointIndex.Holds, Index.PendingOk;
  }

  /** The words of a dumped point index: the lists as of the first part, the times as of the second. */
  method SavePoints(source: PointIndex.Points, ops: seq<PointIndex.PointOp>)
    returns (words: seq<Word>, ghost trace: seq<PointIndex.PointState>)
    requires source.Valid()
    modifies source, source.index, source.expire, source.index.private
    ensures source.Valid() && PointIndex.PointRun(trace, ops, source.maxSize)
    ensures trace[0] == old(source.Abstract()) && trace[|ops|] == source.Abstract()
    ensures ParsePointIndex(words) == Some((PointParts(old(source.index.live), source.expire.times), []))
  {
    hide PointWords, ParsePointIndex, Bijection, Ordered, Enumerates, PointIndex.Points.Agrees, PointIndex.PointRun;
    ghost var live := source.index.live;
    ListedValid(source);
    var dumper := new Dumper();
    ghost var order;
    order, trace := DumpPoints(source, dumper, ops);
    words := dumper.words;
    assert words == PointWords(order, live, Ordered(source.expire.table)) + [];
    PointRoundTrip(order, live, source.expire.times, source.expire.table, []);
  }

  /**
   * Dump and load a point index while other operations run between the two parts of the dump. The copy has the lists
   * published before them and the times after them. It keeps its invariants exactly when these name the same valid
   * points, and it holds the points of before exactly when no pending list differed from the published one and the
   * same points are timed afterwards. Without operations the first says that pending lists hold the published
   * documents, and the second that they are the published lists.
   */
  method ReloadPoints(source: PointIndex.Points, ops: seq<PointIndex.PointOp>)
    returns (copy: PointIndex.Points, left: seq<Word>, ghost trace: seq<PointIndex.PointState>)
    requires source.Valid()
    modifies source, source.index, source.expire, source.index.private
    ensures source.Valid() && PointIndex.PointRun(trace, ops, source.maxSize)
    ensures trace[0] == old(source.Abstract()) && trace[|ops|] == source.Abstract()
    ensures left == [] && fresh(copy) && copy.maxSize == source.maxSize
    ensures copy.index.live == old(source.index.live) && copy.index.pending == map[] && ExactBounds(copy.index)
    ensures copy.expire.times == source.expire.times
    ensures copy.Valid() <==> ListedPoints(old(source.index.live)) == TimedPoints(source.expire.times)
    ensures copy.Valid() && copy.points == copy.applied == old(source.points) <==>
            && SameLists(old(source.index.live), old(source.index.pending))
            && source.expire.times.Keys == old(source.expire.times).Keys
    ensures ops == [] ==>
              (copy.Valid() <==> SameDocuments(old(source.index.live), old(source.index.pending)))
  {
    hide ParsePointIndex, FitsPoints, ExactBounds, PointIndex.Points.Valid, ConsistentPoints, PointsOf;
    hide ListedPoints, TimedPoints, SameLists, SameDocuments, PointIndex.PointRun;
    ghost var live, times, points := source.index.live, source.expire.times, source.points;
    ListedValid(source);
    PointsFit(source);
    var words;
    words, trace := SavePoints(source, ops);
    ghost var parts := PointParts(live, source.expire.times);
    SamePointsIff(live, source.expire.times);
    TakenPointsFit(parts, points);
    FitsLater(live, times, source.expire.times, points);
    var loader := new Loader(words);
    var loaded := LoadPoints(loader, source.maxSize, points);
    copy, left := loaded.value, loader.rest;
  }

  lemma FitsLater(live: Table, times: map<Key, int>, times': map<Key, int>, points: PointIndex.Weights)
    requires points.Keys == times.Keys
    ensures FitsPoints(PointParts(live, times'), points) <==>
            FitsPoints(PointParts(live, times), points) && times'.Keys == times.Keys
  {
  }

  lemma PointsFit(source: PointIndex.Points)
    requires source.Valid()
    ensures source.points.Keys == source.expire.times.Keys
    ensures FitsPoints(PointPartsOf(source), source.points) <==> SameLists(source.index.live, source.index.pending)
    ensures ConsistentPoints(PointPartsOf(source)) <==> SameDocuments(source.index.live, source.index.pending)
  {
    hide SameLists, SameDocuments, Index.Valid;
    PointsDumped(source.index.live, source.index.pending, source.expire.times, source.points);
  }

  lemma PointsDumped(live: Table, pending: Table, times: map<Key, int>, points: PointIndex.Weights)
    requires PointIndex.Holds(live + pending, points) && points.Keys == times.Keys
    ensures PointIndex.Holds(live, points) <==> SameLists(live, pending)
    ensures ConsistentPoints(PointParts(live, times)) <==> SameDocuments(live, pending)
  {
    hide SameLists, SameDocuments;
    SameListsIff(live, pending);
    SameDocumentsIff(live, pending);
    forall t, d ensures Cell(live + pending, t, d).Some? <==> d != 0 && Key(t, d) in times {
      assert Key(t, d) in points <==> Key(t, d) in times;
    }
    if PointIndex.Holds(live, points) {
      forall t, d ensures Cell(live, t, d) == Cell(live + pending, t, d) {
        assert Cell(live, t, d) == if d != 0 && Key(t, d) in points then Some(points[Key(t, d)]) else None;
      }
    }
    if ConsistentPoints(PointParts(live, times)) {
      forall t, d ensures Cell(live, t, d).Some? <==> Cell(live + pending, t, d).Some? {
      }
    }
  }

  lemma GainedPoint(source: PointIndex.Points, t: TermId, d: DocId)
    requires source.Valid() && d != 0 && Key(t, d) in source.points && Key(t, d) !in source.applied
    ensures !SameDocuments(source.index.live, source.index.pending)
    ensures Key(t, d) in source.expire.times && Cell(source.index.live, t, d).None?
  {
    hide Index.Valid, SameDocuments;
    SameDocumentsIff(source.index.live, source.index.pending);
    assert Cell(source.index.View(), t, d) == Some(source.points[Key(t, d)]);
    assert Cell(source.index.live, t, d).None?;
  }

  /** A point that was not applied: the copy has its time and no posting. */
  method UnappliedPoint() returns (copy: PointIndex.Points)
    ensures !copy.Valid() && forall points :: !FitsPoints(PointPartsOf(copy), points)
    ensures Key(7, 1) in copy.expire.times && Cell(copy.index.live, 7, 1).None?
  {
    hide PointIndex.Points.Valid, SameDocuments, SameLists, FitsPoints, ConsistentPoints;
    var source := new PointIndex.Points(0);
    var ret := source.Update(1, 7, 2.0, 5);
    GainedPoint(source, 7, 1);
    PointsFit(source);
    ghost var left, trace;
    copy, left, trace := ReloadPoints(source, []);
    ConsistentPointsIff(PointPartsOf(copy));
  }

  /** A point of time 5 outlives an expiry at time 0 without limit. */
  lemma Outlives(times: map<Key, int>, table: set<Item>, times': map<Key, int>, table': set<Item>, k: Key)
    requires Bijection(times, table) && Bijection(times', table') && Expires(table, table - table', 0, 0)
    requires k in times && times[k] == 5
    ensures k in times' && times'[k] == 5
  {
    var x := Item(k, 5);
    assert x in table && !Due(x, 0);
    assert x !in table - table';
  }

  /** An apply at time 9 leaves no point of time 5. */
  lemma Expired(trace: seq<PointIndex.PointState>, maxSize: nat, k: Key)
    requires PointIndex.PointRun(trace, [PointIndex.Publish(9)], maxSize)
    requires k in trace[0].times && trace[0].times[k] == 5
    ensures k !in trace[1].times
  {
    assert PointIndex.PointStep(trace[0], [PointIndex.Publish(9)][0], trace[0 + 1], maxSize);
    var gone :| PointIndex.Dropped(trace[0], gone, trace[1], 9, maxSize);
    assert Item(k, 5) in ItemsOf(trace[0].times) && Due(Item(k, 5), 9);
    assert Item(k, 5) in gone;
  }

  /**
   * With nothing pending, an apply between the two parts of the dump expires a point whose list was dumped already:
   * the copy has its posting and no time.
   */
  method ExpiredBetween() returns (copy: PointIndex.Points)
    ensures !copy.Valid() && forall points :: !FitsPoints(PointPartsOf(copy), points)
    ensures Cell(copy.index.live, 7, 1) == Some(2.0) && Key(7, 1) !in copy.expire.times
  {
    hide SameDocuments, SameLists, FitsPoints, ConsistentPoints, ListedPoints, TimedPoints;
    hide Expires, Bijection, PointIndex.PointRun, PointIndex.PointStep, PointIndex.Points.Agrees;
    var source := new PointIndex.Points(0);
    var ret := source.Update(1, 7, 2.0, 5);
    ghost var times, table := source.expire.times, source.expire.table;
    var retApply, retExpire := source.Apply(0);
    Outlives(times, table, source.expire.times, source.expire.table, Key(7, 1));
    PublishedPoint(source, 7, 1);
    ghost var left, trace;
    copy, left, trace := ReloadPoints(source, [PointIndex.Publish(9)]);
    Expired(trace, 0, Key(7, 1));
    Unmatched(PointPartsOf(copy), 7, 1);
    ListedNotTimed(copy.index.live, copy.expire.times, 7, 1);
  }

  lemma PublishedPoint(source: PointIndex.Points, t: TermId, d: DocId)
    requires source.Valid() && d != 0 && Key(t, d) in source.applied
    ensures Cell(source.index.live, t, d) == Some(source.applied[Key(t, d)])
  {
    hide Index.Valid;
  }

  lemma Unmatched(parts: PointParts, t: TermId, d: DocId)
    requires Cell(parts.live, t, d).Some? && Key(t, d) !in parts.times
    ensures forall points :: !FitsPoints(parts, points)
  {
    hide FitsPoints;
    ConsistentPointsIff(parts);
  }

  lemma ListedNotTimed(live: Table, times: map<Key, int>, t: TermId, d: DocId)
    requires d != 0 && Cell(live, t, d).Some? && Key(t, d) !in times
    ensures ListedPoints(live) != TimedPoints(times)
  {
    assert Key(t, d) in ListedPoints(live);
  }
}
