/**
 * The words of a snapshot and how they are parsed. A word carries no tag: what it means depends only on what
 * the loader asks for at that point of the stream.
 */
module SnapshotFormat {
  import opened Wrappers
  import opened Postings
  import opened BaseIndex
  import opened ExpireTable

  type Word = real

  /** A word read as an id or a size. */
  function AsNat(w: Word): nat {
    if w < 0.0 then 0 else w.Floor
  }

  /** A word read as a time. */
  function AsTime(w: Word): int {
    w.Floor
  }

  /** What a load gives: a value and the rest of the stream, or an exception at the end of the file. */
  type Parsed<T> = Option<(T, seq<Word>)>

  // ----- Posting lists ------------------------------------------------------------------------------

  /** read_dump: the postings in order, closed by the invalid id. */
  function ListWords(s: seq<Posting>): seq<Word> {
    if |s| == 0 then [0.0] else [s[0].doc as real, s[0].weight] + ListWords(s[1..])
  }

  /** What the list constructor still reads once the cursor stands on `doc`. */
  function ParseFrom(doc: DocId, words: seq<Word>, acc: map<DocId, real>): Parsed<map<DocId, real>>
    decreases |words|, 0
  {
    if doc == 0 then Some((acc, words))
    else if |words| == 0 then None
    else ParseList(words[1..], doc, acc[doc := words[0]])
  }

  /** A list read from a SnapshotReader: documents at or below `current` are skipped. */
  function ParseList(words: seq<Word>, current: DocId, acc: map<DocId, real>): Parsed<map<DocId, real>>
    decreases |words|, 1
  {
    if |words| == 0 then None
    else
      var doc := AsNat(words[0]);
      if doc == 0 || doc > current then ParseFrom(doc, words[1..], acc)
      else if |words| == 1 then None
      else ParseList(words[2..], current, acc)
  }

  lemma Cons(a: Word, b: Word, s: seq<Word>, rest: seq<Word>)
    ensures ([a, b] + s + rest)[0] == a && ([a, b] + s + rest)[1] == b
    ensures ([a, b] + s + rest)[1..][0] == b && ([a, b] + s + rest)[1..][1..] == s + rest
    ensures ([a, b] + s + rest)[2..] == s + rest
  {
  }

  /** The tail of a dumped list, read after its first k postings. */
  lemma {:induction false} ListTail(s: seq<Posting>, k: nat, rest: seq<Word>)
    requires Sorted(s) && k <= |s|
    ensures ParseList(ListWords(s[k..]) + rest, if k == 0 then 0 else s[k - 1].doc, Contents(s[..k])) ==
            Some((Contents(s), rest))
    decreases |s| - k
  {
    if k == |s| {
      assert s[k..] == [] && s[..k] == s;
      assert ([0.0] + rest)[1..] == rest;
    } else {
      assert s[k..][1..] == s[k + 1..] && s[k..][0] == s[k];
      Cons(s[k].doc as real, s[k].weight, ListWords(s[k + 1..]), rest);
      assert s[..k + 1] == s[..k] + [s[k]];
      ContentsAppend(s[..k], s[k]);
      ListTail(s, k + 1, rest);
    }
  }

  /** Loading a dumped list gives the list and stops right behind it. */
  lemma ListRoundTrip(m: map<DocId, real>, rest: seq<Word>)
    requires 0 !in m
    ensures ParseList(ListWords(InKeyOrder(m)) + rest, 0, map[]) == Some((m, rest))
  {
    hide ParseList, ListWords, InKeyOrder;
    var s := InKeyOrder(m);
    InKeyOrderContents(m);
    assert s[0..] == s && s[..0] == [] && Contents([]) == map[];
    ListTail(s, 0, rest);
  }

  // ----- The index -------------------------------------------------------------------------------------

  /** A hash map is enumerated in some order that visits every key once. */
  ghost predicate Enumerates(order: seq<nat>, keys: set<nat>)
    ensures Enumerates(order, keys) ==> |order| == |keys| && forall k :: 0 <= k < |order| ==> order[k] in keys
  {
    && |order| == |keys|
    && (forall k :: 0 <= k < |order| ==> order[k] in keys)
    && (forall t :: t in keys ==> t in order)
  }

  function TermsWords(order: seq<TermId>, live: Table): seq<Word>
    requires forall k :: 0 <= k < |order| ==> order[k] in live
  {
    if |order| == 0 then []
    else [order[0] as real] + ListWords(InKeyOrder(live[order[0]])) + TermsWords(order[1..], live)
  }

  function IndexWords(order: seq<TermId>, live: Table): seq<Word>
    requires forall k :: 0 <= k < |order| ==> order[k] in live
  {
    [|order| as real] + TermsWords(order, live)
  }

  function ParseTerms(words: seq<Word>, n: nat, acc: Table): Parsed<Table>
    decreases n
  {
    if n == 0 then Some((acc, words))
    else if |words| == 0 then None
    else
      match ParseList(words[1..], 0, map[])
      case None => None
      case Some((m, rest)) => ParseTerms(rest, n - 1, acc[AsNat(words[0]) := m])
  }

  function ParseIndex(words: seq<Word>): Parsed<Table> {
    if |words| == 0 then None else ParseTerms(words[1..], AsNat(words[0]), map[])
  }

  /** The published lists of the terms in `order`. */
  ghost function Listed(order: seq<TermId>, live: Table): Table {
    map t | t in live && t in order :: live[t]
  }

  lemma {:induction false} TermsTail(order: seq<TermId>, k: nat, live: Table, rest: seq<Word>)
    requires k <= |order| && forall i :: 0 <= i < |order| ==> order[i] in live && 0 !in live[order[i]]
    ensures ParseTerms(TermsWords(order[k..], live) + rest, |order| - k, Listed(order[..k], live)) ==
            Some((Listed(order, live), rest))
    decreases |order| - k
  {
    hide ParseList, ListWords, InKeyOrder;
    if k == |order| {
      assert order[k..] == [] && order[..k] == order;
      assert [] + rest == rest;
    } else {
      var t, tail := order[k], TermsWords(order[k + 1..], live);
      assert order[k..][1..] == order[k + 1..] && order[k..][0] == t;
      var list := ListWords(InKeyOrder(live[t]));
      assert [t as real] + list + tail + rest == [t as real] + (list + (tail + rest));
      assert ([t as real] + (list + (tail + rest)))[1..] == list + (tail + rest);
      ListRoundTrip(live[t], tail + rest);
      assert Listed(order[..k], live)[t := live[t]] == Listed(order[..k + 1], live) by {
        assert order[..k + 1] == order[..k] + [t];
      }
      TermsTail(order, k + 1, live, rest);
    }
  }

  /** Loading a dumped index, enumerated in any order, gives the published table and stops right behind it. */
  lemma IndexRoundTrip(order: seq<TermId>, live: Table, rest: seq<Word>)
    requires Enumerates(order, live.Keys) && forall t :: t in live ==> 0 !in live[t]
    ensures ParseIndex(IndexWords(order, live) + rest) == Some((live, rest))
  {
    hide ParseTerms, TermsWords;
    var words := IndexWords(order, live) + rest;
    assert words[1..] == TermsWords(order, live) + rest;
    assert order[0..] == order && Listed(order[..0], live) == map[] && Listed(order, live) == live;
    TermsTail(order, 0, live, rest);
  }

  // ----- The expire table --------------------------------------------------------------------------------

  /** A row index keys the table with documents, a point index with (term, document) points. */
  function KeyWords(key: Key, points: bool): seq<Word> {
    (if points then [key.term as real] else []) + [key.doc as real]
  }

  function KeyOf(words: seq<Word>, points: bool): Key
    requires |words| >= if points then 2 else 1
  {
    if points then Key(AsNat(words[0]), AsNat(words[1])) else Key(0, AsNat(words[0]))
  }

  function ItemsWords(items: seq<Item>, points: bool): seq<Word> {
    if |items| == 0 then []
    else KeyWords(items[0].key, points) + [items[0].time as real] + ItemsWords(items[1..], points)
  }

  function ExpireWords(items: seq<Item>, points: bool): seq<Word> {
    [|items| as real] + ItemsWords(items, points)
  }

  /** A key that is already there keeps its time. */
  function ParseItems(words: seq<Word>, n: nat, points: bool, acc: map<Key, int>): Parsed<map<Key, int>>
    decreases n
  {
    if n == 0 then Some((acc, words))
    else
      var width := if points then 2 else 1;
      if |words| < width + 1 then None
      else
        var key := KeyOf(words, points);
        ParseItems(words[width + 1..], n - 1, points, if key in acc then acc else acc[key := AsTime(words[width])])
  }

  function ParseExpire(words: seq<Word>, points: bool): Parsed<map<Key, int>> {
    if |words| == 0 then None else ParseItems(words[1..], AsNat(words[0]), points, map[])
  }

  ghost function TimesOf(items: seq<Item>): map<Key, int> {
    if |items| == 0 then map[] else TimesOf(items[..|items| - 1])[items[|items| - 1].key := items[|items| - 1].time]
  }

  ghost predicate DistinctKeys(items: seq<Item>) {
    forall i, j :: 0 <= i < j < |items| ==> items[i].key != items[j].key
  }

  lemma {:induction false} TimesOfKeys(items: seq<Item>)
    ensures TimesOf(items).Keys == KeysOf(items)
  {
    if |items| > 0 {
      var front, last := items[..|items| - 1], items[|items| - 1];
      TimesOfKeys(front);
      assert items == front + [last];
      assert KeysOf(items) == KeysOf(front) + {last.key};
    }
  }

  lemma ItemRecord(x: Item, points: bool, tail: seq<Word>, rest: seq<Word>)
    requires !points ==> x.key.term == 0
    ensures var words := KeyWords(x.key, points) + [x.time as real] + tail + rest;
            var width := if points then 2 else 1;
            && |words| >= width + 1 && KeyOf(words, points) == x.key && AsTime(words[width]) == x.time
            && words[width + 1..] == tail + rest
  {
  }

  lemma TimesOfMore(items: seq<Item>, k: nat)
    requires k < |items| && DistinctKeys(items)
    ensures items[k].key !in TimesOf(items[..k])
    ensures TimesOf(items[..k + 1]) == TimesOf(items[..k])[items[k].key := items[k].time]
  {
    assert items[..k + 1][..k] == items[..k] && items[..k + 1][k] == items[k];
    TimesOfKeys(items[..k]);
    assert forall x :: x in items[..k] ==> x.key != items[k].key;
  }

  lemma {:induction false} ItemsTail(items: seq<Item>, k: nat, points: bool, rest: seq<Word>)
    requires k <= |items| && DistinctKeys(items)
    requires !points ==> forall i :: 0 <= i < |items| ==> items[i].key.term == 0
    ensures ParseItems(ItemsWords(items[k..], points) + rest, |items| - k, points, TimesOf(items[..k])) ==
            Some((TimesOf(items), rest))
    decreases |items| - k
  {
    if k == |items| {
      assert items[k..] == [] && items[..k] == items;
      assert [] + rest == rest;
    } else {
      hide TimesOf, KeyWords, KeyOf, DistinctKeys;
      var x, tail := items[k], ItemsWords(items[k + 1..], points);
      assert items[k..][1..] == items[k + 1..] && items[k..][0] == x;
      ItemRecord(x, points, tail, rest);
      TimesOfMore(items, k);
      ItemsTail(items, k + 1, points, rest);
    }
  }

  lemma {:induction false} TimesOfMember(items: seq<Item>, x: Item)
    requires DistinctKeys(items) && x in items
    ensures x.key in TimesOf(items) && TimesOf(items)[x.key] == x.time
  {
    var k :| 0 <= k < |items| && items[k] == x;
    if k < |items| - 1 {
      var front := items[..|items| - 1];
      assert front[k] == x;
      TimesOfMember(front, x);
    }
  }

  /** The items of a table in expiry order stand for the table's map. */
  lemma OrderedTimes(times: map<Key, int>, table: set<Item>)
    requires Bijection(times, table)
    ensures DistinctKeys(Ordered(table)) && TimesOf(Ordered(table)) == times
  {
    hide Ordered, Less, TimesOf;
    var items := Ordered(table);
    OrderedIs(table);
    OneTimeEach(times, table, items);
    ListedTimes(times, table, items);
  }

  lemma OneTimeEach(times: map<Key, int>, table: set<Item>, items: seq<Item>)
    requires Bijection(times, table) && Members(items) == table && Ascending(items)
    ensures DistinctKeys(items)
  {
    forall i, j | 0 <= i < j < |items| ensures items[i].key != items[j].key {
      assert items[i] in Members(items) && items[j] in Members(items);
      assert Less(items[i], items[j]);
    }
  }

  lemma ListedTimes(times: map<Key, int>, table: set<Item>, items: seq<Item>)
    requires Bijection(times, table) && Members(items) == table && DistinctKeys(items)
    ensures TimesOf(items) == times
  {
    hide TimesOf, DistinctKeys;
    TimesOfKeys(items);
    forall k | k in times ensures k in TimesOf(items) && TimesOf(items)[k] == times[k] {
      assert Item(k, times[k]) in Members(items);
      TimesOfMember(items, Item(k, times[k]));
    }
    forall k | k in TimesOf(items) ensures k in times {
      var x :| x in items && x.key == k;
      assert x in Members(items);
    }
  }

  lemma ExpireRoundTrip(times: map<Key, int>, table: set<Item>, points: bool, rest: seq<Word>)
    requires Bijection(times, table) && (!points ==> forall k :: k in times ==> k.term == 0)
    ensures ParseExpire(ExpireWords(Ordered(table), points) + rest, points) == Some((times, rest))
  {
    hide Bijection, Ordered, ItemsWords, ParseItems;
    var items := Ordered(table);
    OrderedTimes(times, table);
    forall i | 0 <= i < |items| && !points ensures items[i].key.term == 0 {
      TimesOfMember(items, items[i]);
    }
    assert (ExpireWords(items, points) + rest)[1..] == ItemsWords(items, points) + rest;
    assert items[0..] == items && items[..0] == [];
    ItemsTail(items, 0, points, rest);
  }

  // ----- The document-term map ------------------------------------------------------------------------------

  function NatWords(ns: seq<nat>): (r: seq<Word>)
    ensures |r| == |ns| && forall k :: 0 <= k < |r| ==> r[k] == ns[k] as real
  {
    seq(|ns|, k requires 0 <= k < |ns| => ns[k] as real)
  }

  function AsNats(words: seq<Word>): (r: seq<nat>)
    ensures |r| == |words| && forall k :: 0 <= k < |r| ==> r[k] == AsNat(words[k])
  {
    seq(|words|, k requires 0 <= k < |words| => AsNat(words[k]))
  }

  function DocsWords(order: seq<DocId>, docTerms: map<DocId, seq<TermId>>): seq<Word>
    requires forall k :: 0 <= k < |order| ==> order[k] in docTerms
  {
    if |order| == 0 then []
    else
      var terms := docTerms[order[0]];
      [order[0] as real, |terms| as real] + NatWords(terms) + DocsWords(order[1..], docTerms)
  }

  function DocTermsWords(order: seq<DocId>, docTerms: map<DocId, seq<TermId>>): seq<Word>
    requires forall k :: 0 <= k < |order| ==> order[k] in docTerms
  {
    [|order| as real] + DocsWords(order, docTerms)
  }

  /** A document without terms is not remembered, and one that is already there keeps its terms. */
  function ParseDocs(words: seq<Word>, n: nat, acc: map<DocId, seq<TermId>>): Parsed<map<DocId, seq<TermId>>>
    decreases n
  {
    if n == 0 then Some((acc, words))
    else if |words| < 2 then None
    else
      var doc, num := AsNat(words[0]), AsNat(words[1]);
      if |words| < 2 + num then None
      else
        ParseDocs(words[2 + num..], n - 1,
                  if num == 0 || doc in acc then acc else acc[doc := AsNats(words[2..2 + num])])
  }

  function ParseDocTerms(words: seq<Word>): Parsed<map<DocId, seq<TermId>>> {
    if |words| == 0 then None else ParseDocs(words[1..], AsNat(words[0]), map[])
  }

  /** The documents of `order` that have at least one term. */
  ghost function Remembered(order: seq<DocId>, docTerms: map<DocId, seq<TermId>>): map<DocId, seq<TermId>> {
    map d | d in docTerms && d in order && docTerms[d] != [] :: docTerms[d]
  }

  lemma DocRecord(d: DocId, terms: seq<TermId>, tail: seq<Word>, rest: seq<Word>)
    ensures var words := [d as real, |terms| as real] + NatWords(terms) + tail + rest;
            && |words| >= 2 + |terms| && AsNat(words[0]) == d && AsNat(words[1]) == |terms|
            && AsNats(words[2..2 + |terms|]) == terms && words[2 + |terms|..] == tail + rest
  {
  }

  lemma RememberedMore(order: seq<DocId>, k: nat, docTerms: map<DocId, seq<TermId>>)
    requires k < |order| && order[k] in docTerms
    ensures var acc, d := Remembered(order[..k], docTerms), order[k];
            Remembered(order[..k + 1], docTerms) ==
            if |docTerms[d]| == 0 || d in acc then acc else acc[d := docTerms[d]]
  {
  }

  /** One record is parsed and what follows is left. */
  lemma ParseRecord(d: DocId, terms: seq<TermId>, tail: seq<Word>, rest: seq<Word>, n: nat,
                    acc: map<DocId, seq<TermId>>)
    requires n > 0
    ensures ParseDocs([d as real, |terms| as real] + NatWords(terms) + tail + rest, n, acc) ==
            ParseDocs(tail + rest, n - 1, if |terms| == 0 || d in acc then acc else acc[d := terms])
  {
    hide AsNats, NatWords;
    DocRecord(d, terms, tail, rest);
  }

  lemma DocsWordsFrom(order: seq<DocId>, k: nat, docTerms: map<DocId, seq<TermId>>)
    requires k < |order| && forall i :: 0 <= i < |order| ==> order[i] in docTerms
    ensures var terms := docTerms[order[k]];
            DocsWords(order[k..], docTerms) ==
            [order[k] as real, |terms| as real] + NatWords(terms) + DocsWords(order[k + 1..], docTerms)
  {
    hide NatWords;
    assert order[k..][1..] == order[k + 1..] && order[k..][0] == order[k];
  }

  lemma DocsEnd(order: seq<DocId>, docTerms: map<DocId, seq<TermId>>, rest: seq<Word>, acc: map<DocId, seq<TermId>>)
    ensures DocsWords([], docTerms) + rest == rest && ParseDocs(rest, 0, acc) == Some((acc, rest))
    ensures order[|order|..] == [] && order[..|order|] == order
  {
  }

  lemma {:induction false} DocsTail(order: seq<DocId>, k: nat, docTerms: map<DocId, seq<TermId>>, rest: seq<Word>)
    requires k <= |order| && forall i :: 0 <= i < |order| ==> order[i] in docTerms
    ensures ParseDocs(DocsWords(order[k..], docTerms) + rest, |order| - k, Remembered(order[..k], docTerms)) ==
            Some((Remembered(order, docTerms), rest))
    decreases |order| - k
  {
    hide Remembered, NatWords, DocsWords, ParseDocs;
    if k == |order| {
      DocsEnd(order, docTerms, rest, Remembered(order, docTerms));
    } else {
      var d, tail := order[k], DocsWords(order[k + 1..], docTerms);
      DocsWordsFrom(order, k, docTerms);
      ParseRecord(d, docTerms[d], tail, rest, |order| - k, Remembered(order[..k], docTerms));
      RememberedMore(order, k, docTerms);
      DocsTail(order, k + 1, docTerms, rest);
    }
  }

  lemma DocTermsRoundTrip(order: seq<DocId>, docTerms: map<DocId, seq<TermId>>, rest: seq<Word>)
    requires Enumerates(order, docTerms.Keys)
    ensures ParseDocTerms(DocTermsWords(order, docTerms) + rest) == Some((Remembered(order, docTerms), rest))
  {
    var words := DocTermsWords(order, docTerms) + rest;
    assert words[1..] == DocsWords(order, docTerms) + rest;
    assert order[0..] == order && Remembered(order[..0], docTerms) == map[];
    DocsTail(order, 0, docTerms, rest);
  }

  // ----- Whole snapshots -------------------------------------------------------------------------------------

  /** What a snapshot of a row index holds: published lists, expiry times and the terms of each document. */
  datatype RowParts = RowParts(live: Table, times: map<Key, int>, docTerms: map<DocId, seq<TermId>>)

  function ParseRowIndex(words: seq<Word>): Parsed<RowParts> {
    match ParseIndex(words)
    case None => None
    case Some((live, rest)) =>
      match ParseExpire(rest, false)
      case None => None
      case Some((times, rest')) =>
        match ParseDocTerms(rest')
        case None => None
        case Some((docTerms, rest'')) => Some((RowParts(live, times, docTerms), rest''))
  }

  function RowWords(
    order: seq<TermId>, live: Table, items: seq<Item>, docs: seq<DocId>, docTerms: map<DocId, seq<TermId>>): seq<Word>
    requires forall k :: 0 <= k < |order| ==> order[k] in live
    requires forall k :: 0 <= k < |docs| ==> docs[k] in docTerms
  {
    IndexWords(order, live) + ExpireWords(items, false) + DocTermsWords(docs, docTerms)
  }

  /**
   * A dumped row index is read back whole: the published lists, the expire table, and the terms of the
   * documents that have any, whatever follows in the stream and in whatever order the maps were enumerated.
   */
  lemma RowRoundTrip(
    order: seq<TermId>, live: Table, times: map<Key, int>, table: set<Item>, docs: seq<DocId>,
    docTerms: map<DocId, seq<TermId>>, rest: seq<Word>)
    requires Enumerates(order, live.Keys) && forall t :: t in live ==> 0 !in live[t]
    requires Bijection(times, table) && forall k :: k in times ==> k.term == 0
    requires Enumerates(docs, docTerms.Keys)
    ensures ParseRowIndex(RowWords(order, live, Ordered(table), docs, docTerms) + rest) ==
            Some((RowParts(live, times, WithTerms(docTerms)), rest))
  {
    hide IndexWords, ExpireWords, DocTermsWords, ParseIndex, ParseExpire, ParseDocTerms, Ordered, Bijection, Enumerates;
    RememberedAll(docs, docTerms);
    var a, b, c := IndexWords(order, live), ExpireWords(Ordered(table), false), DocTermsWords(docs, docTerms);
    assert a + b + c + rest == a + (b + (c + rest));
    IndexRoundTrip(order, live, b + (c + rest));
    ExpireRoundTrip(times, table, false, c + rest);
    DocTermsRoundTrip(docs, docTerms, rest);
  }

  datatype PointParts = PointParts(live: Table, times: map<Key, int>)

  function ParsePointIndex(words: seq<Word>): Parsed<PointParts> {
    match ParseIndex(words)
    case None => None
    case Some((live, rest)) =>
      match ParseExpire(rest, true)
      case None => None
      case Some((times, rest')) => Some((PointParts(live, times), rest'))
  }

  function PointWords(order: seq<TermId>, live: Table, items: seq<Item>): seq<Word>
    requires forall k :: 0 <= k < |order| ==> order[k] in live
  {
    IndexWords(order, live) + ExpireWords(items, true)
  }

  lemma PointRoundTrip(order: seq<TermId>, live: Table, times: map<Key, int>, table: set<Item>, rest: seq<Word>)
    requires Enumerates(order, live.Keys) && forall t :: t in live ==> 0 !in live[t]
    requires Bijection(times, table)
    ensures ParsePointIndex(PointWords(order, live, Ordered(table)) + rest) == Some((PointParts(live, times), rest))
  {
    hide IndexWords, ExpireWords, ParseIndex, ParseExpire, Ordered, Bijection;
    var a, b := IndexWords(order, live), ExpireWords(Ordered(table), true);
    assert a + b + rest == a + (b + rest);
    IndexRoundTrip(order, live, b + rest);
    ExpireRoundTrip(times, table, true, rest);
  }

  /** The documents that have at least one term. */
  ghost function WithTerms(docTerms: map<DocId, seq<TermId>>): map<DocId, seq<TermId>> {
    map d | d in docTerms && docTerms[d] != [] :: docTerms[d]
  }

  lemma RememberedAll(docs: seq<DocId>, docTerms: map<DocId, seq<TermId>>)
    requires Enumerates(docs, docTerms.Keys)
    ensures Remembered(docs, docTerms) == WithTerms(docTerms)
  {
  }

  // ----- Writing piece by piece ------------------------------------------------------------------------------

  lemma {:induction false} TermsWordsAppend(order: seq<TermId>, t: TermId, live: Table)
    requires t in live && forall k :: 0 <= k < |order| ==> order[k] in live
    ensures TermsWords(order + [t], live) == TermsWords(order, live) + [t as real] + ListWords(InKeyOrder(live[t]))
  {
    hide ListWords, InKeyOrder;
    if |order| > 0 {
      assert (order + [t])[1..] == order[1..] + [t];
      TermsWordsAppend(order[1..], t, live);
    } else {
      assert [t] == [] + [t] && [t][1..] == [];
    }
  }

  lemma TermsWordsStep(written: seq<Word>, order: seq<TermId>, t: TermId, live: Table)
    requires t in live && forall k :: 0 <= k < |order| ==> order[k] in live
    ensures written + TermsWords(order + [t], live) ==
            written + TermsWords(order, live) + [t as real] + ListWords(InKeyOrder(live[t]))
  {
    hide ListWords, InKeyOrder, TermsWords;
    TermsWordsAppend(order, t, live);
  }

  lemma {:induction false} DocsWordsAppend(order: seq<DocId>, d: DocId, docTerms: map<DocId, seq<TermId>>)
    requires d in docTerms && forall k :: 0 <= k < |order| ==> order[k] in docTerms
    ensures DocsWords(order + [d], docTerms) ==
            DocsWords(order, docTerms) + ([d as real, |docTerms[d]| as real] + NatWords(docTerms[d]))
  {
    hide NatWords;
    if |order| > 0 {
      assert (order + [d])[1..] == order[1..] + [d];
      DocsWordsAppend(order[1..], d, docTerms);
    } else {
      assert [d] == [] + [d] && [d][1..] == [];
    }
  }

  /** Visiting the keys one at a time, each once, enumerates them. */
  ghost predicate Visited(order: seq<nat>, todo: set<nat>, keys: set<nat>)
    ensures Visited(order, todo, keys) ==> todo <= keys && forall k :: 0 <= k < |order| ==> order[k] in keys
    ensures Visited(order, todo, keys) && todo == {} ==> Enumerates(order, keys)
  {
    && |order| + |todo| == |keys|
    && (forall k :: 0 <= k < |order| ==> order[k] in keys)
    && (forall t :: t in keys ==> t in order || t in todo)
    && todo <= keys
  }

  lemma NoneVisited(keys: set<nat>)
    ensures Visited([], keys, keys)
  {
  }

  lemma Visit(order: seq<nat>, todo: set<nat>, keys: set<nat>, t: nat)
    requires Visited(order, todo, keys) && t in todo
    ensures Visited(order + [t], todo - {t}, keys)
  {
  }

  lemma ListWordsStep(written: seq<Word>, s: seq<Posting>, k: nat)
    requires k < |s|
    ensures written + [s[k].doc as real] + [s[k].weight] + ListWords(s[k + 1..]) == written + ListWords(s[k..])
  {
  }

  lemma ListWordsEnds(s: seq<Posting>)
    ensures ListWords(s[0..]) == ListWords(s) && ListWords(s[|s|..]) == [0.0]
  {
  }

  lemma ItemsWordsStep(written: seq<Word>, items: seq<Item>, k: nat, points: bool)
    requires k < |items|
    ensures written + KeyWords(items[k].key, points) + [items[k].time as real] + ItemsWords(items[k + 1..], points) ==
            written + ItemsWords(items[k..], points)
  {
  }

  lemma ItemsWordsEnds(items: seq<Item>, points: bool)
    ensures [|items| as real] + ItemsWords(items[0..], points) == ExpireWords(items, points)
    ensures ItemsWords(items[|items|..], points) == []
  {
  }

  lemma NothingWritten(live: Table, docTerms: map<DocId, seq<TermId>>)
    ensures TermsWords([], live) == [] && DocsWords([], docTerms) == []
  {
  }
}
