/**
 * What the loader makes of streams that no dump wrote: cut short, or with records out of order or repeated.
 */
module SnapshotStream {
  import opened Wrappers
  import opened Postings
  import opened BaseIndex
  import opened ExpireTable
  import opened SnapshotFormat

  /** The same value, with `more` behind the rest. */
  function Extended<T>(r: Parsed<T>, more: seq<Word>): Parsed<T> {
    match r
    case None => None
    case Some((v, rest)) => Some((v, rest + more))
  }

  // ----- Cut short ---------------------------------------------------------------------------------------

  lemma {:induction false} ListExtends(words: seq<Word>, current: DocId, acc: map<DocId, real>, more: seq<Word>)
    ensures var r := ParseList(words, current, acc);
            r.Some? ==> ParseList(words + more, current, acc) == Extended(r, more)
    decreases |words|
  {
    if |words| > 0 {
      assert (words + more)[1..] == words[1..] + more;
      var doc := AsNat(words[0]);
      if |words| > 1 {
        assert (words + more)[2..] == words[2..] + more && (words + more)[1..][1..] == words[2..] + more;
        assert words[1..][1..] == words[2..] && words[1..][0] == words[1] == (words + more)[1..][0];
        if doc > current { ListExtends(words[2..], doc, acc[doc := words[1]], more); }
        else { ListExtends(words[2..], current, acc, more); }
      }
    }
  }

  lemma {:induction false} TermsExtend(words: seq<Word>, n: nat, acc: Table, more: seq<Word>)
    ensures var r := ParseTerms(words, n, acc);
            r.Some? ==> ParseTerms(words + more, n, acc) == Extended(r, more)
    decreases n
  {
    hide ParseList;
    if n > 0 && |words| > 0 {
      assert (words + more)[1..] == words[1..] + more;
      ListExtends(words[1..], 0, map[], more);
      var r := ParseList(words[1..], 0, map[]);
      if r.Some? { TermsExtend(r.value.1, n - 1, acc[AsNat(words[0]) := r.value.0], more); }
    }
  }

  lemma {:induction false} ItemsExtend(words: seq<Word>, n: nat, points: bool, acc: map<Key, int>, more: seq<Word>)
    ensures var r := ParseItems(words, n, points, acc);
            r.Some? ==> ParseItems(words + more, n, points, acc) == Extended(r, more)
    decreases n
  {
    var width := if points then 2 else 1;
    if n > 0 && |words| >= width + 1 {
      assert (words + more)[width + 1..] == words[width + 1..] + more;
      var key := KeyOf(words, points);
      var next := if key in acc then acc else acc[key := AsTime(words[width])];
      ItemsExtend(words[width + 1..], n - 1, points, next, more);
    }
  }

  lemma {:induction false} DocsExtend(words: seq<Word>, n: nat, acc: map<DocId, seq<TermId>>, more: seq<Word>)
    ensures var r := ParseDocs(words, n, acc);
            r.Some? ==> ParseDocs(words + more, n, acc) == Extended(r, more)
    decreases n
  {
    hide AsNats;
    if n > 0 && |words| >= 2 && |words| >= 2 + AsNat(words[1]) {
      var doc, num := AsNat(words[0]), AsNat(words[1]);
      assert (words + more)[2 + num..] == words[2 + num..] + more;
      assert (words + more)[2..2 + num] == words[2..2 + num];
      var next := if num == 0 || doc in acc then acc else acc[doc := AsNats(words[2..2 + num])];
      DocsExtend(words[2 + num..], n - 1, next, more);
    }
  }

  lemma PartsExtend(words: seq<Word>, points: bool, more: seq<Word>)
    ensures ParseIndex(words).Some? ==> ParseIndex(words + more) == Extended(ParseIndex(words), more)
    ensures ParseExpire(words, points).Some? ==>
              ParseExpire(words + more, points) == Extended(ParseExpire(words, points), more)
    ensures ParseDocTerms(words).Some? ==> ParseDocTerms(words + more) == Extended(ParseDocTerms(words), more)
  {
    hide ParseTerms, ParseItems, ParseDocs;
    if |words| > 0 {
      assert (words + more)[1..] == words[1..] + more;
      TermsExtend(words[1..], AsNat(words[0]), map[], more);
      ItemsExtend(words[1..], AsNat(words[0]), points, map[], more);
      DocsExtend(words[1..], AsNat(words[0]), map[], more);
    }
  }

  /** A snapshot that loads does not depend on what follows it in the stream. */
  lemma RowsExtend(words: seq<Word>, more: seq<Word>)
    ensures ParseRowIndex(words).Some? ==> ParseRowIndex(words + more) == Extended(ParseRowIndex(words), more)
  {
    hide ParseIndex, ParseExpire, ParseDocTerms;
    PartsExtend(words, false, more);
    if ParseIndex(words).Some? {
      var rest := ParseIndex(words).value.1;
      PartsExtend(rest, false, more);
      if ParseExpire(rest, false).Some? { PartsExtend(ParseExpire(rest, false).value.1, false, more); }
    }
  }

  lemma PointsExtend(words: seq<Word>, more: seq<Word>)
    ensures ParsePointIndex(words).Some? ==> ParsePointIndex(words + more) == Extended(ParsePointIndex(words), more)
  {
    hide ParseIndex, ParseExpire;
    PartsExtend(words, true, more);
    if ParseIndex(words).Some? { PartsExtend(ParseIndex(words).value.1, true, more); }
  }

  /** A dumped row index cut anywhere does not load. */
  lemma TruncatedRows(
    order: seq<TermId>, live: Table, times: map<Key, int>, table: set<Item>, docs: seq<DocId>,
    docTerms: map<DocId, seq<TermId>>, n: nat)
    requires Enumerates(order, live.Keys) && forall t :: t in live ==> 0 !in live[t]
    requires Bijection(times, table) && forall k :: k in times ==> k.term == 0
    requires Enumerates(docs, docTerms.Keys)
    requires n < |RowWords(order, live, Ordered(table), docs, docTerms)|
    ensures ParseRowIndex(RowWords(order, live, Ordered(table), docs, docTerms)[..n]) == None
  {
    hide RowWords, ParseRowIndex, Ordered, Bijection, Enumerates;
    var words := RowWords(order, live, Ordered(table), docs, docTerms);
    RowRoundTrip(order, live, times, table, docs, docTerms, []);
    assert words + [] == words && words == words[..n] + words[n..];
    RowsExtend(words[..n], words[n..]);
  }

  /** A dumped point index cut anywhere does not load. */
  lemma TruncatedPoints(order: seq<TermId>, live: Table, times: map<Key, int>, table: set<Item>, n: nat)
    requires Enumerates(order, live.Keys) && forall t :: t in live ==> 0 !in live[t]
    requires Bijection(times, table)
    requires n < |PointWords(order, live, Ordered(table))|
    ensures ParsePointIndex(PointWords(order, live, Ordered(table))[..n]) == None
  {
    hide PointWords, ParsePointIndex, Ordered, Bijection, Enumerates;
    var words := PointWords(order, live, Ordered(table));
    PointRoundTrip(order, live, times, table, []);
    assert words + [] == words && words == words[..n] + words[n..];
    PointsExtend(words[..n], words[n..]);
  }

  // ----- Out of order or repeated ---------------------------------------------------------------------------

  /** Record k names a document beyond every one before it. */
  ghost predicate Climbs(s: seq<Posting>, k: nat)
    requires k < |s|
  {
    forall j :: 0 <= j < k ==> s[j].doc < s[k].doc
  }

  /** One of the first n records gives document d weight w and is beyond every one before it. */
  ghost predicate Kept(s: seq<Posting>, n: nat, d: DocId, w: real)
    requires n <= |s|
  {
    exists k: nat :: k < n && s[k] == Posting(d, w) && Climbs(s, k)
  }

  ghost predicate HoldsKept(m: map<DocId, real>, s: seq<Posting>, n: nat)
    requires n <= |s|
  {
    forall d, w :: (d in m && m[d] == w) <==> Kept(s, n, d, w)
  }

  /** The greatest document among the first n. */
  ghost predicate Highest(s: seq<Posting>, n: nat, current: DocId)
    requires n <= |s|
  {
    && (forall j :: 0 <= j < n ==> s[j].doc <= current)
    && (n == 0 ==> current == 0) && (n > 0 ==> exists j :: 0 <= j < n && s[j].doc == current)
  }

  lemma KeptNext(s: seq<Posting>, n: nat, d: DocId, w: real)
    requires n < |s|
    ensures Kept(s, n + 1, d, w) <==> Kept(s, n, d, w) || (s[n] == Posting(d, w) && Climbs(s, n))
  {
    hide Climbs;
  }

  lemma KeptBelow(s: seq<Posting>, n: nat, current: DocId, d: DocId, w: real)
    requires n <= |s| && Highest(s, n, current) && Kept(s, n, d, w)
    ensures d <= current
  {
    hide Climbs;
  }

  lemma HighestNext(s: seq<Posting>, n: nat, current: DocId)
    requires n < |s| && s[n].doc > 0 && Highest(s, n, current)
    ensures Climbs(s, n) <==> s[n].doc > current
    ensures Highest(s, n + 1, if s[n].doc > current then s[n].doc else current)
  {
  }

  lemma HoldsNext(m: map<DocId, real>, s: seq<Posting>, n: nat, current: DocId)
    requires n < |s| && s[n].doc > 0 && HoldsKept(m, s, n) && Highest(s, n, current)
    ensures HoldsKept(if s[n].doc > current then m[s[n].doc := s[n].weight] else m, s, n + 1)
  {
    hide Kept, Climbs, Highest;
    HighestNext(s, n, current);
    var x, after := s[n], n + 1;
    var next := if x.doc > current then m[x.doc := x.weight] else m;
    forall d, w ensures (d in next && next[d] == w) <==> Kept(s, after, d, w) {
      KeptNext(s, n, d, w);
      if Kept(s, n, d, w) { KeptBelow(s, n, current, d, w); }
    }
  }

  /** Any records and the sentinel, read after the first n of them. */
  lemma {:induction false} KeptTail(
    s: seq<Posting>, n: nat, current: DocId, m: map<DocId, real>, rest: seq<Word>) returns (all: map<DocId, real>)
    requires n <= |s| && (forall k :: 0 <= k < |s| ==> s[k].doc > 0) && HoldsKept(m, s, n) && Highest(s, n, current)
    ensures ParseList(ListWords(s[n..]) + rest, current, m) == Some((all, rest)) && HoldsKept(all, s, |s|)
    decreases |s| - n
  {
    hide HoldsKept, Highest;
    if n == |s| {
      all := m;
      assert s[n..] == [] && ([0.0] + rest)[1..] == rest;
    } else {
      var x := s[n];
      assert s[n..][1..] == s[n + 1..] && s[n..][0] == x;
      Cons(x.doc as real, x.weight, ListWords(s[n + 1..]), rest);
      HighestNext(s, n, current);
      HoldsNext(m, s, n, current);
      if x.doc > current {
        all := KeptTail(s, n + 1, x.doc, m[x.doc := x.weight], rest);
      } else {
        all := KeptTail(s, n + 1, current, m, rest);
      }
    }
  }

  /**
   * A list of any records of valid documents: loaded are exactly the records of documents beyond every one
   * before, and the stream is left behind the sentinel.
   */
  lemma AnyList(s: seq<Posting>, rest: seq<Word>) returns (all: map<DocId, real>)
    requires forall k :: 0 <= k < |s| ==> s[k].doc > 0
    ensures ParseList(ListWords(s) + rest, 0, map[]) == Some((all, rest))
    ensures forall d, w :: (d in all && all[d] == w) <==> Kept(s, |s|, d, w)
  {
    hide Kept, ParseList, ListWords;
    forall d, w ensures !Kept(s, 0, d, w) { NoneKept(s, d, w); }
    assert s[0..] == s;
    all := KeptTail(s, 0, 0, map[], rest);
  }

  lemma NoneKept(s: seq<Posting>, d: DocId, w: real)
    ensures !Kept(s, 0, d, w)
  {
  }

  /** Item k is the first with its key. */
  ghost predicate First(items: seq<Item>, k: nat)
    requires k < |items|
  {
    forall j :: 0 <= j < k ==> items[j].key != items[k].key
  }

  /** One of the first n items is the first with this key, and has this time. */
  ghost predicate Timed(items: seq<Item>, n: nat, key: Key, time: int)
    requires n <= |items|
  {
    exists k: nat :: k < n && items[k] == Item(key, time) && First(items, k)
  }

  ghost predicate HoldsTimed(m: map<Key, int>, items: seq<Item>, n: nat)
    requires n <= |items|
  {
    && (forall key, time :: (key in m && m[key] == time) <==> Timed(items, n, key, time))
    && (forall j :: 0 <= j < n ==> items[j].key in m)
  }

  lemma TimedNext(items: seq<Item>, n: nat, key: Key, time: int)
    requires n < |items|
    ensures Timed(items, n + 1, key, time) <==>
            Timed(items, n, key, time) || (items[n] == Item(key, time) && First(items, n))
  {
    hide First;
  }

  lemma TimedNamed(items: seq<Item>, n: nat, key: Key, time: int)
    requires n <= |items| && Timed(items, n, key, time)
    ensures exists j :: 0 <= j < n && items[j].key == key
  {
    hide First;
  }

  lemma HoldsTimedNext(m: map<Key, int>, items: seq<Item>, n: nat)
    requires n < |items| && HoldsTimed(m, items, n)
    ensures HoldsTimed(if items[n].key in m then m else m[items[n].key := items[n].time], items, n + 1)
  {
    hide Timed;
    var x, after := items[n], n + 1;
    var next := if x.key in m then m else m[x.key := x.time];
    if x.key in m { TimedNamed(items, n, x.key, m[x.key]); }
    assert First(items, n) <==> x.key !in m;
    forall key, time ensures (key in next && next[key] == time) <==> Timed(items, after, key, time) {
      TimedNext(items, n, key, time);
    }
  }

  /** Any items, read after the first n of them. */
  lemma {:induction false} TimedTail(items: seq<Item>, n: nat, points: bool, m: map<Key, int>, rest: seq<Word>)
    returns (all: map<Key, int>)
    requires n <= |items| && HoldsTimed(m, items, n)
    requires !points ==> forall i :: 0 <= i < |items| ==> items[i].key.term == 0
    ensures ParseItems(ItemsWords(items[n..], points) + rest, |items| - n, points, m) == Some((all, rest))
    ensures HoldsTimed(all, items, |items|)
    decreases |items| - n
  {
    hide HoldsTimed, KeyWords, KeyOf;
    if n == |items| {
      all := m;
      assert items[n..] == [] && [] + rest == rest;
    } else {
      var x, tail := items[n], ItemsWords(items[n + 1..], points);
      assert items[n..][1..] == items[n + 1..] && items[n..][0] == x;
      ItemRecord(x, points, tail, rest);
      HoldsTimedNext(m, items, n);
      all := TimedTail(items, n + 1, points, if x.key in m then m else m[x.key := x.time], rest);
    }
  }

  /** An expire table of any items, repeated or not: loaded is the first time of every key. */
  lemma AnyExpire(items: seq<Item>, points: bool, rest: seq<Word>) returns (all: map<Key, int>)
    requires !points ==> forall i :: 0 <= i < |items| ==> items[i].key.term == 0
    ensures ParseExpire(ExpireWords(items, points) + rest, points) == Some((all, rest))
    ensures forall key, time :: (key in all && all[key] == time) <==> Timed(items, |items|, key, time)
  {
    hide Timed, ParseItems, ItemsWords;
    forall key, time ensures !Timed(items, 0, key, time) { NoneTimed(items, key, time); }
    assert items[0..] == items;
    assert (ExpireWords(items, points) + rest)[1..] == ItemsWords(items, points) + rest;
    all := TimedTail(items, 0, points, map[], rest);
  }

  lemma NoneTimed(items: seq<Item>, key: Key, time: int)
    ensures !Timed(items, 0, key, time)
  {
  }
}
