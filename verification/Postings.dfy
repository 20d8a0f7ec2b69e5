/**
 * Posting lists and the cursors over them: BTreePostingList with its forward reader, the
 * running maximum kept by MaxWeight, and DotProductReader, which scales a cursor by the
 * weight of a query term.
 */
module Postings {

  // A document id; 0 is the invalid id that marks "no document".
  type DocId = nat

  datatype Posting = Posting(doc: DocId, weight: real)

  /** The in-order contents of a B-tree: valid ids, strictly ascending. */
  ghost predicate Sorted(s: seq<Posting>) {
    && (forall i :: 0 <= i < |s| ==> s[i].doc > 0)
    && (forall i, j :: 0 <= i < j < |s| ==> s[i].doc < s[j].doc)
  }

  ghost predicate Bounds(bound: real, s: seq<Posting>) {
    && bound >= 0.0
    && (forall k :: 0 <= k < |s| ==> s[k].weight <= bound)
  }

  /** The first position at or after `from` whose document lies beyond `current`. */
  function Seek(s: seq<Posting>, from: nat, current: DocId): (r: nat)
    requires from <= |s|
    ensures from <= r <= |s|
    ensures forall k :: from <= k < r ==> s[k].doc <= current
    ensures r < |s| ==> s[r].doc > current
    decreases |s| - from
  {
    if from < |s| && s[from].doc <= current then Seek(s, from + 1, current) else from
  }

  ghost function Docs(s: seq<Posting>): set<DocId> {
    set k | 0 <= k < |s| :: s[k].doc
  }

  /** The weight stored for a document, 0 when there is none. */
  function WeightOf(s: seq<Posting>, doc: DocId): real {
    var k := if doc == 0 then |s| else Seek(s, 0, doc - 1);
    if k < |s| && s[k].doc == doc then s[k].weight else 0.0
  }

  lemma SeekFinds(s: seq<Posting>, k: nat)
    requires Sorted(s) && k < |s|
    ensures Seek(s, 0, s[k].doc - 1) == k
    ensures s[k].doc in Docs(s) && WeightOf(s, s[k].doc) == s[k].weight
  {
  }

  lemma DocPosition(s: seq<Posting>, d: DocId) returns (k: nat)
    requires Sorted(s) && d in Docs(s)
    ensures k < |s| && s[k].doc == d && WeightOf(s, d) == s[k].weight
  {
    k :| 0 <= k < |s| && s[k].doc == d;
    SeekFinds(s, k);
  }

  /** Stepping from a stored document lands on its immediate successor. */
  lemma SeekOne(s: seq<Posting>, k: nat)
    requires Sorted(s) && k < |s|
    ensures Seek(s, k, s[k].doc) == k + 1
  {
  }

  // ----- A map in key order ---------------------------------------------------------------------

  ghost predicate IsGreatest(k: DocId, s: set<DocId>) {
    k in s && forall j :: j in s ==> j <= k
  }

  lemma {:induction false} HasGreatest(s: set<DocId>) returns (k: DocId)
    requires s != {}
    ensures IsGreatest(k, s)
    decreases |s|
  {
    k :| k in s;
    var rest := s - {k};
    if rest != {} {
      var m := HasGreatest(rest);
      forall j | j in s ensures j <= (if m < k then k else m) {
        assert j == k || j in rest;
      }
      if k < m { k := m; }
    } else {
      assert s == {k};
    }
  }

  function Greatest(s: set<DocId>): (k: DocId)
    requires s != {}
    ensures IsGreatest(k, s)
  {
    assert exists k :: k in s && forall j :: j in s ==> j <= k by {
      var k := HasGreatest(s);
      assert k in s && forall j :: j in s ==> j <= k;
    }
    var k :| k in s && forall j :: j in s ==> j <= k;
    k
  }

  lemma RemoveKey(m: map<DocId, real>, k: DocId)
    requires k in m
    ensures (m - {k}).Keys == m.Keys - {k} && |m - {k}| == |m| - 1
    ensures (m - {k})[k := m[k]] == m
  {
  }

  /** The postings of a map, by ascending id. */
  function InKeyOrder(m: map<DocId, real>): (s: seq<Posting>)
    decreases |m|
  {
    if m.Keys == {} then []
    else
      var k := Greatest(m.Keys);
      RemoveKey(m, k);
      InKeyOrder(m - {k}) + [Posting(k, m[k])]
  }

  /** The finite map a list of postings stands for. */
  ghost function Contents(s: seq<Posting>): (m: map<DocId, real>)
    decreases |s|
  {
    if |s| == 0 then map[] else Contents(s[..|s| - 1])[s[|s| - 1].doc := s[|s| - 1].weight]
  }

  lemma ContentsAppend(s: seq<Posting>, p: Posting)
    ensures Contents(s + [p]) == Contents(s)[p.doc := p.weight]
  {
  }

  lemma {:induction false} ContentsKeys(s: seq<Posting>)
    ensures Contents(s).Keys == Docs(s)
  {
    if |s| > 0 {
      var front := s[..|s| - 1];
      ContentsKeys(front);
      forall d | d in Docs(s) ensures d in Docs(front) + {s[|s| - 1].doc} {
        var k :| 0 <= k < |s| && s[k].doc == d;
        if k < |front| { assert front[k].doc == d; }
      }
      assert s[|s| - 1].doc in Docs(s);
      forall d | d in Docs(front) ensures d in Docs(s) {
        var k :| 0 <= k < |front| && front[k].doc == d;
        assert s[k].doc == d;
      }
    }
  }

  lemma SortedAppend(s: seq<Posting>, p: Posting)
    requires Sorted(s) && p.doc > 0
    requires forall d :: d in Docs(s) ==> d < p.doc
    ensures Sorted(s + [p])
  {
    forall i | 0 <= i < |s| ensures s[i].doc < p.doc {
      assert s[i].doc in Docs(s);
    }
  }

  /** Listing a map in key order and reading the list back gives the map. */
  lemma {:induction false} InKeyOrderContents(m: map<DocId, real>)
    requires 0 !in m
    ensures Sorted(InKeyOrder(m)) && Contents(InKeyOrder(m)) == m && Docs(InKeyOrder(m)) == m.Keys
    decreases |m|
  {
    hide Docs;
    if m.Keys == {} {
      assert m == map[];
    } else {
      var k := Greatest(m.Keys);
      RemoveKey(m, k);
      InKeyOrderContents(m - {k});
      SortedAppend(InKeyOrder(m - {k}), Posting(k, m[k]));
      ContentsAppend(InKeyOrder(m - {k}), Posting(k, m[k]));
    }
    ContentsKeys(InKeyOrder(m));
  }

  lemma {:induction false} ContentsWeight(s: seq<Posting>, d: DocId)
    requires Sorted(s)
    ensures WeightOf(s, d) == if d in Contents(s) then Contents(s)[d] else 0.0
  {
    ContentsKeys(s);
    if d in Docs(s) {
      var k := DocPosition(s, d);
      if k < |s| - 1 {
        var front := s[..|s| - 1];
        ContentsWeight(front, d);
        SeekFinds(front, k);
        ContentsKeys(front);
      }
    }
  }

  /** Reading a stored map through its ordered list. */
  lemma OrderedWeight(m: map<DocId, real>, d: DocId)
    requires 0 !in m
    ensures WeightOf(InKeyOrder(m), d) == if d in m then m[d] else 0.0
  {
    InKeyOrderContents(m);
    ContentsWeight(InKeyOrder(m), d);
  }

  // ----- Posting lists -----------------------------------------------------------------------------

  ghost predicate Covers(bound: real, m: map<DocId, real>) {
    bound >= 0.0 && forall d :: d in m ==> m[d] <= bound
  }

  /** The largest stored weight, or 0 when none is positive. */
  ghost predicate Maximum(bound: real, m: map<DocId, real>)
    ensures Maximum(bound, m) ==> Covers(bound, m)
  {
    Covers(bound, m) && (bound == 0.0 || exists d :: d in m && m[d] == bound)
  }

  /** BTreePostingList: an ordered map from document to weight with a cached weight bound. */
  class PostingList {
    var posting: map<DocId, real>
    var upperBound: real

    ghost predicate Valid()
      reads this
    {
      0 !in posting && Covers(upperBound, posting)
    }

    constructor ()
      ensures Valid() && posting == map[] && upperBound == 0.0
    {
      posting, upperBound := map[], 0.0;
    }

    /** Rebuild a list from whatever a cursor still has to deliver. */
    constructor FromReader(reader: PostingCursor)
      requires reader.Valid()
      modifies reader
      ensures Valid()
      ensures posting == Contents(old(reader.Order()[reader.iter..]))
      ensures Maximum(upperBound, posting)
    {
      hide InKeyOrder, Contents, Seek, Sorted, Maximum;
      ghost var source, start := reader.Order(), reader.iter;
      InKeyOrderContents(reader.list.posting);
      var taken, bound := map[], 0.0;
      StartOf(source, start);
      var doc := reader.Next(0);
      while doc != 0
        invariant reader.Valid() && start <= reader.iter && reader.Order() == source
        invariant taken == Contents(source[start..reader.iter]) && Maximum(bound, taken) && 0 !in taken
        invariant doc == reader.Current()
        decreases |source| - reader.iter
      {
        var weight := reader.Read();
        Accumulate(source, start, reader.iter);
        SeekOne(source, reader.iter);
        MaximumGrows(bound, taken, doc, weight);
        if weight > bound { bound := weight; }
        taken := taken[doc := weight];
        doc := reader.Next(doc);
      }
      Finished(source, start, reader.iter);
      posting, upperBound := taken, bound;
    }

    /** Refuses the invalid id; otherwise inserts or overwrites. */
    method Update(doc: DocId, weight: real) returns (changed: int)
      requires Valid()
      modifies this
      ensures Valid()
      ensures changed == if doc == 0 then 0 else 1
      ensures posting == if doc == 0 then old(posting) else old(posting)[doc := weight]
      ensures upperBound == if doc != 0 && weight > old(upperBound) then weight else old(upperBound)
    {
      if doc == 0 { return 0; }
      posting := posting[doc := weight];
      if weight > upperBound { upperBound := weight; }
      return 1;
    }

    method Remove(doc: DocId) returns (changed: int)
      requires Valid()
      modifies this
      ensures Valid()
      ensures changed == if doc in old(posting) then 1 else 0
      ensures posting == old(posting) - {doc}
      ensures upperBound == old(upperBound)
    {
      if doc in posting {
        posting := posting - {doc};
        return 1;
      }
      assert posting - {doc} == posting;
      return 0;
    }
  }

  lemma StartOf(s: seq<Posting>, from: nat)
    requires Sorted(s) && from <= |s|
    ensures Seek(s, from, 0) == from && Contents(s[from..from]) == map[] && Maximum(0.0, map[])
  {
  }

  lemma Accumulate(s: seq<Posting>, from: nat, k: nat)
    requires from <= k < |s| && Sorted(s)
    ensures Contents(s[from..k + 1]) == Contents(s[from..k])[s[k].doc := s[k].weight]
    ensures s[k].doc !in Contents(s[from..k])
  {
    assert s[from..k + 1] == s[from..k] + [s[k]];
    ContentsAppend(s[from..k], s[k]);
    ContentsKeys(s[from..k]);
  }

  lemma Finished(s: seq<Posting>, from: nat, k: nat)
    requires Sorted(s) && from <= k <= |s| && (k < |s| ==> s[k].doc == 0)
    ensures k == |s| && s[from..k] == s[from..]
  {
  }

  lemma MaximumGrows(bound: real, m: map<DocId, real>, d: DocId, weight: real)
    requires Maximum(bound, m) && d !in m
    ensures Maximum(if weight > bound then weight else bound, m[d := weight])
  {
    var more := m[d := weight];
    if weight > bound {
      assert more[d] == weight;
    } else if bound != 0.0 {
      var e :| e in m && m[e] == bound;
      assert more[e] == bound;
    }
  }

  lemma OrderedBounds(list: PostingList)
    requires list.Valid()
    ensures Sorted(InKeyOrder(list.posting)) && Bounds(list.upperBound, InKeyOrder(list.posting))
  {
    var s := InKeyOrder(list.posting);
    InKeyOrderContents(list.posting);
    forall k | 0 <= k < |s| ensures s[k].weight <= list.upperBound {
      SeekFinds(s, k);
      OrderedWeight(list.posting, s[k].doc);
    }
  }

  /** BTreePostingListReader: a forward iterator over a list it shares ownership of. */
  class PostingCursor {
    const list: PostingList
    var iter: nat

    function Order(): seq<Posting>
      reads list
    {
      InKeyOrder(list.posting)
    }

    ghost predicate Valid()
      reads this, list
    {
      list.Valid() && iter <= |Order()|
    }

    constructor (list: PostingList)
      ensures this.list == list && iter == 0
    {
      this.list := list;
      iter := 0;
    }

    /** The id under the cursor, 0 at the end. */
    ghost function Current(): DocId
      reads this, list
    {
      if iter < |Order()| then Order()[iter].doc else 0
    }

    method Next(current: DocId) returns (doc: DocId)
      requires Valid()
      modifies this
      ensures Valid()
      ensures iter == Seek(Order(), old(iter), current)
      ensures doc == Current()
    {
      while iter < |Order()|
        invariant Valid() && old(iter) <= iter
        invariant Seek(Order(), old(iter), current) == Seek(Order(), iter, current)
      {
        if Order()[iter].doc > current {
          return Order()[iter].doc;
        }
        iter := iter + 1;
      }
      return 0;
    }

    method Read() returns (weight: real)
      requires Valid() && iter < |Order()|
      ensures weight == Order()[iter].weight
    {
      weight := Order()[iter].weight;
    }
  }

  /** A posting list with every weight multiplied by a query weight. */
  ghost function Scale(s: seq<Posting>, query: real): (r: seq<Posting>)
    ensures |r| == |s|
    ensures forall k :: 0 <= k < |s| ==> r[k].doc == s[k].doc
  {
    seq(|s|, k requires 0 <= k < |s| => Posting(s[k].doc, s[k].weight * query))
  }

  /** DotProductReader: a cursor whose weights are scaled by a fixed query weight. */
  datatype DotProductReader = DotProductReader(reader: PostingCursor, query: real) {

    ghost predicate Valid()
      reads reader, reader.list
    {
      reader.Valid()
    }

    /** The scaled postings this reader enumerates. */
    ghost function Scored(): seq<Posting>
      reads reader.list
    {
      Scale(reader.Order(), query)
    }

    method Next(current: DocId) returns (doc: DocId)
      requires Valid()
      modifies reader
      ensures Valid()
      ensures reader.iter == Seek(Scored(), old(reader.iter), current)
      ensures doc == reader.Current()
    {
      doc := reader.Next(current);
      SeekAgrees(reader.Order(), Scored(), old(reader.iter), current);
    }

    method Read() returns (score: real)
      requires Valid() && reader.iter < |reader.Order()|
      ensures score == Scored()[reader.iter].weight
    {
      var weight := reader.Read();
      score := weight * query;
    }

    function UpperBound(): real
      reads reader.list
    {
      reader.list.upperBound * query
    }
  }

  lemma SeekAgrees(s: seq<Posting>, t: seq<Posting>, from: nat, current: DocId)
    requires |s| == |t| && from <= |s|
    requires forall k :: 0 <= k < |s| ==> s[k].doc == t[k].doc
    ensures Seek(s, from, current) == Seek(t, from, current)
    decreases |s| - from
  {
  }

  /**
   * A scaled bound is a bound for the scaled list exactly when the query weight is not negative,
   * or it is negative and the list stores nothing below its bound of 0.
   */
  lemma ScaledBound(s: seq<Posting>, bound: real, query: real)
    requires Bounds(bound, s)
    ensures Bounds(bound * query, Scale(s, query)) <==>
            query >= 0.0 || (bound == 0.0 && forall k :: 0 <= k < |s| ==> s[k].weight == 0.0)
  {
  }

  /**
   * The stored list {1: -5} has bound 0, and scaled by -1 the weight 5 above the scaled bound 0. The list {1: 5}
   * scales to a negative bound, which would break the order of running sums.
   */
  lemma NegativeScale()
    ensures Bounds(0.0, [Posting(1, -5.0)]) && !Bounds(0.0 * -1.0, Scale([Posting(1, -5.0)], -1.0))
    ensures Bounds(5.0, [Posting(1, 5.0)]) && !Bounds(5.0 * -1.0, Scale([Posting(1, 5.0)], -1.0))
  {
    assert Scale([Posting(1, -5.0)], -1.0)[0].weight == 5.0;
  }
}
