/**
 * The reader a query hands out, either one scaled cursor or a WandReader over several, and
 * read_topn, which drains it.
 */
module Reading {
  import opened Wrappers
  import opened Sums
  import opened Postings
  import opened WandSpec
  import opened Wand
  import opened Heap
  import opened TopN
  import opened TopNSpec

  /** PostingListReader<DocId, Score> as the index manager returns it: the two kinds it can be. */
  datatype QueryReader = Single(r: DotProductReader) | Merged(w: WandReader) {

    /** The objects a read may move. */
    ghost function Moved(): set<object> {
      match this
      case Single(r) => {r.reader}
      case Merged(w) => {w} + w.owned
    }

    /** The posting lists a read looks at. */
    ghost function Sources(): set<object> {
      match this
      case Single(r) => {r.reader.list}
      case Merged(w) => w.shared
    }

    ghost predicate Valid()
      reads Moved(), Sources()
    {
      match this
      case Single(r) => r.Valid()
      case Merged(w) => w.Valid()
    }

    ghost function Lists(): seq<seq<Posting>>
      reads Sources()
    {
      match this
      case Single(r) => [r.Scored()]
      case Merged(w) => w.lists
    }

    /** Nothing beyond `current` was left behind. */
    ghost predicate Passed(current: int)
      requires Valid()
      reads Moved(), Sources()
    {
      match this
      case Single(r) => forall k :: 0 <= k < r.reader.iter ==> r.Scored()[k].doc <= current
      case Merged(w) => PassedAtMost(w.View(), current)
    }

    /** The reader stands on `p`, and a read will deliver its full score. */
    ghost predicate At(p: DocId)
      requires Valid()
      reads Moved(), Sources()
    {
      match this
      case Single(r) => p > 0 && r.reader.iter < |r.Scored()| && r.Scored()[r.reader.iter].doc == p
      case Merged(w) => |w.sorted| > 0 && w.cursors[w.sorted[0]] == p && Located(w.View(), p)
    }

    /** The bounds a WandReader judges documents by; a single cursor judges none. */
    ghost function Bounds(): Option<seq<real>> {
      match this
      case Single(r) => None
      case Merged(w) => Some(w.upperBounds)
    }

    /** A WandReader may skip what cannot beat this; a single cursor skips nothing. */
    ghost function Limit(): real
      reads Moved()
    {
      match this
      case Single(r) => 0.0
      case Merged(w) => w.threshold
    }
  }

  lemma ScoredSorted(r: DotProductReader)
    requires r.Valid()
    ensures Sorted(r.Scored())
  {
    InKeyOrderContents(r.reader.list.posting);
  }

  lemma ScoreOfOne(s: seq<Posting>, d: DocId)
    ensures Score([s], d) == WeightOf(s, d)
    ensures Occurs([s], d) <==> d in Docs(s)
  {
    var w := Weights([s], d);
    assert w == [WeightOf(s, d)];
    assert w[..0] == [];
    assert Sum(w) == Sum(w[..0]) + w[0];
    if d in Docs(s) { assert [s][0] == s; }
  }

  /** Every document of the lists between `low` and `p`, or beyond `low` when `p` is 0, may be skipped. */
  ghost predicate Gap(lists: seq<seq<Posting>>, skip: bool, limit: real, low: DocId, p: DocId) {
    forall d: DocId :: d > low && (p == 0 || d < p) && Occurs(lists, d) ==> skip && Score(lists, d) <= limit
  }

  /** A document a reader delivers: any of its lists', or only one whose bounds reach beyond the limit. */
  ghost predicate Wanted(lists: seq<seq<Posting>>, bounds: Option<seq<real>>, limit: real, d: DocId) {
    Occurs(lists, d) && (bounds.Some? ==> |bounds.value| == |lists| && Reach(lists, bounds.value, d) > limit)
  }

  /** `p` is the first wanted document beyond `low`, 0 when there is none. */
  ghost predicate Foremost(lists: seq<seq<Posting>>, bounds: Option<seq<real>>, limit: real, low: DocId, p: DocId) {
    && (p != 0 ==> p > low && Wanted(lists, bounds, limit, p))
    && (forall d: DocId :: d > low && (p == 0 || d < p) ==> !Wanted(lists, bounds, limit, d))
  }

  /** So the lists, their bounds and the limit alone decide what a reader delivers next. */
  lemma ForemostUnique(
    lists: seq<seq<Posting>>, bounds: Option<seq<real>>, limit: real, low: DocId, p: DocId, q: DocId)
    requires Foremost(lists, bounds, limit, low, p) && Foremost(lists, bounds, limit, low, q)
    ensures p == q
  {
    hide Wanted;
    assert p == 0 || Wanted(lists, bounds, limit, p);
    assert q == 0 || Wanted(lists, bounds, limit, q);
  }

  lemma SingleGap(s: seq<Posting>, iter: nat, iter': nat, current: DocId, p: DocId)
    requires Sorted(s) && iter <= |s| && iter' == Seek(s, iter, current)
    requires forall k :: 0 <= k < iter ==> s[k].doc <= current
    requires p == if iter' < |s| then s[iter'].doc else 0
    ensures Gap([s], false, 0.0, current, p) && Foremost([s], None, 0.0, current, p)
    ensures p != 0 ==> p > current && Occurs([s], p) && forall k :: 0 <= k < iter' ==> s[k].doc <= p
  {
    forall d: DocId | d > current && (p == 0 || d < p) ensures !Occurs([s], d) {
      ScoreOfOne(s, d);
      assert forall k :: iter' < k < |s| ==> s[iter'].doc < s[k].doc;
      assert forall k :: 0 <= k < |s| ==> s[k].doc != d;
    }
    if p != 0 {
      SeekFinds(s, iter');
      ScoreOfOne(s, p);
    }
  }

  method NextDocument(reader: QueryReader, current: DocId) returns (p: DocId)
    requires reader.Valid() && reader.Passed(current)
    modifies reader.Moved()
    ensures reader.Valid() && reader.Lists() == old(reader.Lists())
    ensures reader.Limit() == old(reader.Limit())
    ensures p != 0 ==> p > current && Occurs(reader.Lists(), p) && reader.At(p) && reader.Passed(p)
    ensures Gap(reader.Lists(), reader.Merged?, reader.Limit(), current, p)
    ensures Foremost(reader.Lists(), reader.Bounds(), reader.Limit(), current, p)
  {
    match reader
    case Single(r) =>
      ScoredSorted(r);
      ghost var s, iter := r.Scored(), r.reader.iter;
      p := r.Next(current);
      SingleGap(s, iter, r.reader.iter, current, p);
    case Merged(w) =>
      ghost var st := w.View();
      p := w.Next(current);
      FreshGap(st, w.threshold, current, p);
      if p != 0 { SettledPassed(w.View(), p); }
  }

  lemma FreshGap(st: State, threshold: real, current: DocId, p: DocId)
    requires Structure(st) && PassedAtMost(st, current) && NothingMissed(st, threshold, current, p)
    requires p != 0 ==> p > current && Occurs(st.lists, p) && Reach(st.lists, st.bounds, p) > threshold
    ensures Gap(st.lists, true, threshold, current, p) && Foremost(st.lists, Some(st.bounds), threshold, current, p)
  {
    forall d: DocId | d > current && (p == 0 || d < p) && Occurs(st.lists, d)
      ensures Reach(st.lists, st.bounds, d) <= threshold && Score(st.lists, d) <= threshold
    {
      ScoreWithinReach(st.lists, st.bounds, d);
    }
  }

  lemma SettledPassed(st: State, p: DocId)
    requires Structure(st) && Settled(st) && |st.sorted| > 0 && st.cursors[st.sorted[0]] == p
    ensures PassedAtMost(st, p)
  {
  }

  method ReadDocument(reader: QueryReader, ghost p: DocId) returns (score: real)
    requires reader.Valid() && reader.At(p)
    ensures score == Score(reader.Lists(), p)
    ensures reader.Valid() && reader.Lists() == old(reader.Lists()) && reader.Limit() == old(reader.Limit())
    ensures forall current: int :: old(reader.Passed(current)) ==> reader.Passed(current)
  {
    match reader
    case Single(r) =>
      ScoredSorted(r);
      SeekFinds(r.Scored(), r.reader.iter);
      ScoreOfOne(r.Scored(), p);
      score := r.Read();
    case Merged(w) =>
      score := w.Read();
  }

  /** The threshold hint; whether the reader honours it is its own choice. */
  method Hint(reader: QueryReader, score: real, honour: bool)
    requires reader.Valid()
    modifies reader.Moved()
    ensures reader.Valid() && reader.Lists() == old(reader.Lists())
    ensures forall current: int :: old(reader.Passed(current)) ==> reader.Passed(current)
    ensures reader.Limit() == if reader.Merged? && honour then score else old(reader.Limit())
  {
    if reader.Merged? && honour {
      reader.w.Threshold(score);
    }
  }

  lemma ListsSorted(reader: QueryReader)
    requires reader.Valid()
    ensures forall i :: 0 <= i < |reader.Lists()| ==> Sorted(reader.Lists()[i])
  {
    match reader
    case Single(r) => ScoredSorted(r);
    case Merged(w) =>
  }

  function LastDoc(found: seq<Posting>): DocId {
    if |found| == 0 then 0 else found[|found| - 1].doc
  }

  /**
   * A walk under a changing threshold: ascending documents of the lists with their full scores, each the first one
   * whose bounds reach beyond the threshold in force; whatever lies between two of them scores no more than that.
   */
  ghost predicate Walked(lists: seq<seq<Posting>>, bounds: seq<real>, hints: seq<real>, found: seq<Posting>) {
    && |found| <= |hints|
    && (forall k :: 0 <= k < |found| ==>
          && found[k].doc > LastDoc(found[..k]) && Occurs(lists, found[k].doc)
          && found[k].weight == Score(lists, found[k].doc)
          && Gap(lists, true, hints[k], LastDoc(found[..k]), found[k].doc)
          && Foremost(lists, Some(bounds), hints[k], LastDoc(found[..k]), found[k].doc))
  }

  lemma WalkMore(
    lists: seq<seq<Posting>>, bounds: seq<real>, hints: seq<real>, found: seq<Posting>, x: Posting)
    requires Walked(lists, bounds, hints, found) && |found| < |hints|
    requires x.doc > LastDoc(found) && Occurs(lists, x.doc) && x.weight == Score(lists, x.doc)
    requires Gap(lists, true, hints[|found|], LastDoc(found), x.doc)
    requires Foremost(lists, Some(bounds), hints[|found|], LastDoc(found), x.doc)
    ensures Walked(lists, bounds, hints, found + [x])
  {
    hide Gap, Score, Occurs, Foremost;
    var more := found + [x];
    forall k | 0 <= k < |more|
      ensures more[k].doc > LastDoc(more[..k]) && Occurs(lists, more[k].doc)
              && more[k].weight == Score(lists, more[k].doc)
              && Gap(lists, true, hints[k], LastDoc(more[..k]), more[k].doc)
              && Foremost(lists, Some(bounds), hints[k], LastDoc(more[..k]), more[k].doc)
    {
      if k < |found| { assert more[..k] == found[..k]; } else { assert more[..k] == found; }
    }
  }

  /**
   * Pruning is safe for every sequence of thresholds, rising or not; a walk that ends early missed nothing above
   * its last one.
   */
  method Walk(w: WandReader, hints: seq<real>) returns (found: seq<Posting>)
    requires Merged(w).Valid() && Merged(w).Passed(0)
    modifies Merged(w).Moved()
    ensures Merged(w).Valid() && Merged(w).Lists() == old(Merged(w).Lists())
    ensures Walked(Merged(w).Lists(), w.upperBounds, hints, found)
    ensures |found| < |hints| ==> Gap(Merged(w).Lists(), true, hints[|found|], LastDoc(found), 0)
    ensures |found| < |hints| ==> Foremost(Merged(w).Lists(), Some(w.upperBounds), hints[|found|], LastDoc(found), 0)
  {
    hide Gap, Score, Occurs, Walked, Foremost, QueryReader.Valid, QueryReader.Lists, QueryReader.Passed, QueryReader.At;
    var reader := Merged(w);
    ghost var lists := reader.Lists();
    found := [];
    WalkStart(lists, w.upperBounds, hints);
    while |found| < |hints|
      invariant |found| <= |hints| && reader.Valid() && reader.Lists() == lists && reader.Passed(LastDoc(found))
      invariant Walked(lists, w.upperBounds, hints, found)
    {
      Hint(reader, hints[|found|], true);
      var p := NextDocument(reader, LastDoc(found));
      if p == 0 { return; }
      var score := ReadDocument(reader, p);
      WalkMore(lists, w.upperBounds, hints, found, Posting(p, score));
      found := found + [Posting(p, score)];
    }
  }

  lemma WalkStart(lists: seq<seq<Posting>>, bounds: seq<real>, hints: seq<real>)
    ensures Walked(lists, bounds, hints, [])
  {
  }

  /** What the reader skips under its current limit is excused by the first limit or by the full heap. */
  lemma GapExcusable(
    lists: seq<seq<Posting>>, seen: seq<Posting>, h: seq<Posting>, n: nat, skip: bool, limit: real, now: real,
    current: DocId, p: DocId)
    requires Gap(lists, skip, now, current, p) && Progress(lists, seen, h, n, skip, limit, now, current)
    ensures Excusable(lists, h, n, skip, limit, current, p)
  {
  }

  function Arranged(h: seq<Posting>, sortWeight: bool): seq<Posting> {
    if sortWeight then Sort(h) else h
  }

  lemma ArrangedHeap(h: seq<Posting>, sortWeight: bool)
    requires IsHeap(h)
    ensures multiset(Arranged(h, sortWeight)) == multiset(h)
    ensures sortWeight ==> Descending(Arranged(h, sortWeight))
  {
    SortHeap(h);
  }

  /** One turn of the loop: read the document, offer it to the heap, and hint the reader after a replacement. */
  method Consider(reader: QueryReader, results: seq<Posting>, count: nat, p: DocId, obeys: bool)
    returns (more: seq<Posting>)
    requires reader.Valid() && reader.At(p) && reader.Passed(p) && 0 < count && |results| <= count
    modifies reader.Moved()
    ensures reader.Valid() && reader.Lists() == old(reader.Lists()) && reader.Passed(p)
    ensures more == Offer(results, Scored(reader.Lists(), p), count)
    ensures || reader.Limit() == old(reader.Limit())
            || (obeys && |results| == count && |more| > 0 && reader.Limit() == more[0].weight)
  {
    hide Push, Pop, Score;
    hide QueryReader.Valid, QueryReader.Lists, QueryReader.Moved, QueryReader.Sources;
    hide QueryReader.Passed, QueryReader.At;
    more := results;
    if |results| < count {
      var score := ReadDocument(reader, p);
      more := Push(results, Posting(p, score));
    } else {
      var score := ReadDocument(reader, p);
      if score > results[0].weight {
        more := Push(Pop(results), Posting(p, score));
        // the base class declares the hint with another signature, so a reader may never see it
        var honour: bool := *;
        honour := honour && obeys;
        Hint(reader, more[0].weight, honour);
      }
    }
  }

  lemma NoneWanted(lists: seq<seq<Posting>>, skip: bool, limit: real, sortWeight: bool)
    ensures IsTopN(lists, [], 0, skip, limit) && Descending([]) && Arranged(Run([], 0), sortWeight) == []
    ensures forall b :: Follows(lists, [], 0, b)
  {
    forall b { NoneEntered(Stream(lists, b)); }
  }

  /** The wanted documents up to `b`, ascending, with their full scores. */
  ghost function Selected(lists: seq<seq<Posting>>, bounds: Option<seq<real>>, limit: real, b: DocId): seq<Posting> {
    if b == 0 then []
    else Selected(lists, bounds, limit, b - 1) + if Wanted(lists, bounds, limit, b) then [Scored(lists, b)] else []
  }

  lemma {:induction false} SelectedSkip(
    lists: seq<seq<Posting>>, bounds: Option<seq<real>>, limit: real, b: DocId, b': DocId)
    requires b <= b' && forall d: DocId :: b < d <= b' ==> !Wanted(lists, bounds, limit, d)
    ensures Selected(lists, bounds, limit, b') == Selected(lists, bounds, limit, b)
    decreases b'
  {
    hide Wanted;
    if b < b' { SelectedSkip(lists, bounds, limit, b, b' - 1); }
  }

  /** The first wanted document is the next one selected, and after the last there is none. */
  lemma SelectedNext(lists: seq<seq<Posting>>, bounds: Option<seq<real>>, limit: real, b: DocId, p: DocId)
    requires Foremost(lists, bounds, limit, b, p)
    ensures p != 0 ==> Selected(lists, bounds, limit, p) == Selected(lists, bounds, limit, b) + [Scored(lists, p)]
    ensures p == 0 ==>
              forall b': DocId :: b <= b' ==> Selected(lists, bounds, limit, b') == Selected(lists, bounds, limit, b)
  {
    hide Wanted, Scored;
    if p != 0 {
      SelectedSkip(lists, bounds, limit, b, p - 1);
    } else {
      forall b': DocId | b <= b' ensures Selected(lists, bounds, limit, b') == Selected(lists, bounds, limit, b) {
        SelectedSkip(lists, bounds, limit, b, b');
      }
    }
  }

  /**
   * The best `count` documents. When no document is below the first limit, the documents that enter the heap, in
   * their order, and the result are those of the full stream, whatever became of the hints. A reader that does not
   * see them, as in the program, delivers exactly the documents whose bounds reach beyond the first limit.
   */
  method ReadTopN(reader: QueryReader, count: nat, sortWeight: bool, obeys: bool)
    returns (results: seq<Posting>, ghost seen: seq<Posting>)
    requires reader.Valid() && reader.Passed(0)
    modifies reader.Moved()
    ensures reader.Valid() && reader.Lists() == old(reader.Lists())
    ensures IsTopN(reader.Lists(), results, count, reader.Merged?, old(reader.Limit()))
    ensures sortWeight ==> Descending(results)
    ensures results == Arranged(Run(seen, count), sortWeight)
    ensures AllWanted(reader.Lists(), reader.Merged?, old(reader.Limit())) ==>
              forall b :: Ends(reader.Lists(), b) ==> Follows(reader.Lists(), seen, count, b)
    ensures !obeys && count > 0 ==>
              forall b: DocId :: Ends(reader.Lists(), b) ==>
                seen == Selected(reader.Lists(), reader.Bounds(), old(reader.Limit()), b)
  {
    hide Progress, Offer, Run, Arranged, Descending, Stream, Follows, Excusable, Gap, AllWanted;
    hide Occurs, Score, Ends, IsTopN, Foremost, Wanted, Selected, QueryReader.Bounds;
    hide QueryReader.Valid, QueryReader.Lists, QueryReader.Moved, QueryReader.Sources;
    hide QueryReader.Passed, QueryReader.At;
    results, seen := [], [];
    if count == 0 {
      NoneWanted(reader.Lists(), reader.Merged?, reader.Limit(), sortWeight);
      return;
    }
    ghost var lists, bounds, skip, limit := reader.Lists(), reader.Bounds(), reader.Merged?, reader.Limit();
    NoneSelected(lists, bounds, limit);
    ListsSorted(reader);
    ghost var end := LastId(lists);
    ProgressStart(lists, count, skip, limit);
    var current := 0;
    var p := NextDocument(reader, current);
    GapExcusable(lists, seen, results, count, skip, limit, reader.Limit(), current, p);
    while p != 0
      invariant reader.Valid() && reader.Lists() == lists
      invariant !obeys ==> reader.Limit() == limit && seen == Selected(lists, bounds, limit, current)
      invariant !obeys ==> Foremost(lists, bounds, limit, current, p)
      invariant Progress(lists, seen, results, count, skip, limit, reader.Limit(), current)
      invariant Excusable(lists, results, count, skip, limit, current, p)
      invariant p != 0 ==> p > current && Occurs(lists, p) && reader.At(p) && reader.Passed(p)
      decreases end as int - current
    {
      OccursWithin(lists, end, p);
      ProgressStep(lists, seen, results, count, skip, limit, reader.Limit(), current, p);
      seen := seen + [Scored(lists, p)];
      if !obeys { SelectedNext(lists, bounds, limit, current, p); }
      results := Consider(reader, results, count, p, obeys);
      current := p;
      p := NextDocument(reader, current);
      GapExcusable(lists, seen, results, count, skip, limit, reader.Limit(), current, p);
    }
    if !obeys { SelectedEnd(lists, bounds, limit, current); }
    ProgressHeap(lists, seen, results, count, skip, limit, reader.Limit(), current);
    ArrangedHeap(results, sortWeight);
    ProgressEnd(lists, seen, results, count, skip, limit, reader.Limit(), current, Arranged(results, sortWeight));
    ArrangedIs(results, sortWeight);
    if sortWeight {
      results := Sort(results);
    }
  }

  lemma NoneSelected(lists: seq<seq<Posting>>, bounds: Option<seq<real>>, limit: real)
    ensures Selected(lists, bounds, limit, 0) == []
  {
  }

  lemma SelectedEnd(lists: seq<seq<Posting>>, bounds: Option<seq<real>>, limit: real, current: DocId)
    requires Foremost(lists, bounds, limit, current, 0)
    ensures forall b: DocId :: Ends(lists, b) ==>
              Selected(lists, bounds, limit, b) == Selected(lists, bounds, limit, current)
  {
    hide Selected;
    forall b: DocId | Ends(lists, b)
      ensures Selected(lists, bounds, limit, b) == Selected(lists, bounds, limit, current)
    {
      if current <= b {
        SelectedSkip(lists, bounds, limit, current, b);
      } else {
        SelectedSkip(lists, bounds, limit, b, current);
      }
    }
  }

  lemma ArrangedIs(h: seq<Posting>, sortWeight: bool)
    ensures Arranged(h, sortWeight) == if sortWeight then Sort(h) else h
  {
  }

  lemma ProgressHeap(
    lists: seq<seq<Posting>>, seen: seq<Posting>, h: seq<Posting>, n: nat, skip: bool, limit: real, now: real,
    current: DocId)
    requires Progress(lists, seen, h, n, skip, limit, now, current)
    ensures IsHeap(h) && h == Run(seen, n)
  {
    RunIsHeap(seen, n);
  }

  lemma SortedTail(s: seq<Posting>, from: nat)
    requires Sorted(s) && from <= |s|
    ensures Sorted(s[from..])
  {
  }

  /** What is left of a list past position `from`, seen from one key. */
  lemma FromPosition(s: seq<Posting>, from: nat, key: DocId)
    requires Sorted(s) && from <= |s| && key != 0
    ensures var k, left := Seek(s, from, key - 1), Contents(s[from..]);
            && (k < |s| && s[k].doc == key <==> key in left)
            && (key in left ==> left[key] == s[k].weight)
  {
    hide Seek, Contents, WeightOf;
    var left := s[from..];
    var k := Seek(s, from, key - 1);
    SortedTail(s, from);
    ContentsKeys(left);
    ContentsWeight(left, key);
    if k < |s| && s[k].doc == key {
      assert left[k - from].doc == key;
      SeekFinds(left, k - from);
    } else if key in Docs(left) {
      var i := DocPosition(left, key);
      assert false;
    }
  }

  /**
   * read_single: step to the key from its predecessor. On a fresh cursor it gives the stored weight exactly
   * when the key is in the list; in general, when the cursor has not passed it.
   */
  method ReadSingle(reader: PostingCursor, key: DocId) returns (r: Option<real>)
    requires reader.Valid()
    modifies reader
    ensures var left := Contents(old(reader.Order()[reader.iter..]));
            r == if key in left then Some(left[key]) else None
    ensures old(reader.iter) == 0 ==>
              r == if key in reader.list.posting then Some(reader.list.posting[key]) else None
  {
    hide InKeyOrder, Contents, Sorted, Seek, Docs;
    ghost var order := reader.Order();
    InKeyOrderContents(reader.list.posting);
    assert order[0..] == order;
    if key == 0 {
      NoInvalid(order, reader.iter);
      return None;
    }
    FromPosition(order, reader.iter, key);
    var found := reader.Next(key - 1);
    if found == key {
      var weight := reader.Read();
      return Some(weight);
    }
    return None;
  }

  lemma NoInvalid(s: seq<Posting>, from: nat)
    requires Sorted(s) && from <= |s|
    ensures 0 !in Contents(s[from..])
  {
    ContentsKeys(s[from..]);
  }
}
