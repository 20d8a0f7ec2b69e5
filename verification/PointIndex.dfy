/** PointIndexImpl: an index updated point by point, each (term, document) point with its own expiry time. */
module PointIndex {
  import opened Wrappers
  import opened Postings
  import opened BaseIndex
  import opened ExpireTable
  import opened RowSpec

  type Weights = map<Key, real>

  datatype PointTuple = PointTuple(doc: DocId, term: TermId, weight: real, time: int)

  /** The weights and the times once a batch is written over them. */
  function WeightsAfter(points: Weights, batch: seq<PointTuple>): Weights {
    if |batch| == 0 then points
    else
      var p := batch[|batch| - 1];
      WeightsAfter(points, batch[..|batch| - 1])[Key(p.term, p.doc) := p.weight]
  }

  function TimesAfter(times: map<Key, int>, batch: seq<PointTuple>): map<Key, int> {
    if |batch| == 0 then times
    else
      var p := batch[|batch| - 1];
      TimesAfter(times, batch[..|batch| - 1])[Key(p.term, p.doc) := p.time]
  }

  /** Tuple i of a batch is the last one for the key. */
  ghost predicate LastTuple(batch: seq<PointTuple>, key: Key, i: nat) {
    && i < |batch| && Key(batch[i].term, batch[i].doc) == key
    && forall j :: i < j < |batch| ==> Key(batch[j].term, batch[j].doc) != key
  }

  /** Every point of a batch gets the weight and the time of its last tuple, and the others stay. */
  lemma {:induction false} BatchLast(points: Weights, times: map<Key, int>, batch: seq<PointTuple>, key: Key)
    ensures forall i: nat :: LastTuple(batch, key, i) ==>
              && key in WeightsAfter(points, batch) && WeightsAfter(points, batch)[key] == batch[i].weight
              && key in TimesAfter(times, batch) && TimesAfter(times, batch)[key] == batch[i].time
    ensures (forall i: nat :: !LastTuple(batch, key, i)) ==>
              && (key in WeightsAfter(points, batch) <==> key in points)
              && (key in points ==> WeightsAfter(points, batch)[key] == points[key])
              && (key in TimesAfter(times, batch) <==> key in times)
              && (key in times ==> TimesAfter(times, batch)[key] == times[key])
  {
    hide LastTuple;
    if |batch| > 0 {
      BatchLast(points, times, batch[..|batch| - 1], key);
      LastOfFront(batch, key);
      var last := batch[|batch| - 1];
      assert Key(last.term, last.doc) == key ==> LastTuple(batch, key, |batch| - 1);
    } else {
      NoTuple(key);
    }
  }

  lemma LastOfFront(batch: seq<PointTuple>, key: Key)
    requires |batch| > 0
    ensures var n, front := |batch| - 1, batch[..|batch| - 1];
            if Key(batch[n].term, batch[n].doc) == key then forall i: nat :: LastTuple(batch, key, i) <==> i == n
            else forall i: nat ::
                   (LastTuple(batch, key, i) <==> LastTuple(front, key, i)) && (LastTuple(front, key, i) ==> i < n)
  {
    var n, front := |batch| - 1, batch[..|batch| - 1];
    if Key(batch[n].term, batch[n].doc) != key {
      forall i: nat ensures LastTuple(batch, key, i) <==> LastTuple(front, key, i) {
        assert i < n ==> front[i] == batch[i];
      }
    }
  }

  lemma NoTuple(key: Key)
    ensures forall i: nat :: !LastTuple([], key, i)
  {
  }

  /** How many points of a batch the lists accept. */
  function Accepted(batch: seq<PointTuple>): nat {
    if |batch| == 0 then 0 else Accepted(batch[..|batch| - 1]) + if batch[|batch| - 1].doc == 0 then 0 else 1
  }

  /** The terms whose lists lose one of the given points. */
  ghost function TermsOfKeys(keys: set<Key>, known: set<TermId>): set<TermId> {
    set k | k in keys && k.term in known :: k.term
  }

  /** The lists hold exactly the points of the valid documents. */
  ghost predicate Holds(v: Table, points: Weights) {
    forall t, d {:trigger Cell(v, t, d)} ::
      Cell(v, t, d) == if d != 0 && Key(t, d) in points then Some(points[Key(t, d)]) else None
  }

  // ----- The reference machine -------------------------------------------------------------------------

  /** `points` and `times` are current; `applied` is what `points` was at the last apply. */
  datatype PointState = PointState(points: Weights, applied: Weights, times: map<Key, int>)

  datatype PointOp = Put(batch: seq<PointTuple>) | Publish(time: int)

  ghost predicate PointStep(s: PointState, op: PointOp, s': PointState, maxSize: nat) {
    match op
    case Put(batch) => s' == PointState(WeightsAfter(s.points, batch), s.applied, TimesAfter(s.times, batch))
    case Publish(time) => exists gone :: Dropped(s, gone, s', time, maxSize)
  }

  ghost predicate Dropped(s: PointState, gone: set<Item>, s': PointState, time: int, maxSize: nat) {
    && Expires(ItemsOf(s.times), gone, time, maxSize)
    && s'.times == s.times - KeySet(gone)
    && s'.points == s.points - KeySet(gone)
    && s'.applied == s'.points
  }

  ghost predicate PointRun(trace: seq<PointState>, ops: seq<PointOp>, maxSize: nat) {
    && |trace| == |ops| + 1
    && (forall i :: 0 <= i < |ops| ==> PointStep(trace[i], ops[i], trace[i + 1], maxSize))
  }

  /** An apply without limit keeps exactly the points that are not due, as they were. */
  lemma PublishKeeps(s: PointState, now: int, s': PointState, k: Key)
    requires PointStep(s, Publish(now), s', 0) && s.points.Keys == s.times.Keys
    ensures k in s'.points <==> k in s.points && !Due(Item(k, s.times[k]), now)
    ensures k in s'.points ==> s'.points[k] == s.points[k] && k in s'.times && s'.times[k] == s.times[k]
    ensures s'.applied == s'.points && s'.points.Keys == s'.times.Keys
  {
    var gone :| Dropped(s, gone, s', now, 0);
    if k in s.times {
      var x := Item(k, s.times[k]);
      assert x in ItemsOf(s.times);
      assert x in gone <==> Due(x, now);
    }
    forall x: Item | x in gone ensures x.key in s.times && s.times[x.key] == x.time {
      assert x in ItemsOf(s.times);
    }
    assert k in KeySet(gone) <==> k in s.times && Item(k, s.times[k]) in gone;
  }

  /** Operations fix the outcome, and so every state of a run. */
  lemma PointStepFunctional(s: PointState, op: PointOp, a: PointState, b: PointState, maxSize: nat)
    requires PointStep(s, op, a, maxSize) && PointStep(s, op, b, maxSize)
    ensures a == b
  {
    if op.Publish? {
      var g :| Dropped(s, g, a, op.time, maxSize);
      var h :| Dropped(s, h, b, op.time, maxSize);
      ExpiresUnique(ItemsOf(s.times), g, h, op.time, maxSize);
    }
  }

  lemma {:induction false} PointRunFunctional(
    a: seq<PointState>, b: seq<PointState>, ops: seq<PointOp>, k: nat, maxSize: nat)
    requires PointRun(a, ops, maxSize) && PointRun(b, ops, maxSize) && a[0] == b[0] && k <= |ops|
    ensures a[k] == b[k]
  {
    hide PointStep;
    if k > 0 {
      PointRunFunctional(a, b, ops, k - 1, maxSize);
      assert PointStep(a[k - 1], ops[k - 1], a[k - 1 + 1], maxSize);
      assert PointStep(b[k - 1], ops[k - 1], b[k - 1 + 1], maxSize);
      PointStepFunctional(a[k - 1], ops[k - 1], a[k], b[k], maxSize);
    }
  }

  lemma WritePoint(v: Table, v': Table, points: Weights, doc: DocId, t: TermId, weight: real)
    requires Holds(v, points) && Written(v, v', doc, map[t := weight])
    ensures Holds(v', points[Key(t, doc) := weight])
  {
  }

  lemma ClearPoint(v: Table, v': Table, points: Weights, doc: DocId, t: TermId)
    requires Holds(v, points) && Cleared(v, v', doc, [t])
    ensures Holds(v', points - {Key(t, doc)})
  {
  }

  lemma SamePoints(v: Table, v': Table, points: Weights)
    requires Holds(v, points) && forall t :: At(v', t) == At(v, t)
    ensures Holds(v', points)
  {
    forall t, d ensures Cell(v', t, d) == if d != 0 && Key(t, d) in points then Some(points[Key(t, d)]) else None {
      assert At(v', t) == At(v, t);
      assert Cell(v, t, d) == if d != 0 && Key(t, d) in points then Some(points[Key(t, d)]) else None;
    }
  }

  class Points {
    const index: Index
    const expire: Expiries
    const maxSize: nat

    /** The latest weight of every point that is neither expired nor evicted, now and at the last apply. */
    ghost var points: Weights
    ghost var applied: Weights

    ghost predicate Agrees()
      reads this, index, index.private, index.published
      ensures Agrees() ==> this !in index.private && expire !in index.private && index !in index.private
    {
      && this !in index.private && expire !in index.private && index !in index.private
      && index.Valid()
      && Holds(index.View(), points)
      && Holds(index.live, applied)
    }

    /** The points of the lists are exactly the points of the expire table. */
    ghost predicate Valid()
      reads this, index, expire, index.private, index.published
    {
      Agrees() && expire.Valid() && points.Keys == expire.times.Keys
    }

    ghost function Abstract(): PointState
      reads this, expire
    {
      PointState(points, applied, expire.times)
    }

    constructor (maxSize: nat)
      ensures Valid() && fresh(index) && fresh(expire) && fresh(index.private)
      ensures this.maxSize == maxSize && points == applied == map[] && index.published == {}
    {
      this.maxSize := maxSize;
      index := new Index();
      expire := new Expiries();
      points, applied := map[], map[];
    }

    /** An index put together from loaded parts, taken to hold the given points. */
    constructor FromParts(maxSize: nat, index: Index, expire: Expiries, ghost points: Weights)
      ensures this.maxSize == maxSize && this.index == index && this.expire == expire
      ensures this.points == points && this.applied == points
    {
      this.maxSize, this.index, this.expire := maxSize, index, expire;
      this.points, this.applied := points, points;
    }

    method Update(doc: DocId, t: TermId, weight: real, time: int) returns (ret: int)
      requires Valid()
      modifies this, index, expire, index.private
      ensures Valid() && points == old(points)[Key(t, doc) := weight] && applied == old(applied)
      ensures expire.times == old(expire.times)[Key(t, doc) := time]
      ensures index.live == old(index.live)
      ensures fresh(index.private - old(index.private)) && index.KeepsPublished()
      ensures ret == if doc == 0 then 0 else 1
    {
      hide Index.Valid, Expiries.Valid, Holds, Written;
      expire.Update(Key(t, doc), time);
      ghost var live, pending := index.live, index.pending;
      ret := index.CreateUpdate(doc, t, weight);
      ViewUpdate(live, pending, t, if doc == 0 then At(live + pending, t) else At(live + pending, t)[doc := weight]);
      CreateCell(live + pending, doc, t, weight, index.View());
      WritePoint(live + pending, index.View(), points, doc, t, weight);
      points := points[Key(t, doc) := weight];
    }

    /** Update point by point, in order. */
    method BatchUpdate(batch: seq<PointTuple>) returns (ret: int)
      requires Valid()
      modifies this, index, expire, index.private
      ensures Valid() && points == WeightsAfter(old(points), batch) && applied == old(applied)
      ensures expire.times == TimesAfter(old(expire.times), batch) && ret == Accepted(batch)
      ensures index.live == old(index.live)
      ensures fresh(index.private - old(index.private)) && index.KeepsPublished()
    {
      hide Valid;
      ret := 0;
      var i := 0;
      while i < |batch|
        invariant 0 <= i <= |batch| && Valid()
        invariant points == WeightsAfter(old(points), batch[..i]) && applied == old(applied)
        invariant expire.times == TimesAfter(old(expire.times), batch[..i]) && ret == Accepted(batch[..i])
        invariant index.live == old(index.live)
        invariant fresh(index.private - old(index.private)) && index.KeepsPublished()
      {
        assert batch[..i + 1][..i] == batch[..i];
        var one := Update(batch[i].doc, batch[i].term, batch[i].weight, batch[i].time);
        ret := ret + one;
        i := i + 1;
      }
      assert batch[..i] == batch;
    }

    /** Take one expired point out of its list. */
    method RemovePoint(key: Key)
      requires Agrees()
      modifies this`points, index, index.private
      ensures Agrees() && points == old(points) - {key}
      ensures index.pending.Keys == old(index.pending).Keys + if key.term in old(index.View()) then {key.term} else {}
      ensures index.View().Keys == old(index.View()).Keys
      ensures index.live == old(index.live) && index.published == old(index.published)
      ensures fresh(index.private - old(index.private)) && index.KeepsPublished()
    {
      hide Index.Valid, Holds, Cleared;
      ghost var live, pending := index.live, index.pending;
      var one := index.Remove(key.doc, key.term);
      RemoveCell(live + pending, key.doc, key.term, index.View());
      ClearPoint(live + pending, index.View(), points, key.doc, key.term);
      points := points - {key};
    }

    method RemoveExpired(results: seq<Item>)
      requires Agrees()
      modifies this`points, index, index.private
      ensures Agrees() && points == old(points) - KeysOf(results)
      ensures index.pending.Keys ==
              old(index.pending).Keys + TermsOfKeys(KeysOf(results), old(index.View()).Keys)
      ensures index.live == old(index.live) && index.published == old(index.published)
      ensures fresh(index.private - old(index.private)) && index.KeepsPublished()
    {
      hide Agrees, KeysOf, TermsOfKeys;
      ghost var known, was := index.View().Keys, index.pending.Keys;
      NoPoints(points);
      NoTermsOfKeys(was, known);
      assert results[..0] == [];
      var i := 0;
      while i < |results|
        invariant 0 <= i <= |results| && Agrees()
        invariant points == old(points) - KeysOf(results[..i])
        invariant index.pending.Keys == was + TermsOfKeys(KeysOf(results[..i]), known) && index.View().Keys == known
        invariant index.live == old(index.live) && index.published == old(index.published)
        invariant fresh(index.private - old(index.private)) && index.KeepsPublished()
      {
        FewerPoints(old(points), results, i);
        MoreTermsOfKeys(was, results, i, known);
        RemovePoint(results[i].key);
        i := i + 1;
      }
      assert results[..i] == results;
    }

    method PublishPoints() returns (ret: int)
      requires Agrees()
      modifies this`applied, index, index.private
      ensures Agrees() && applied == points && index.pending == map[] && index.private == {}
      ensures ret == |old(index.pending).Keys|
      ensures index.KeepsPublished()
    {
      hide Index.Valid, Holds, Applied;
      ghost var live, pending := index.live, index.pending;
      ret := index.Apply();
      forall t ensures At(index.live, t) == At(live + pending, t) { AppliedReads(live, pending, t); }
      SamePoints(live + pending, index.live, points);
      assert index.View() == index.live;
      applied := points;
    }

    /** Take the given points out and publish what is then pending. */
    method DropAndPublish(results: seq<Item>) returns (ret: int)
      requires Agrees()
      modifies this`points, this`applied, index, index.private
      ensures Agrees() && points == old(points) - KeysOf(results) && applied == points
      ensures index.pending == map[] && index.private == {}
      ensures ret == |old(index.pending).Keys + TermsOfKeys(KeysOf(results), old(index.View()).Keys)|
      ensures index.KeepsPublished()
    {
      hide Agrees, KeysOf, TermsOfKeys;
      RemoveExpired(results);
      ret := PublishPoints();
    }

    /**
     * Expire what is due or too many and publish the rest: what stays is not due, at most a non-zero
     * limit of it, and exactly that is what the published lists then hold.
     */
    method Apply(time: int) returns (ret: int, retExpire: int)
      requires Valid()
      modifies this, index, expire, index.private
      ensures Valid() && applied == points && index.pending == map[] && index.private == {}
      ensures PointStep(old(Abstract()), Publish(time), Abstract(), maxSize)
      ensures Expires(old(expire.table), old(expire.table) - expire.table, time, maxSize)
      ensures forall k :: k in points ==> k in old(points) && points[k] == old(points)[k]
      ensures forall k :: k in points ==> expire.times[k] > time && expire.times[k] == old(expire.times)[k]
      ensures maxSize != 0 ==> |points| <= maxSize
      ensures retExpire == |old(points)| - |points|
      ensures var gone := old(points).Keys - points.Keys;
              ret == |old(index.pending).Keys + TermsOfKeys(gone, old(index.View()).Keys)|
      ensures index.KeepsPublished()
    {
      hide Agrees, Bijection, Expires, Ascending, KeysOf, Members, TermsOfKeys;
      ghost var times, table := expire.times, expire.table;
      var results := expire.ExpireWithLimit(time, maxSize);
      retExpire := |results|;
      ret := DropAndPublish(results);
      ExpiredPoints(times, table, results, expire.times, expire.table, time, maxSize);
      DroppedPoints(old(Abstract()), table, results, Abstract(), time, maxSize);
    }

    /** Any run of updates and applies refines a run of the plain points and keeps what was published. */
    method Execute(ops: seq<PointOp>) returns (ghost trace: seq<PointState>)
      requires Valid()
      modifies this, index, expire, index.private
      ensures Valid() && PointRun(trace, ops, maxSize)
      ensures trace[0] == old(Abstract()) && trace[|ops|] == Abstract()
      ensures fresh(index.private - old(index.private)) && index.KeepsPublished()
    {
      hide Valid, PointStep, Expires;
      trace := [Abstract()];
      var i := 0;
      while i < |ops|
        invariant 0 <= i <= |ops| && Valid() && PointRun(trace, ops[..i], maxSize)
        invariant trace[0] == old(Abstract()) && trace[i] == Abstract()
        invariant fresh(index.private - old(index.private)) && index.KeepsPublished()
      {
        Perform(ops[i]);
        PointRunMore(trace, ops, i, Abstract(), maxSize);
        trace := trace + [Abstract()];
        i := i + 1;
      }
      assert ops[..i] == ops;
    }

    method Perform(op: PointOp)
      requires Valid()
      modifies this, index, expire, index.private
      ensures Valid() && PointStep(old(Abstract()), op, Abstract(), maxSize)
      ensures fresh(index.private - old(index.private)) && index.KeepsPublished()
    {
      hide Valid, Expires, Index.KeepsPublished;
      match op
      case Put(batch) => var ret := BatchUpdate(batch);
      case Publish(time) => var ret, retExpire := Apply(time);
    }
  }

  lemma PointRunMore(trace: seq<PointState>, ops: seq<PointOp>, i: nat, s: PointState, maxSize: nat)
    requires i < |ops| && PointRun(trace, ops[..i], maxSize) && PointStep(trace[i], ops[i], s, maxSize)
    ensures PointRun(trace + [s], ops[..i + 1], maxSize)
  {
    hide PointStep;
    var more := trace + [s];
    forall k | 0 <= k < i + 1 ensures PointStep(more[k], ops[..i + 1][k], more[k + 1], maxSize) {
      if k < i { assert PointStep(trace[k], ops[..i][k], trace[k + 1], maxSize); }
    }
  }

  lemma DroppedPoints(s: PointState, table: set<Item>, results: seq<Item>, s': PointState, time: int, maxSize: nat)
    requires Bijection(s.times, table) && Expires(table, Members(results), time, maxSize)
    requires s'.times == s.times - KeysOf(results) && s'.points == s.points - KeysOf(results) && s'.applied == s'.points
    ensures PointStep(s, Publish(time), s', maxSize)
  {
    hide Expires;
    assert table == ItemsOf(s.times);
    assert KeysOf(results) == KeySet(Members(results));
    assert Dropped(s, Members(results), s', time, maxSize);
  }

  lemma NoPoints(points: Weights)
    ensures points - KeysOf([]) == points
  {
  }

  lemma NoTermsOfKeys(was: set<TermId>, known: set<TermId>)
    ensures was == was + TermsOfKeys(KeysOf([]), known)
  {
  }

  lemma MoreTermsOfKeys(was: set<TermId>, results: seq<Item>, i: nat, known: set<TermId>)
    requires i < |results|
    ensures was + TermsOfKeys(KeysOf(results[..i + 1]), known) ==
            was + TermsOfKeys(KeysOf(results[..i]), known)
            + if results[i].key.term in known then {results[i].key.term} else {}
  {
    Grow(results, i);
  }

  lemma FewerPoints(points: Weights, results: seq<Item>, i: nat)
    requires i < |results|
    ensures points - KeysOf(results[..i + 1]) == points - KeysOf(results[..i]) - {results[i].key}
  {
  }

  lemma SizeOfTable(times: map<Key, int>, table: set<Item>)
    requires Bijection(times, table)
    ensures |times| == |table|
    decreases |table|
  {
    if table != {} {
      var x :| x in table;
      var less := times - {x.key};
      assert less.Keys == times.Keys - {x.key};
      assert |less| == |times| - 1 by { assert |less.Keys| == |times.Keys| - 1; }
      SizeOfTable(less, table - {x});
    } else {
      assert times == map[];
    }
  }

  lemma GoneKeys(times: map<Key, int>, table: set<Item>, results: seq<Item>)
    requires Bijection(times, table) && Members(results) <= table
    ensures KeysOf(results) == times.Keys - (times - KeysOf(results)).Keys
  {
    forall k | k in KeysOf(results) ensures k in times {
      var x :| x in results && x.key == k;
      assert x in Members(results);
    }
  }

  lemma ExpiredPoints(
    times: map<Key, int>, table: set<Item>, results: seq<Item>, times': map<Key, int>, table': set<Item>,
    time: int, limit: nat)
    requires Bijection(times, table) && Bijection(times', table') && Ascending(results)
    requires times' == times - KeysOf(results) && table' == table - Members(results)
    requires Expires(table, Members(results), time, limit)
    ensures Expires(table, table - table', time, limit)
    ensures forall k :: k in times' ==> times'[k] > time && times'[k] == times[k]
    ensures limit != 0 ==> |times'| <= limit
    ensures |results| == |times| - |times'| && KeysOf(results) == times.Keys - times'.Keys
  {
    hide KeysOf;
    assert table - table' == Members(results);
    assert table - Members(results) == table';
    SizeOfTable(times, table);
    SizeOfTable(times', table');
    MembersSize(results);
    GoneKeys(times, table, results);
    forall k | k in times' ensures times'[k] > time {
      assert Item(k, times'[k]) in table';
    }
  }
}
