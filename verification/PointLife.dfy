/** The life of a point in a point index, told from the operations alone. */
module PointLife {
  import opened Postings
  import opened BaseIndex
  import opened ExpireTable
  import opened PointIndex

  /** A point of the given expiry time stays when an apply has time `now`; the default key goes one tick early. */
  predicate PointOutlives(key: Key, time: int, now: int) {
    if key == Key(0, 0) then time > now + 1 else time > now
  }

  lemma PointOutlivesIff(key: Key, time: int, now: int)
    ensures PointOutlives(key, time, now) <==> !Due(Item(key, time), now)
  {
  }

  /** The operation leaves a point alone, given that it expires at `time`. */
  ghost predicate SparesPoint(op: PointOp, key: Key, time: int) {
    match op
    case Put(batch) => forall j :: 0 <= j < |batch| ==> Key(batch[j].term, batch[j].doc) != key
    case Publish(now) => PointOutlives(key, time, now)
  }

  /** Tuple j of operation i is the last of its batch for the point. */
  ghost predicate Gives(op: PointOp, key: Key, j: nat) {
    op.Put? && LastTuple(op.batch, key, j)
  }

  /** Tuple j of operation i wrote the point, and nothing among the first k operations took it back. */
  ghost predicate PointAlive(ops: seq<PointOp>, k: nat, key: Key, i: nat, j: nat): (r: bool)
    requires k <= |ops|
    ensures r ==> i < k && ops[i].Put? && j < |ops[i].batch|
  {
    i < k && Gives(ops[i], key, j) && forall h :: i < h < k ==> SparesPoint(ops[h], key, ops[i].batch[j].time)
  }

  /** What the points say of a key is what the operations say of it. */
  ghost predicate PointTold(s: PointState, ops: seq<PointOp>, k: nat, key: Key)
    requires k <= |ops|
  {
    && (key in s.points <==> exists i: nat, j: nat :: PointAlive(ops, k, key, i, j))
    && (forall i: nat, j: nat :: PointAlive(ops, k, key, i, j) ==>
          && key in s.points && s.points[key] == ops[i].batch[j].weight
          && key in s.times && s.times[key] == ops[i].batch[j].time)
  }

  lemma PointAliveNext(ops: seq<PointOp>, k: nat, m: nat, key: Key, i: nat, j: nat)
    requires k < |ops| && m == k + 1
    ensures PointAlive(ops, m, key, i, j) <==>
            if i == k then Gives(ops[k], key, j)
            else PointAlive(ops, k, key, i, j) && SparesPoint(ops[k], key, ops[i].batch[j].time)
  {
    hide SparesPoint;
  }

  lemma NextPointOperation(ops: seq<PointOp>, k: nat, m: nat, key: Key)
    requires k < |ops| && m == k + 1
    ensures forall i: nat, j: nat :: PointAlive(ops, m, key, i, j) <==>
              if i == k then Gives(ops[k], key, j)
              else PointAlive(ops, k, key, i, j) && SparesPoint(ops[k], key, ops[i].batch[j].time)
  {
    hide PointAlive, Gives, SparesPoint;
    forall i: nat, j: nat
      ensures PointAlive(ops, m, key, i, j) <==>
              if i == k then Gives(ops[k], key, j)
              else PointAlive(ops, k, key, i, j) && SparesPoint(ops[k], key, ops[i].batch[j].time)
    {
      PointAliveNext(ops, k, m, key, i, j);
    }
  }

  /** Either a batch has a last tuple for the point, or it leaves the point alone. */
  lemma {:induction false} LastOrNone(batch: seq<PointTuple>, key: Key)
    ensures (exists j: nat :: LastTuple(batch, key, j)) <==>
            !(forall j :: 0 <= j < |batch| ==> Key(batch[j].term, batch[j].doc) != key)
  {
    if |batch| > 0 {
      var n, front := |batch| - 1, batch[..|batch| - 1];
      LastOrNone(front, key);
      LastOfFront(batch, key);
      assert Key(batch[n].term, batch[n].doc) == key ==> LastTuple(batch, key, n);
      assert forall j :: 0 <= j < n ==> front[j] == batch[j];
      if Key(batch[n].term, batch[n].doc) != key && exists j: nat :: LastTuple(front, key, j) {
        var j: nat :| LastTuple(front, key, j);
        assert LastTuple(batch, key, j);
      }
    }
  }

  lemma PutTold(s: PointState, ops: seq<PointOp>, k: nat, m: nat, s': PointState, key: Key)
    requires k < |ops| && m == k + 1 && PointStep(s, ops[k], s', 0) && PointTold(s, ops, k, key) && ops[k].Put?
    ensures PointTold(s', ops, m, key)
  {
    hide PointAlive, LastTuple, WeightsAfter, TimesAfter;
    var batch := ops[k].batch;
    BatchLast(s.points, s.times, batch, key);
    LastOrNone(batch, key);
    NextPointOperation(ops, k, m, key);
    if j: nat :| LastTuple(batch, key, j) {
      assert PointAlive(ops, m, key, k, j);
    } else if key in s.points {
      var i: nat, j: nat :| PointAlive(ops, k, key, i, j);
      assert PointAlive(ops, m, key, i, j);
    }
  }

  lemma PublishTold(s: PointState, ops: seq<PointOp>, k: nat, m: nat, s': PointState, key: Key)
    requires k < |ops| && m == k + 1 && PointStep(s, ops[k], s', 0) && PointTold(s, ops, k, key) && ops[k].Publish?
    requires s.points.Keys == s.times.Keys
    ensures PointTold(s', ops, m, key)
  {
    hide PointAlive, PointStep, PointOutlives, Due;
    PublishKeeps(s, ops[k].time, s', key);
    if key in s.points { PointOutlivesIff(key, s.times[key], ops[k].time); }
    NextPointOperation(ops, k, m, key);
    if key in s'.points {
      var i: nat, j: nat :| PointAlive(ops, k, key, i, j);
      assert PointAlive(ops, m, key, i, j);
    }
  }

  lemma {:induction false} SameKeysAfter(points: Weights, times: map<Key, int>, batch: seq<PointTuple>)
    requires points.Keys == times.Keys
    ensures WeightsAfter(points, batch).Keys == TimesAfter(times, batch).Keys
  {
    if |batch| > 0 { SameKeysAfter(points, times, batch[..|batch| - 1]); }
  }

  lemma SameKeysStep(s: PointState, op: PointOp, s': PointState)
    requires PointStep(s, op, s', 0) && s.points.Keys == s.times.Keys
    ensures s'.points.Keys == s'.times.Keys
  {
    if op.Put? { SameKeysAfter(s.points, s.times, op.batch); }
  }

  lemma NoPointTold(ops: seq<PointOp>, key: Key)
    ensures PointTold(PointState(map[], map[], map[]), ops, 0, key)
  {
  }

  /** From the empty index on, without a size limit, every point is there exactly as the operations tell. */
  lemma {:induction false} EveryPointTold(trace: seq<PointState>, ops: seq<PointOp>, k: nat, key: Key)
    requires PointRun(trace, ops, 0) && trace[0] == PointState(map[], map[], map[]) && k <= |ops|
    ensures PointTold(trace[k], ops, k, key) && trace[k].points.Keys == trace[k].times.Keys
  {
    hide PointStep, PointTold;
    if k == 0 {
      NoPointTold(ops, key);
    } else {
      EveryPointTold(trace, ops, k - 1, key);
      assert PointStep(trace[k - 1], ops[k - 1], trace[k - 1 + 1], 0);
      SameKeysStep(trace[k - 1], ops[k - 1], trace[k]);
      match ops[k - 1]
      case Put(_) => PutTold(trace[k - 1], ops, k - 1, k, trace[k], key);
      case Publish(_) => PublishTold(trace[k - 1], ops, k - 1, k, trace[k], key);
    }
  }

  /** The first n operations are those up to the last apply. */
  ghost predicate LastPublish(ops: seq<PointOp>, k: nat, n: nat)
    requires k <= |ops|
  {
    0 < n <= k && ops[n - 1].Publish? && forall j :: n <= j < k ==> !ops[j].Publish?
  }

  lemma {:induction false} PublishedSince(trace: seq<PointState>, ops: seq<PointOp>, k: nat, n: nat)
    requires PointRun(trace, ops, 0) && k <= |ops| && LastPublish(ops, k, n)
    ensures trace[k].applied == trace[n].points
  {
    assert PointStep(trace[k - 1], ops[k - 1], trace[k - 1 + 1], 0);
    if n < k { PublishedSince(trace, ops, k - 1, n); }
  }

  /**
   * What a query sees of a point after any operations from the empty index, without a size limit: the weight of the
   * last tuple written for it before the last apply, if its time outlives every apply since; else nothing.
   */
  lemma LifeOfAPoint(trace: seq<PointState>, ops: seq<PointOp>, n: nat, key: Key)
    requires PointRun(trace, ops, 0) && trace[0] == PointState(map[], map[], map[]) && LastPublish(ops, |ops|, n)
    ensures key in trace[|ops|].applied <==> exists i: nat, j: nat :: PointAlive(ops, n, key, i, j)
    ensures forall i: nat, j: nat :: PointAlive(ops, n, key, i, j) ==>
              key in trace[|ops|].applied && trace[|ops|].applied[key] == ops[i].batch[j].weight
  {
    hide PointStep, PointAlive;
    PublishedSince(trace, ops, |ops|, n);
    EveryPointTold(trace, ops, n, key);
  }
}
