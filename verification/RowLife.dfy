/** The life of a document in a row index, told from the operations alone. */
module RowLife {
  import opened Postings
  import opened BaseIndex
  import opened ExpireTable
  import opened RowSpec

  /** A document of the given expiry time stays when an apply has time `now`; document 0 goes one tick early. */
  predicate Outlives(d: DocId, time: int, now: int) {
    if d == 0 then time > now + 1 else time > now
  }

  lemma OutlivesIff(d: DocId, time: int, now: int)
    ensures Outlives(d, time, now) <==> !Due(Item(RowKey(d), time), now)
  {
  }

  /** The operation leaves the expiry time of a document alone, given that it is `time`. */
  predicate SparesTime(op: Op, d: DocId, time: int) {
    match op
    case Update(doc, _, _) => doc != d
    case RemoveDoc(_) => true
    case Apply(now) => Outlives(d, time, now)
  }

  /** The operation leaves the row of a document alone, given that it expires at `time`. */
  predicate Spares(op: Op, d: DocId, time: int) {
    SparesTime(op, d, time) && (op.RemoveDoc? ==> op.doc != d)
  }

  /** Operation i gave document d its expiry time, and nothing among the first k took it back. */
  ghost predicate Timed(ops: seq<Op>, k: nat, d: DocId, i: nat)
    requires k <= |ops|
  {
    i < k && ops[i].Update? && ops[i].doc == d && forall j :: i < j < k ==> SparesTime(ops[j], d, ops[i].time)
  }

  /** Operation i wrote the row of document d, and nothing among the first k took it back. */
  ghost predicate Alive(ops: seq<Op>, k: nat, d: DocId, i: nat)
    requires k <= |ops|
  {
    i < k && ops[i].Update? && ops[i].doc == d && forall j :: i < j < k ==> Spares(ops[j], d, ops[i].time)
  }

  lemma TimedOnce(ops: seq<Op>, k: nat, d: DocId, i: nat, j: nat)
    requires k <= |ops| && Timed(ops, k, d, i) && Timed(ops, k, d, j)
    ensures i == j
  {
  }

  /** What the table says of a document is what the operations say of it. */
  ghost predicate Told(s: State, ops: seq<Op>, k: nat, d: DocId)
    requires k <= |ops|
  {
    && (RowKey(d) in s.times <==> exists i: nat :: Timed(ops, k, d, i))
    && (forall i: nat :: Timed(ops, k, d, i) ==> RowKey(d) in s.times && s.times[RowKey(d)] == ops[i].time)
    && (d in s.rows <==> exists i: nat :: Alive(ops, k, d, i))
    && (forall i: nat :: Alive(ops, k, d, i) ==> d in s.rows && s.rows[d] == RowOf(ops[i].terms))
  }

  /** An apply without limit drops exactly the documents that do not outlive it. */
  lemma AppliedStep(s: State, now: int, s': State, d: DocId)
    requires Step(s, Op.Apply(now), s', 0) && forall k :: k in s.times ==> k.term == 0
    ensures RowKey(d) in s'.times <==> RowKey(d) in s.times && Outlives(d, s.times[RowKey(d)], now)
    ensures RowKey(d) in s'.times ==> s'.times[RowKey(d)] == s.times[RowKey(d)]
    ensures d in s'.rows <==> d in s.rows && (RowKey(d) in s.times ==> Outlives(d, s.times[RowKey(d)], now))
    ensures d in s'.rows ==> s'.rows[d] == s.rows[d]
    ensures s'.applied == s'.rows
  {
    var gone :| Expired(s, gone, s', now, 0);
    if RowKey(d) in s.times {
      var x := Item(RowKey(d), s.times[RowKey(d)]);
      OutlivesIff(d, x.time, now);
      assert x in ItemsOf(s.times);
      assert x in gone <==> Due(x, now);
    }
    assert RowKey(d) in KeySet(gone) <==> RowKey(d) in s.times && Item(RowKey(d), s.times[RowKey(d)]) in gone;
    assert d in DocsOf(gone) <==> RowKey(d) in KeySet(gone) by {
      forall x: Item | x in gone ensures x.key == RowKey(x.key.doc) && x.key in s.times {
        assert x in ItemsOf(s.times);
      }
    }
  }

  lemma TimedNext(ops: seq<Op>, k: nat, m: nat, d: DocId, i: nat)
    requires k < |ops| && m == k + 1
    ensures Timed(ops, m, d, i) <==>
            if i == k then ops[k].Update? && ops[k].doc == d
            else Timed(ops, k, d, i) && SparesTime(ops[k], d, ops[i].time)
  {
  }

  lemma AliveNext(ops: seq<Op>, k: nat, m: nat, d: DocId, i: nat)
    requires k < |ops| && m == k + 1
    ensures Alive(ops, m, d, i) <==>
            if i == k then ops[k].Update? && ops[k].doc == d
            else Alive(ops, k, d, i) && Spares(ops[k], d, ops[i].time)
  {
  }

  lemma NextOperation(ops: seq<Op>, k: nat, m: nat, d: DocId)
    requires k < |ops| && m == k + 1
    ensures forall i: nat :: Timed(ops, m, d, i) <==>
              if i == k then ops[k].Update? && ops[k].doc == d
              else Timed(ops, k, d, i) && SparesTime(ops[k], d, ops[i].time)
    ensures forall i: nat :: Alive(ops, m, d, i) <==>
              if i == k then ops[k].Update? && ops[k].doc == d
              else Alive(ops, k, d, i) && Spares(ops[k], d, ops[i].time)
    ensures forall i: nat :: Timed(ops, k, d, i) ==> i < k && ops[i].Update?
    ensures forall i: nat :: Alive(ops, k, d, i) ==> Timed(ops, k, d, i)
  {
    forall i: nat
      ensures Timed(ops, m, d, i) <==>
              if i == k then ops[k].Update? && ops[k].doc == d
              else Timed(ops, k, d, i) && SparesTime(ops[k], d, ops[i].time)
    {
      TimedNext(ops, k, m, d, i);
    }
    forall i: nat
      ensures Alive(ops, m, d, i) <==>
              if i == k then ops[k].Update? && ops[k].doc == d
              else Alive(ops, k, d, i) && Spares(ops[k], d, ops[i].time)
    {
      AliveNext(ops, k, m, d, i);
    }
  }

  /** An operation that touches another document, or spares this one, keeps what is told. */
  lemma UpdateTold(s: State, ops: seq<Op>, k: nat, m: nat, s': State, d: DocId)
    requires k < |ops| && m == k + 1 && Step(s, ops[k], s', 0) && Told(s, ops, k, d) && ops[k].Update?
    ensures Told(s', ops, m, d)
  {
    hide Timed, Alive, RowOf;
    NextOperation(ops, k, m, d);
    if ops[k].doc == d {
      assert Timed(ops, m, d, k) && Alive(ops, m, d, k);
    } else {
      if RowKey(d) in s.times {
        var i: nat :| Timed(ops, k, d, i);
        assert Timed(ops, m, d, i);
      }
      if d in s.rows {
        var i: nat :| Alive(ops, k, d, i);
        assert Alive(ops, m, d, i);
      }
    }
  }

  lemma RemoveTold(s: State, ops: seq<Op>, k: nat, m: nat, s': State, d: DocId)
    requires k < |ops| && m == k + 1 && Step(s, ops[k], s', 0) && Told(s, ops, k, d) && ops[k].RemoveDoc?
    ensures Told(s', ops, m, d)
  {
    hide Timed, Alive, RowOf;
    NextOperation(ops, k, m, d);
    if RowKey(d) in s.times {
      var i: nat :| Timed(ops, k, d, i);
      assert Timed(ops, m, d, i);
    }
    if d in s.rows && ops[k].doc != d {
      var i: nat :| Alive(ops, k, d, i);
      assert Alive(ops, m, d, i);
    }
  }

  lemma ApplyTold(s: State, ops: seq<Op>, k: nat, m: nat, s': State, d: DocId)
    requires k < |ops| && m == k + 1 && Step(s, ops[k], s', 0) && Told(s, ops, k, d) && ops[k].Apply?
    requires forall key :: key in s.times ==> key.term == 0
    ensures Told(s', ops, m, d) && s'.applied == s'.rows
  {
    hide Timed, Alive, RowOf, Step, Outlives;
    AppliedStep(s, ops[k].time, s', d);
    NextOperation(ops, k, m, d);
    if RowKey(d) in s'.times {
      var i: nat :| Timed(ops, k, d, i);
      assert Timed(ops, m, d, i);
    }
    if d in s'.rows {
      var i: nat :| Alive(ops, k, d, i);
      assert Alive(ops, m, d, i);
    }
  }

  lemma StepKeys(s: State, op: Op, s': State, maxSize: nat)
    requires Step(s, op, s', maxSize) && forall k :: k in s.times ==> k.term == 0
    ensures forall k :: k in s'.times ==> k.term == 0
  {
  }

  /** From the empty table on, with no size limit, every document is in the table exactly as the operations tell. */
  lemma {:induction false} EveryDocumentTold(trace: seq<State>, ops: seq<Op>, k: nat, d: DocId)
    requires Run(trace, ops, 0) && trace[0] == State(map[], map[], map[]) && k <= |ops|
    ensures Told(trace[k], ops, k, d) && forall key :: key in trace[k].times ==> key.term == 0
  {
    hide Step, Told;
    if k == 0 {
      NothingTold(ops, d);
    } else {
      EveryDocumentTold(trace, ops, k - 1, d);
      assert Step(trace[k - 1], ops[k - 1], trace[k - 1 + 1], 0);
      StepKeys(trace[k - 1], ops[k - 1], trace[k], 0);
      match ops[k - 1]
      case Update(_, _, _) => UpdateTold(trace[k - 1], ops, k - 1, k, trace[k], d);
      case RemoveDoc(_) => RemoveTold(trace[k - 1], ops, k - 1, k, trace[k], d);
      case Apply(_) => ApplyTold(trace[k - 1], ops, k - 1, k, trace[k], d);
    }
  }

  lemma NothingTold(ops: seq<Op>, d: DocId)
    ensures Told(State(map[], map[], map[]), ops, 0, d)
  {
  }

  /** The first n operations are those up to the last apply. */
  ghost predicate LastApply(ops: seq<Op>, k: nat, n: nat)
    requires k <= |ops|
  {
    0 < n <= k && ops[n - 1].Apply? && forall j :: n <= j < k ==> !ops[j].Apply?
  }

  lemma {:induction false} AppliedSince(trace: seq<State>, ops: seq<Op>, k: nat, n: nat)
    requires Run(trace, ops, 0) && k <= |ops| && LastApply(ops, k, n)
    ensures trace[k].applied == trace[n].rows
  {
    assert Step(trace[k - 1], ops[k - 1], trace[k - 1 + 1], 0);
    if n < k { AppliedSince(trace, ops, k - 1, n); }
  }

  lemma {:induction false} NeverApplied(trace: seq<State>, ops: seq<Op>, k: nat)
    requires Run(trace, ops, 0) && k <= |ops| && forall j :: 0 <= j < k ==> !ops[j].Apply?
    ensures trace[k].applied == trace[0].applied
  {
    if k > 0 {
      assert Step(trace[k - 1], ops[k - 1], trace[k - 1 + 1], 0);
      NeverApplied(trace, ops, k - 1);
    }
  }

  /**
   * What a query sees of a document after any operations from the empty index, without a size limit: the row of its
   * latest update before the last apply, if no removal came between and it outlives every apply since; else nothing.
   */
  lemma LifeOfARow(trace: seq<State>, ops: seq<Op>, n: nat, d: DocId)
    requires Run(trace, ops, 0) && trace[0] == State(map[], map[], map[]) && LastApply(ops, |ops|, n)
    ensures d in trace[|ops|].applied <==> exists i: nat :: Alive(ops, n, d, i)
    ensures forall i: nat :: Alive(ops, n, d, i) ==>
              d in trace[|ops|].applied && trace[|ops|].applied[d] == RowOf(ops[i].terms)
  {
    hide Step, Alive;
    AppliedSince(trace, ops, |ops|, n);
    EveryDocumentTold(trace, ops, n, d);
  }

  /** Before the first apply a query sees nothing. */
  lemma NothingApplied(trace: seq<State>, ops: seq<Op>)
    requires Run(trace, ops, 0) && trace[0] == State(map[], map[], map[])
    requires forall j :: 0 <= j < |ops| ==> !ops[j].Apply?
    ensures trace[|ops|].applied == map[]
  {
    NeverApplied(trace, ops, |ops|);
  }

  /** With a size limit an apply may take more documents, but it changes no row it leaves. */
  lemma LimitedApply(s: State, now: int, s': State, maxSize: nat, d: DocId)
    requires Step(s, Op.Apply(now), s', maxSize) && Keyed(s.rows, s.times) && d in s'.rows
    ensures d in s.rows && s'.rows[d] == s.rows[d] && Outlives(d, s.times[RowKey(d)], now)
  {
    var gone :| Expired(s, gone, s', now, maxSize);
    var x := Item(RowKey(d), s.times[RowKey(d)]);
    OutlivesIff(d, x.time, now);
    assert x in ItemsOf(s.times);
    assert x in gone ==> d in DocsOf(gone);
  }
}
