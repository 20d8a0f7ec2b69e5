/** The forward table a row index stands for, and how it relates to the inverted lists. */
module RowSpec {
  import opened Wrappers
  import opened Postings
  import opened BaseIndex
  import opened ExpireTable

  /** The latest row of every document: for each of its terms the weight written last. */
  type Rows = map<DocId, map<TermId, real>>

  /** DocTerms: the terms of a row in the order they were given, possibly repeated. */
  type DocTerms = seq<(TermId, real)>

  function RowOf(terms: DocTerms): map<TermId, real> {
    if |terms| == 0 then map[]
    else RowOf(terms[..|terms| - 1])[terms[|terms| - 1].0 := terms[|terms| - 1].1]
  }

  function TermsOf(terms: DocTerms): (r: seq<TermId>)
    ensures |r| == |terms| && forall k :: 0 <= k < |r| ==> r[k] == terms[k].0
  {
    seq(|terms|, k requires 0 <= k < |terms| => terms[k].0)
  }

  /** The weight the inverted lists store for a term and a document. */
  function Cell(v: Table, t: TermId, d: DocId): Option<real> {
    if t in v && d in v[t] then Some(v[t][d]) else None
  }

  /** The weight the forward table stores for a document and a term. */
  function RowCell(rows: Rows, t: TermId, d: DocId): Option<real> {
    if d in rows && t in rows[d] then Some(rows[d][t]) else None
  }

  /** The inverted lists hold exactly the rows of the valid documents. */
  ghost predicate Inverts(v: Table, rows: Rows) {
    forall t, d {:trigger Cell(v, t, d)} :: Cell(v, t, d) == if d == 0 then None else RowCell(rows, t, d)
  }

  /** `v'` is `v` without document `doc` in the lists of `ts`. */
  ghost predicate Cleared(v: Table, v': Table, doc: DocId, ts: seq<TermId>) {
    forall t, d {:trigger Cell(v', t, d)} :: Cell(v', t, d) == if d == doc && t in ts then None else Cell(v, t, d)
  }

  /** `v'` is `v` with the row of `doc` written over it; the lists refuse the invalid id. */
  ghost predicate Written(v: Table, v': Table, doc: DocId, row: map<TermId, real>) {
    forall t, d {:trigger Cell(v', t, d)} ::
      Cell(v', t, d) == if d == doc && doc != 0 && t in row then Some(row[t]) else Cell(v, t, d)
  }

  lemma RowOfKeys(terms: DocTerms)
    ensures forall t :: t in RowOf(terms) <==> t in TermsOf(terms)
  {
  }

  /** Position i is the last one that gives term t. */
  ghost predicate LastGiven(terms: DocTerms, t: TermId, i: nat) {
    i < |terms| && terms[i].0 == t && forall j :: i < j < |terms| ==> terms[j].0 != t
  }

  /** A row has exactly the given terms, each with the weight given last. */
  lemma {:induction false} RowOfIs(terms: DocTerms, t: TermId)
    ensures t in RowOf(terms) <==> exists i: nat :: LastGiven(terms, t, i)
    ensures forall i: nat :: LastGiven(terms, t, i) ==> t in RowOf(terms) && RowOf(terms)[t] == terms[i].1
  {
    if |terms| > 0 {
      var n := |terms| - 1;
      var front := terms[..n];
      RowOfIs(front, t);
      if terms[n].0 == t {
        assert LastGiven(terms, t, n);
      } else {
        forall i: nat ensures LastGiven(terms, t, i) <==> LastGiven(front, t, i) {
          assert i < n ==> front[i] == terms[i];
        }
      }
    }
  }

  /** The forward map's term lists name exactly the terms of the rows. */
  ghost predicate Lists(docTerms: map<DocId, seq<TermId>>, rows: Rows)
    ensures Lists(docTerms, rows) ==> docTerms.Keys == rows.Keys
  {
    && docTerms.Keys == rows.Keys
    && (forall d :: d in rows ==> forall t :: t in docTerms[d] <==> t in rows[d])
  }

  lemma ListsRemove(docTerms: map<DocId, seq<TermId>>, rows: Rows, doc: DocId)
    requires Lists(docTerms, rows) && doc in docTerms
    ensures Lists(docTerms - {doc}, rows - {doc})
    ensures forall t :: t in docTerms[doc] <==> t in rows[doc]
  {
  }

  lemma ListsWrite(docTerms: map<DocId, seq<TermId>>, rows: Rows, doc: DocId, terms: DocTerms)
    requires Lists(docTerms, rows)
    ensures (rows - {doc})[doc := RowOf(terms)] == rows[doc := RowOf(terms)]
    ensures Lists(docTerms[doc := TermsOf(terms)], rows[doc := RowOf(terms)])
  {
    RowOfKeys(terms);
  }

  // ----- How one index operation moves the cells ---------------------------------------------------

  lemma CreateCell(v: Table, doc: DocId, t: TermId, weight: real, v': Table)
    requires v' == v[t := if doc == 0 then At(v, t) else At(v, t)[doc := weight]]
    ensures Written(v, v', doc, map[t := weight])
  {
  }

  lemma RemoveCell(v: Table, doc: DocId, t: TermId, v': Table)
    requires v' == if t in v then v[t := v[t] - {doc}] else v
    ensures Cleared(v, v', doc, [t])
  {
  }

  lemma ClearedMore(v: Table, v1: Table, v2: Table, doc: DocId, ts: seq<TermId>, t: TermId)
    requires Cleared(v, v1, doc, ts) && Cleared(v1, v2, doc, [t])
    ensures Cleared(v, v2, doc, ts + [t])
  {
  }

  lemma WrittenMore(v: Table, v1: Table, v2: Table, doc: DocId, terms: DocTerms, t: TermId, weight: real)
    requires Written(v, v1, doc, RowOf(terms)) && Written(v1, v2, doc, map[t := weight])
    ensures Written(v, v2, doc, RowOf(terms + [(t, weight)]))
  {
  }

  /** The terms of a list that hold a document. */
  ghost function Held(v: Table, doc: DocId, ts: seq<TermId>): set<TermId> {
    set t | t in ts && Cell(v, t, doc).Some?
  }

  /** Removing a document term by term counts every term that held it once. */
  lemma HeldMore(v: Table, v1: Table, doc: DocId, ts: seq<TermId>, i: nat)
    requires i < |ts| && Cleared(v, v1, doc, ts[..i])
    ensures |Held(v, doc, ts[..i + 1])| == |Held(v, doc, ts[..i])| + if doc in At(v1, ts[i]) then 1 else 0
  {
    var t := ts[i];
    assert ts[..i + 1] == ts[..i] + [t];
    assert Cell(v1, t, doc) == if t in ts[..i] then None else Cell(v, t, doc);
    var less := Held(v, doc, ts[..i]);
    if doc in At(v1, t) {
      assert Held(v, doc, ts[..i + 1]) == less + {t};
    } else {
      assert Held(v, doc, ts[..i + 1]) == less;
    }
  }

  lemma HeldRow(v: Table, rows: Rows, doc: DocId, ts: seq<TermId>)
    requires Inverts(v, rows) && doc in rows && forall t :: t in ts <==> t in rows[doc]
    ensures |Held(v, doc, ts)| == RowSize(rows, doc)
  {
    forall t | t in ts ensures Cell(v, t, doc).Some? <==> doc != 0 {
      assert Cell(v, t, doc) == if doc == 0 then None else RowCell(rows, t, doc);
    }
    if doc == 0 {
      assert Held(v, doc, ts) == {};
    } else {
      assert Held(v, doc, ts) == rows[doc].Keys;
    }
  }

  /** How many postings the row of a document has in the lists. */
  function RowSize(rows: Rows, doc: DocId): nat {
    if doc == 0 || doc !in rows then 0 else |rows[doc]|
  }

  /** The terms of a list that the index knows. */
  ghost function Known(ts: seq<TermId>, known: set<TermId>): set<TermId> {
    set t | t in ts && t in known
  }

  /** The pending terms once the first `i` terms of a list were worked through. */
  ghost predicate Pending(now: set<TermId>, was: set<TermId>, ts: seq<TermId>, i: nat, known: set<TermId>)
    requires i <= |ts|
  {
    now == was + Known(ts[..i], known)
  }

  lemma PendingMore(now: set<TermId>, now': set<TermId>, was: set<TermId>, ts: seq<TermId>, i: nat, known: set<TermId>)
    requires i < |ts| && Pending(now, was, ts, i, known) && now' == now + if ts[i] in known then {ts[i]} else {}
    ensures Pending(now', was, ts, i + 1, known)
  {
    assert ts[..i + 1] == ts[..i] + [ts[i]];
  }

  lemma PendingEnds(now: set<TermId>, was: set<TermId>, ts: seq<TermId>, known: set<TermId>)
    ensures Pending(was, was, ts, 0, known)
    ensures Pending(now, was, ts, |ts|, known) ==> now == was + Known(ts, known)
  {
    assert ts[..|ts|] == ts;
  }

  /** The terms whose lists lose one of the given documents. */
  ghost function Touched(docTerms: map<DocId, seq<TermId>>, docs: set<DocId>, known: set<TermId>): set<TermId> {
    set d, t | d in docs && d in docTerms && t in docTerms[d] && t in known :: t
  }

  lemma TouchedMore(docTerms: map<DocId, seq<TermId>>, docs: set<DocId>, doc: DocId, known: set<TermId>)
    ensures Touched(docTerms, docs + {doc}, known) == Touched(docTerms, docs, known) +
            (if doc in docTerms - docs then Known(docTerms[doc], known) else {})
    ensures Touched(docTerms, {}, known) == {}
  {
  }

  lemma ClearedNone(v: Table, doc: DocId)
    ensures Cleared(v, v, doc, [])
  {
  }

  lemma WrittenNone(v: Table, doc: DocId)
    ensures Written(v, v, doc, RowOf([]))
  {
  }

  /** Clearing the terms of a document's row removes the document. */
  lemma ClearRow(v: Table, v': Table, rows: Rows, doc: DocId, ts: seq<TermId>)
    requires Inverts(v, rows) && Cleared(v, v', doc, ts)
    requires doc in rows ==> forall t :: t in ts <==> t in rows[doc]
    ensures Inverts(v', rows - {doc})
  {
  }

  /** Writing a row for a document that has none adds the row. */
  lemma WriteRow(v: Table, v': Table, rows: Rows, doc: DocId, row: map<TermId, real>)
    requires Inverts(v, rows) && Written(v, v', doc, row) && doc !in rows
    ensures Inverts(v', rows[doc := row])
  {
  }

  /** Tables that read alike store the same cells. */
  lemma SameCells(v: Table, v': Table, rows: Rows)
    requires Inverts(v, rows) && forall t :: At(v', t) == At(v, t)
    ensures Inverts(v', rows)
  {
    forall t, d ensures Cell(v', t, d) == if d == 0 then None else RowCell(rows, t, d) {
      assert At(v', t) == At(v, t);
      assert Cell(v, t, d) == if d == 0 then None else RowCell(rows, t, d);
    }
  }

  /** The lists determine the forward table: two tables inverted by the same lists agree on every valid document. */
  lemma InvertsDetermines(v: Table, a: Rows, b: Rows, t: TermId, d: DocId)
    requires Inverts(v, a) && Inverts(v, b) && d != 0
    ensures RowCell(a, t, d) == RowCell(b, t, d)
  {
    assert Cell(v, t, d) == RowCell(a, t, d);
  }

  lemma ViewUpdate(live: Table, pending: Table, t: TermId, m: map<DocId, real>)
    ensures live + pending[t := m] == (live + pending)[t := m]
  {
  }

  // ----- The reference machine -------------------------------------------------------------------------

  function RowKey(doc: DocId): Key {
    Key(0, doc)
  }

  /** Every document with a row has an expiry time, and nothing but documents has. */
  ghost predicate Keyed(rows: Rows, times: map<Key, int>) {
    (forall d :: d in rows ==> RowKey(d) in times) && forall k :: k in times ==> k.term == 0
  }

  lemma KeyedWrite(rows: Rows, times: map<Key, int>, doc: DocId, row: map<TermId, real>, time: int)
    requires Keyed(rows, times)
    ensures Keyed(rows[doc := row], times[RowKey(doc) := time])
  {
  }

  /** `rows` and `times` are current; `applied` is what `rows` was at the last apply. */
  datatype State = State(rows: Rows, applied: Rows, times: map<Key, int>)

  datatype Op =
    | Update(doc: DocId, terms: DocTerms, time: int)
    | RemoveDoc(doc: DocId)
    | Apply(time: int)

  function ItemsOf(times: map<Key, int>): set<Item> {
    set k | k in times :: Item(k, times[k])
  }

  function KeySet(gone: set<Item>): set<Key> {
    set x | x in gone :: x.key
  }

  function DocsOf(gone: set<Item>): set<DocId> {
    set x | x in gone :: x.key.doc
  }

  /** What one operation does to the plain table. */
  ghost predicate Step(s: State, op: Op, s': State, maxSize: nat) {
    match op
    case Update(doc, terms, time) =>
      s' == State(s.rows[doc := RowOf(terms)], s.applied, s.times[RowKey(doc) := time])
    case RemoveDoc(doc) =>
      s' == State(s.rows - {doc}, s.applied, s.times)
    case Apply(time) =>
      exists gone :: Expired(s, gone, s', time, maxSize)
  }

  /** An apply that expires `gone` and publishes the rest. */
  ghost predicate Expired(s: State, gone: set<Item>, s': State, time: int, maxSize: nat) {
    && Expires(ItemsOf(s.times), gone, time, maxSize)
    && s'.times == s.times - KeySet(gone)
    && s'.rows == s.rows - DocsOf(gone)
    && s'.applied == s'.rows
  }

  /** A run of the plain table through the given operations. */
  ghost predicate Run(trace: seq<State>, ops: seq<Op>, maxSize: nat)
    ensures Run(trace, ops, maxSize) ==> |trace| == |ops| + 1
  {
    && |trace| == |ops| + 1
    && (forall i :: 0 <= i < |ops| ==> Step(trace[i], ops[i], trace[i + 1], maxSize))
  }

  /** The plain table is deterministic: operations fix the outcome. */
  lemma StepFunctional(s: State, op: Op, a: State, b: State, maxSize: nat)
    requires Step(s, op, a, maxSize) && Step(s, op, b, maxSize)
    ensures a == b
  {
    if op.Apply? {
      var g :| Expired(s, g, a, op.time, maxSize);
      var h :| Expired(s, h, b, op.time, maxSize);
      ExpiresUnique(ItemsOf(s.times), g, h, op.time, maxSize);
    }
  }

  /** Operations fix the whole run from its first state. */
  lemma {:induction false} RunFunctional(a: seq<State>, b: seq<State>, ops: seq<Op>, k: nat, maxSize: nat)
    requires Run(a, ops, maxSize) && Run(b, ops, maxSize) && a[0] == b[0] && k <= |ops|
    ensures a[k] == b[k]
  {
    hide Step;
    if k > 0 {
      RunFunctional(a, b, ops, k - 1, maxSize);
      assert Step(a[k - 1], ops[k - 1], a[k - 1 + 1], maxSize) && Step(b[k - 1], ops[k - 1], b[k - 1 + 1], maxSize);
      StepFunctional(a[k - 1], ops[k - 1], a[k], b[k], maxSize);
    }
  }
}
