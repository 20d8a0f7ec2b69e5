/**
 * The reverse index: published posting lists that queries share, and private copies that collect
 * changes until they are applied.
 */
module BaseIndex {
  import opened Postings

  type TermId = nat

  /** What an index says: for every term, the weights of its documents. */
  type Table = map<TermId, map<DocId, real>>

  /** A term without a list reads like a term with an empty list. */
  function At(v: Table, t: TermId): map<DocId, real> {
    if t in v then v[t] else map[]
  }

  /** FreezablePostingList: a posting list that refuses changes once it is frozen. */
  class FreezableList {
    const instance: PostingList
    var frozen: bool

    constructor (instance: PostingList)
      ensures this.instance == instance && !frozen
    {
      this.instance := instance;
      frozen := false;
    }

    method Empty() returns (b: bool)
      ensures b <==> instance.posting == map[]
    {
      b := instance.posting == map[];
    }

    method Update(doc: DocId, weight: real) returns (changed: int)
      requires instance.Valid()
      modifies instance
      ensures instance.Valid()
      ensures changed == if frozen || doc == 0 then 0 else 1
      ensures instance.posting ==
              if frozen || doc == 0 then old(instance.posting) else old(instance.posting)[doc := weight]
      ensures instance.upperBound ==
              if !frozen && doc != 0 && weight > old(instance.upperBound) then weight else old(instance.upperBound)
    {
      if frozen { return 0; }
      changed := instance.Update(doc, weight);
    }

    method Remove(doc: DocId) returns (changed: int)
      requires instance.Valid()
      modifies instance
      ensures instance.Valid()
      ensures changed == if !frozen && doc in old(instance.posting) then 1 else 0
      ensures instance.posting == if frozen then old(instance.posting) else old(instance.posting) - {doc}
      ensures instance.upperBound == old(instance.upperBound)
    {
      if frozen { return 0; }
      changed := instance.Remove(doc);
    }

    method Freeze()
      modifies this
      ensures frozen
    {
      frozen := true;
    }

    /** The wrapped list, handed out only once it can no longer change. */
    method GetInstance() returns (list: PostingList?)
      ensures list == if frozen then instance else null
    {
      list := if frozen then instance else null;
    }
  }

  /** Copying a list through a fresh cursor gives the same postings and the exact bound. */
  method Copy(source: PostingList) returns (copy: PostingList)
    requires source.Valid()
    ensures fresh(copy) && copy.Valid()
    ensures copy.posting == source.posting && Maximum(copy.upperBound, copy.posting)
  {
    var reader := new PostingCursor(source);
    InKeyOrderContents(source.posting);
    ghost var order := reader.Order();
    copy := new PostingList.FromReader(reader);
    assert order[0..] == order;
  }

  class Index {
    var index: map<TermId, PostingList>
    var changed: map<TermId, FreezableList>

    /** The published weights, and the weights of the terms with pending changes. */
    ghost var live: Table
    ghost var pending: Table
    /** The objects of the pending lists, the term each pending list is for, and every list ever published. */
    ghost var private: set<object>
    ghost var owner: map<PostingList, TermId>
    ghost var published: set<PostingList>

    /** The pending-or-published weights. */
    ghost function View(): Table
      reads this`live, this`pending
    {
      live + pending
    }

    /** No list that was ever published changes: what a reader holds stays what it was. */
    twostate predicate KeepsPublished()
      reads this, published
    {
      && old(published) <= published
      && (forall l :: l in old(published) ==> unchanged(l))
    }

    ghost predicate PublishedOk()
      reads this`index, this`live, this`published, published
      ensures PublishedOk() ==> live.Keys == index.Keys
    {
      && (forall l :: l in published ==> l.Valid())
      && live.Keys == index.Keys
      && (forall t :: t in index ==> index[t] in published && live[t] == index[t].posting)
    }

    ghost predicate PendingOk()
      reads this`changed, this`pending, this`private, this`owner, private
      ensures PendingOk() ==> pending.Keys == changed.Keys
    {
      && pending.Keys == changed.Keys
      && (forall t :: t in changed ==> PendingList(t, changed[t]))
    }

    ghost predicate PendingList(t: TermId, f: FreezableList)
      reads this`pending, this`private, this`owner, private
    {
      && f in private && f.instance in private && !f.frozen && (f.instance as object) != f
      && f.instance in owner && owner[f.instance] == t
      && f.instance.Valid() && t in pending && pending[t] == f.instance.posting
    }

    ghost predicate Valid()
      reads this, private, published
    {
      && this !in private
      && (forall l :: l in published ==> l !in private)
      && PublishedOk()
      && PendingOk()
    }

    constructor ()
      ensures Valid() && live == pending == map[] && published == {} && private == {}
    {
      index, changed := map[], map[];
      live, pending, private, owner, published := map[], map[], {}, map[], {};
    }

    /** Make a list nobody else holds the pending list of a term. */
    method Install(t: TermId, list: PostingList) returns (f: FreezableList)
      requires Valid() && t !in changed
      requires list.Valid() && list !in private && list !in published && list !in owner
      modifies this
      ensures Valid()
      ensures index == old(index) && live == old(live) && published == old(published)
      ensures private == old(private) + {f, list} && fresh(f)
      ensures pending == old(pending)[t := list.posting]
      ensures changed == old(changed)[t := f] && f.instance == list
    {
      hide PublishedOk, PendingOk, PendingList;
      f := new FreezableList(list);
      changed, private := changed[t := f], private + {f, list};
      owner, pending := owner[list := t], pending[t := list.posting];
      MorePending(t, f);
    }

    twostate lemma MorePending(t: TermId, new f: FreezableList)
      requires old(PendingOk()) && this !in old(private) && t !in old(changed) && !f.frozen && f.instance.Valid()
      requires f.instance !in old(owner)
      requires changed == old(changed)[t := f] && private == old(private) + {f, f.instance}
      requires owner == old(owner)[f.instance := t] && pending == old(pending)[t := f.instance.posting]
      requires forall o :: o in old(private) ==> unchanged(o)
      ensures PendingOk()
    {
      forall u | u in changed && u != t ensures PendingList(u, changed[u]) {
        assert old(PendingList(u, changed[u]));
      }
    }

    /** The pending list of a term, copied from the published one, or created, if need be. */
    method Change(t: TermId, create: bool) returns (f: FreezableList?)
      requires Valid()
      modifies this
      ensures Valid()
      ensures index == old(index) && live == old(live) && published == old(published)
      ensures old(private) <= private && fresh(private - old(private))
      ensures pending == if t in old(View()) || create then old(pending)[t := At(old(View()), t)] else old(pending)
      ensures t in changed <==> t in old(View()) || create
      ensures f == if t in changed then changed[t] else null
    {
      if t in changed {
        assert pending == pending[t := At(View(), t)];
        return changed[t];
      }
      if t in index {
        var list := Copy(index[t]);
        f := Install(t, list);
      } else if create {
        var list := new PostingList();
        f := Install(t, list);
      } else {
        return null;
      }
    }

    lemma IsPending(t: TermId)
      requires Valid() && t in changed
      ensures var f := changed[t];
              && f in private && f.instance in private && f.instance !in published
              && !f.frozen && f.instance.Valid() && t in pending && pending[t] == f.instance.posting
    {
    }

    /** A change to the pending list of `t` leaves the other pending lists what they were. */
    twostate lemma OthersPending(t: TermId)
      requires old(Valid()) && t in changed && changed[t].instance.Valid() && !changed[t].frozen
      requires unchanged(`changed) && unchanged(`private) && unchanged(`owner)
      requires pending == old(pending)[t := changed[t].instance.posting]
      requires forall o :: o in private && o != changed[t].instance ==> unchanged(o)
      ensures PendingOk()
    {
      assert old(PendingList(t, changed[t]));
      forall u | u in changed && u != t ensures PendingList(u, changed[u]) {
        assert old(PendingList(u, changed[u]));
      }
    }

    method UpdatePending(f: FreezableList, doc: DocId, t: TermId, weight: real) returns (ret: int)
      requires Valid() && t in changed && f == changed[t]
      modifies this`pending, private
      ensures Valid() && t in old(pending)
      ensures pending == old(pending)[t := if doc == 0 then old(pending)[t] else old(pending)[t][doc := weight]]
      ensures ret == if doc == 0 then 0 else 1
      ensures KeepsPublished()
    {
      hide PublishedOk, PendingOk, PendingList;
      IsPending(t);
      ret := f.Update(doc, weight);
      pending := pending[t := f.instance.posting];
      OthersPending(t);
    }

    method RemovePending(f: FreezableList, doc: DocId, t: TermId) returns (ret: int)
      requires Valid() && t in changed && f == changed[t]
      modifies this`pending, private
      ensures Valid() && t in old(pending)
      ensures pending == old(pending)[t := old(pending)[t] - {doc}]
      ensures ret == if doc in old(pending)[t] then 1 else 0
      ensures KeepsPublished()
    {
      hide PublishedOk, PendingOk, PendingList;
      IsPending(t);
      ret := f.Remove(doc);
      pending := pending[t := f.instance.posting];
      OthersPending(t);
    }

    method CreateUpdate(doc: DocId, t: TermId, weight: real) returns (ret: int)
      requires Valid()
      modifies this, private
      ensures Valid()
      ensures index == old(index) && live == old(live) && published == old(published)
      ensures old(private) <= private && fresh(private - old(private))
      ensures pending == old(pending)[t := if doc == 0 then At(old(View()), t) else At(old(View()), t)[doc := weight]]
      ensures ret == if doc == 0 then 0 else 1
      ensures KeepsPublished()
    {
      hide Valid;
      var f := Change(t, true);
      ret := UpdatePending(f, doc, t, weight);
    }

    method Remove(doc: DocId, t: TermId) returns (ret: int)
      requires Valid()
      modifies this, private
      ensures Valid()
      ensures index == old(index) && live == old(live) && published == old(published)
      ensures old(private) <= private && fresh(private - old(private))
      ensures pending == if t in old(View()) then old(pending)[t := old(View())[t] - {doc}] else old(pending)
      ensures ret == if doc in At(old(View()), t) then 1 else 0
      ensures pending.Keys == old(pending).Keys + if t in old(View()) then {t} else {}
      ensures View().Keys == old(View()).Keys
      ensures KeepsPublished()
    {
      hide Valid;
      var f := Change(t, false);
      if f != null {
        ret := RemovePending(f, doc, t);
      } else {
        ret := 0;
      }
    }

    /** The entry of one term in the published index, replaced by its pending list. */
    method Replace(t: TermId, f: FreezableList)
      modifies this`index, f
      ensures index ==
              if t in old(index) && f.instance.posting == map[] then old(index) - {t} else old(index)[t := f.instance]
    {
      var empty := f.Empty();
      if t in index && empty {
        index := index - {t};
      } else {
        f.Freeze();
        var list := f.GetInstance();
        index := index[t := list];
      }
    }

    /** Publish the pending list of one term: an emptied one erases the term, any other takes its place. */
    method Publish(t: TermId, ghost todo: set<TermId>)
      requires t in changed && Applying(todo + {t}) && t !in todo
      modifies this`index, this`live, this`private, this`published, changed[t]
      ensures Applying(todo)
      ensures live == Published(old(live), pending, t)
      ensures published == old(published) + {changed[t].instance} && private == old(private) - {changed[t].instance}
    {
      hide PublishedOk, PendingList, PostingList.Valid, Published;
      IsWaiting(t, todo);
      var f := changed[t];
      Replace(t, f);
      live := Published(live, pending, t);
      published := published + {f.instance};
      private := private - {f.instance};
      StillPublished(t, f.instance);
      StillWaiting(t, todo);
    }

    lemma IsWaiting(t: TermId, todo: set<TermId>)
      requires t in changed && Applying(todo + {t})
      ensures var f := changed[t];
              && f in private && f.instance in private && f.instance !in published
              && !f.frozen && f.instance.Valid() && t in pending && pending[t] == f.instance.posting
    {
    }

    twostate lemma StillWaiting(t: TermId, new todo: set<TermId>)
      requires t in changed && old(Applying(todo + {t})) && t !in todo
      requires unchanged(`changed) && unchanged(`owner) && unchanged(`pending)
      requires private == old(private) - {changed[t].instance}
      requires forall o :: o in private && o != changed[t] ==> unchanged(o)
      ensures forall u :: u in todo ==> u in changed && PendingList(u, changed[u])
    {
      assert old(PendingList(t, changed[t]));
      forall u | u in todo ensures u in changed && PendingList(u, changed[u]) {
        assert old(PendingList(u, changed[u]));
      }
    }

    /** In the middle of an apply: the terms of `todo` still wait for publication. */
    ghost predicate Applying(todo: set<TermId>)
      reads this, private, published
      ensures Applying(todo) ==> todo <= changed.Keys == pending.Keys
    {
      && this !in private
      && (forall l :: l in published ==> l !in private)
      && PublishedOk()
      && pending.Keys == changed.Keys
      && todo <= changed.Keys
      && (forall t :: t in todo ==> PendingList(t, changed[t]))
    }

    twostate lemma StillPublished(t: TermId, new list: PostingList)
      requires old(PublishedOk()) && list.Valid() && t in pending && pending[t] == list.posting
      requires live == Published(old(live), pending, t) && published == old(published) + {list}
      requires index == if t in old(index) && list.posting == map[] then old(index) - {t} else old(index)[t := list]
      requires forall l :: l in old(published) ==> unchanged(l)
      ensures PublishedOk()
    {
    }

    /** Publish every pending list, in whatever order the hash map enumerates them. */
    method PublishAll() returns (ret: int)
      requires Applying(changed.Keys)
      modifies this`index, this`live, this`private, this`published, changed.Values
      ensures Applying({})
      ensures live == Applied(old(live), pending, pending.Keys)
      ensures old(published) <= published
      ensures ret == |changed.Keys|
    {
      hide PublishedOk, PendingList, Applying, Applied, PostingList.Valid;
      ret := 0;
      var todo := changed.Keys;
      ghost var done: set<TermId> := {};
      AppliedNone(live, pending);
      while todo != {}
        invariant Applying(todo) && old(published) <= published
        invariant done <= pending.Keys && live == Applied(old(live), pending, done)
        invariant done !! todo && done + todo == changed.Keys && ret == |done|
        decreases |todo|
      {
        var t :| t in todo;
        MoveOver(todo, done, t);
        PublishNext(t, todo - {t}, done, old(live));
        todo := todo - {t};
        done := done + {t};
        ret := ret + 1;
      }
    }

    /** Make all pending changes readable. */
    method Apply() returns (ret: int)
      requires Valid()
      modifies this, private
      ensures Valid() && changed == map[] && pending == map[]
      ensures live == Applied(old(live), old(pending), old(pending).Keys)
      ensures old(published) <= published && private == {}
      ensures ret == |old(changed)| == |old(pending).Keys|
      ensures KeepsPublished()
    {
      hide Valid, PublishedOk, PendingOk, PendingList, Applying, Applied;
      StartApplying();
      ret := PublishAll();
      Clear();
    }

    method PublishNext(t: TermId, ghost todo: set<TermId>, ghost done: set<TermId>, ghost before: Table)
      requires t in changed && Applying(todo + {t}) && t !in todo && t !in done
      requires done <= pending.Keys && live == Applied(before, pending, done)
      modifies this`index, this`live, this`private, this`published, changed[t]
      ensures Applying(todo)
      ensures done + {t} <= pending.Keys && live == Applied(before, pending, done + {t})
      ensures old(published) <= published && private <= old(private)
    {
      hide Applying, Applied, Published;
      AppliedMore(before, pending, done, t);
      Publish(t, todo);
    }

    lemma StartApplying()
      requires Valid()
      ensures Applying(changed.Keys) && changed.Values <= private
    {
    }

    method Clear()
      requires Applying({})
      modifies this`changed, this`pending, this`private
      ensures Valid() && changed == map[] && pending == map[] && private == {}
    {
      hide PublishedOk, PostingList.Valid;
      changed := map[];
      pending := map[];
      private := {};
    }

    /** The readers of one query: a fresh cursor over the published list of every term that has one. */
    method BatchQuery(queries: seq<QueryTerm>) returns (readers: seq<(TermId, DotProductReader)>)
      requires Valid()
      ensures |readers| == |Hits(queries, live)|
      ensures forall k :: 0 <= k < |readers| ==>
                var hit := Hits(queries, live)[k];
                && readers[k].0 == hit.term && readers[k].1.query == hit.weight
                && hit.term in index && readers[k].1.reader.list == index[hit.term]
                && readers[k].1.reader.iter == 0 && fresh(readers[k].1.reader)
      ensures forall j, k :: 0 <= j < k < |readers| ==> readers[j].1.reader != readers[k].1.reader
    {
      hide PublishedOk, PendingOk;
      var terms: seq<(QueryTerm, PostingList)> := [];
      var i := 0;
      while i < |queries|
        invariant 0 <= i <= |queries| && |terms| == |Hits(queries[..i], live)|
        invariant forall k :: 0 <= k < |terms| ==>
                    && terms[k].0 == Hits(queries[..i], live)[k]
                    && terms[k].0.term in index && terms[k].1 == index[terms[k].0.term]
      {
        assert queries[..i + 1][..i] == queries[..i];
        var query := queries[i];
        if query.term in index {
          terms := terms + [(query, index[query.term])];
        }
        i := i + 1;
      }
      assert queries[..i] == queries;
      readers := [];
      i := 0;
      while i < |terms|
        invariant 0 <= i <= |terms| && |readers| == i
        invariant forall k :: 0 <= k < i ==>
                    && readers[k].0 == terms[k].0.term && readers[k].1.query == terms[k].0.weight
                    && readers[k].1.reader.list == terms[k].1
                    && readers[k].1.reader.iter == 0 && fresh(readers[k].1.reader)
        invariant forall j, k :: 0 <= j < k < i ==> readers[j].1.reader != readers[k].1.reader
      {
        var cursor := new PostingCursor(terms[i].1);
        readers := readers + [(terms[i].0.term, DotProductReader(cursor, terms[i].0.weight))];
        i := i + 1;
      }
    }
  }

  /** What publishing the pending list of `t` makes of the published table. */
  ghost function Published(live: Table, pending: Table, t: TermId): Table
    requires t in pending
  {
    if t in live && pending[t] == map[] then live - {t} else live[t := pending[t]]
  }

  /** The published table once the pending lists of the terms in `done` took their place. */
  ghost function Applied(live: Table, pending: Table, done: set<TermId>): Table
    requires done <= pending.Keys
  {
    map t | t in live.Keys + done && !(t in done && t in live && pending[t] == map[]) ::
      if t in done then pending[t] else live[t]
  }

  lemma MoveOver(todo: set<TermId>, done: set<TermId>, t: TermId)
    requires t in todo && done !! todo
    ensures todo - {t} + {t} == todo && t !in done
    ensures done + {t} !! todo - {t} && done + {t} + (todo - {t}) == done + todo
    ensures |done + {t}| == |done| + 1 && |todo - {t}| == |todo| - 1
  {
  }

  lemma AppliedNone(live: Table, pending: Table)
    ensures Applied(live, pending, {}) == live
    ensures pending.Keys - pending.Keys == {}
  {
  }

  lemma AppliedMore(live: Table, pending: Table, done: set<TermId>, t: TermId)
    requires done <= pending.Keys && t in pending && t !in done
    ensures Applied(live, pending, done + {t}) == Published(Applied(live, pending, done), pending, t)
  {
  }

  /** Applying changes no weight: every term then reads as its pending-or-published list did. */
  lemma AppliedReads(live: Table, pending: Table, t: TermId)
    ensures At(Applied(live, pending, pending.Keys), t) == At(live + pending, t)
  {
  }

  datatype QueryTerm = QueryTerm(term: TermId, weight: real)

  /** The terms of a query that the published index knows, in query order. */
  function Hits(queries: seq<QueryTerm>, live: Table): seq<QueryTerm> {
    if |queries| == 0 then []
    else
      var q := queries[|queries| - 1];
      Hits(queries[..|queries| - 1], live) + if q.term in live then [q] else []
  }
}
