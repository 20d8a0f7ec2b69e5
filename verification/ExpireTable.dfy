/** BTreeExpireTable: an expiry time for every key, kept once by key and once in expiry order. */
module ExpireTable {

  /** What expires: a (term, document) point. A row index keys its documents with term 0. */
  datatype Key = Key(term: nat, doc: nat)

  const NO_KEY := Key(0, 0)

  datatype Item = Item(key: Key, time: int)

  predicate KeyLess(a: Key, b: Key) {
    a.term < b.term || (a.term == b.term && a.doc < b.doc)
  }

  /** Expiry order: by time, then by key. */
  predicate Less(a: Item, b: Item) {
    a.time < b.time || (a.time == b.time && KeyLess(a.key, b.key))
  }

  lemma LessIsTotal(a: Item, b: Item)
    ensures Less(a, b) || Less(b, a) || a == b
    ensures !(Less(a, b) && Less(b, a)) && !Less(a, a)
  {
  }

  lemma LessIsTransitive(a: Item, b: Item, c: Item)
    requires Less(a, b) && Less(b, c)
    ensures Less(a, c)
  {
  }

  // ----- A set in expiry order --------------------------------------------------------------------

  ghost predicate IsLeast(x: Item, s: set<Item>) {
    x in s && forall y :: y in s && y != x ==> Less(x, y)
  }

  lemma {:induction false} HasLeast(s: set<Item>) returns (x: Item)
    requires s != {}
    ensures IsLeast(x, s)
    decreases |s|
  {
    x :| x in s;
    var rest := s - {x};
    if rest != {} {
      var y := HasLeast(rest);
      LessIsTotal(x, y);
      var m := if Less(y, x) then y else x;
      forall z | z in s && z != m ensures Less(m, z) {
        if z != x && z != y {
          assert z in rest && Less(y, z);
        }
      }
      x := m;
    } else {
      assert s == {x};
    }
  }

  function Least(s: set<Item>): (x: Item)
    requires s != {}
    ensures IsLeast(x, s)
  {
    assert exists x :: x in s && forall y :: y in s && y != x ==> Less(x, y) by {
      var x := HasLeast(s);
      assert x in s && forall y :: y in s && y != x ==> Less(x, y);
    }
    var x :| x in s && forall y :: y in s && y != x ==> Less(x, y);
    x
  }

  /** The items of a set, in expiry order. */
  function Ordered(s: set<Item>): (r: seq<Item>)
    decreases |s|
  {
    if s == {} then [] else [Least(s)] + Ordered(s - {Least(s)})
  }

  function Members(s: seq<Item>): set<Item> {
    set x | x in s
  }

  ghost function KeysOf(s: seq<Item>): set<Key> {
    set x | x in s :: x.key
  }

  ghost predicate Ascending(s: seq<Item>) {
    forall i, j :: 0 <= i < j < |s| ==> Less(s[i], s[j])
  }

  lemma ConsAscending(x: Item, r: seq<Item>)
    requires Ascending(r) && forall y :: y in r ==> Less(x, y)
    ensures Ascending([x] + r) && Members([x] + r) == {x} + Members(r)
  {
  }

  lemma {:induction false} OrderedIs(s: set<Item>)
    ensures Members(Ordered(s)) == s && Ascending(Ordered(s)) && |Ordered(s)| == |s|
    decreases |s|
  {
    hide Less;
    if s != {} {
      var x, rest := Least(s), s - {Least(s)};
      OrderedIs(rest);
      forall y | y in Ordered(rest) ensures Less(x, y) { assert y in Members(Ordered(rest)); }
      ConsAscending(x, Ordered(rest));
    }
  }

  /** std::upper_bound in the ordered set: how many items do not lie beyond `bound`. */
  function NotBeyond(s: seq<Item>, bound: Item): (k: nat)
    ensures k <= |s|
    ensures forall i :: 0 <= i < k ==> !Less(bound, s[i])
    ensures k < |s| ==> Less(bound, s[k])
  {
    if |s| == 0 || Less(bound, s[0]) then 0 else 1 + NotBeyond(s[1..], bound)
  }

  /** Which items are due at `time`: those not beyond (no key, time + 1). */
  predicate Due(x: Item, time: int) {
    x.time <= time || x == Item(NO_KEY, time + 1)
  }

  lemma DueIff(x: Item, time: int)
    ensures Due(x, time) <==> !Less(Item(NO_KEY, time + 1), x)
  {
  }

  /** How many items an expiry takes off the front. */
  function Taken(s: seq<Item>, due: nat, minCount: nat): (m: nat)
    requires due <= |s|
    ensures due <= m <= |s|
  {
    if minCount <= due then due else if minCount <= |s| then minCount else |s|
  }

  function Overflow(size: nat, limit: nat): nat {
    if limit == 0 then 0 else if size > limit then size - limit else 0
  }

  /** The map and the ordered set hold the same pairs. */
  ghost predicate Bijection(times: map<Key, int>, table: set<Item>) {
    && (forall k :: k in times ==> Item(k, times[k]) in table)
    && (forall x :: x in table ==> x.key in times && times[x.key] == x.time)
  }

  lemma DropItems(times: map<Key, int>, table: set<Item>, gone: seq<Item>)
    requires Bijection(times, table) && Members(gone) <= table
    ensures Bijection(times - KeysOf(gone), table - Members(gone))
  {
  }

  lemma AscendingPrefix(s: seq<Item>, m: nat)
    requires Ascending(s) && m <= |s|
    ensures Ascending(s[..m])
  {
  }

  lemma MembersPrefix(s: seq<Item>, m: nat)
    requires m <= |s|
    ensures Members(s[..m]) <= Members(s)
  {
  }

  /** `gone` is the shortest front of `s` that takes everything due and leaves at most a non-zero limit. */
  ghost predicate Expires(s: set<Item>, gone: set<Item>, time: int, limit: nat) {
    && gone <= s
    && (forall x :: x in s && Due(x, time) ==> x in gone)
    && (forall x, y :: x in gone && y in s - gone ==> Less(x, y))
    && (limit != 0 ==> |s - gone| <= limit)
    && ((forall x :: x in gone ==> Due(x, time)) || (limit != 0 && |s - gone| == limit))
  }

  class Expiries {
    var times: map<Key, int>
    var table: set<Item>

    ghost predicate Valid()
      reads this
    {
      Bijection(times, table)
    }

    constructor ()
      ensures Valid() && times == map[]
    {
      times, table := map[], {};
    }

    method Update(key: Key, time: int)
      requires Valid()
      modifies this
      ensures Valid() && times == old(times)[key := time]
    {
      if key in times {
        table := table - {Item(key, times[key])};
      }
      times := times[key := time];
      table := table + {Item(key, time)};
    }

    /** Restore one item: a key that is already there keeps its time. */
    method InsertLoaded(key: Key, time: int)
      requires Valid()
      modifies this
      ensures Valid() && times == if key in old(times) then old(times) else old(times)[key := time]
    {
      if key !in times { times := times[key := time]; }
      table := table + {Item(key, times[key])};
    }

    method Remove(key: Key) returns (removed: int)
      requires Valid()
      modifies this
      ensures Valid() && times == old(times) - {key}
      ensures removed == if key in old(times) then 1 else 0
    {
      if key in times {
        table := table - {Item(key, times[key])};
        times := times - {key};
        return 1;
      }
      assert times - {key} == times;
      return 0;
    }

    /** Take the due items off the front, and more while fewer than `minCount` are taken. */
    method ExpireInternal(order: seq<Item>, due: nat, minCount: nat) returns (results: seq<Item>)
      requires Valid() && order == Ordered(table) && due <= |order|
      modifies this
      ensures Valid()
      ensures results == order[..Taken(order, due, minCount)]
      ensures table == old(table) - Members(results)
      ensures times == old(times) - KeysOf(results)
    {
      hide Bijection, Ordered, Members, KeysOf, Taken;
      OrderedIs(table);
      TakenIs(order, due, minCount);
      NoKeys(order, times);
      results := [];
      var i := 0;
      while i < due
        invariant 0 <= i <= due && results == order[..i]
        invariant times == old(times) - KeysOf(order[..i]) && table == old(table)
      {
        Grow(order, i);
        times := times - {order[i].key};
        results := results + [order[i]];
        i := i + 1;
      }
      if i < minCount {
        while i < |order| && i < minCount
          invariant due <= i <= |order| && i <= minCount && results == order[..i]
          invariant times == old(times) - KeysOf(order[..i]) && table == old(table)
        {
          Grow(order, i);
          times := times - {order[i].key};
          results := results + [order[i]];
          i := i + 1;
        }
      }
      MembersPrefix(order, i);
      DropItems(old(times), table, results);
      table := table - Members(results);
    }

    /** Remove everything due at `time`. */
    method Expire(time: int) returns (results: seq<Item>)
      requires Valid()
      modifies this
      ensures Valid() && Ascending(results) && table == old(table) - Members(results)
      ensures times == old(times) - KeysOf(results)
      ensures Expires(old(table), Members(results), time, 0)
    {
      hide Ordered, NotBeyond, Taken, Members, KeysOf, Expires, Bijection, Ascending;
      OrderedIs(table);
      var order := Ordered(table);
      var mid := NotBeyond(order, Item(NO_KEY, time + 1));
      results := ExpireInternal(order, mid, 0);
      ExpiresPrefix(old(table), time, 0);
    }

    /** Remove everything due at `time`, and the next items in order while more than the limit remain. */
    method ExpireWithLimit(time: int, sizeLimit: nat) returns (results: seq<Item>)
      requires Valid()
      modifies this
      ensures Valid() && Ascending(results) && table == old(table) - Members(results)
      ensures times == old(times) - KeysOf(results)
      ensures Expires(old(table), Members(results), time, sizeLimit)
    {
      hide Ordered, NotBeyond, Taken, Members, KeysOf, Expires, Bijection, Ascending;
      OrderedIs(table);
      var order := Ordered(table);
      var mid := NotBeyond(order, Item(NO_KEY, time + 1));
      var minCount := Overflow(|table|, sizeLimit);
      results := ExpireInternal(order, mid, minCount);
      ExpiresPrefix(old(table), time, sizeLimit);
    }

    /** Remove the first items in order while more than a non-zero limit remain, due or not. */
    method ForceExpire(sizeLimit: nat) returns (results: seq<Item>)
      requires Valid()
      modifies this
      ensures Valid() && Ascending(results) && table == old(table) - Members(results)
      ensures times == old(times) - KeysOf(results)
      ensures forall x, y :: x in Members(results) && y in table ==> Less(x, y)
      ensures Members(results) <= old(table) && |results| == Overflow(|old(table)|, sizeLimit)
      ensures |table| == if sizeLimit != 0 && |old(table)| > sizeLimit then sizeLimit else |old(table)|
    {
      hide Ordered, Members, KeysOf, Bijection, Ascending, Less;
      OrderedIs(table);
      var order := Ordered(table);
      var minCount := Overflow(|table|, sizeLimit);
      results := ExpireInternal(order, 0, minCount);
      AscendingPrefix(order, minCount);
      KeptSize(order, minCount);
      FrontComesFirst(order, minCount);
    }
  }

  /** The documented "no larger than the limit afterwards" fails exactly for limit 0 with something not due. */
  lemma LimitIff(s: set<Item>, gone: set<Item>, time: int, limit: nat)
    requires Expires(s, gone, time, limit)
    ensures |s - gone| <= limit <==> limit != 0 || forall x :: x in s ==> Due(x, time)
  {
  }

  /** Documents 0 and 1 both expire at time 6; an expiry at time 5 takes the first, whose key is the default one. */
  method ExpiresEarly() returns (results: seq<Item>)
    ensures Members(results) == {Item(Key(0, 0), 6)}
  {
    hide Bijection, Ordered;
    var expire := new Expiries();
    expire.Update(Key(0, 0), 6);
    expire.Update(Key(0, 1), 6);
    BothThere(expire.times, expire.table);
    results := expire.Expire(5);
  }

  lemma BothThere(times: map<Key, int>, table: set<Item>)
    requires Bijection(times, table) && times == map[Key(0, 0) := 6, Key(0, 1) := 6]
    ensures table == {Item(Key(0, 0), 6), Item(Key(0, 1), 6)}
  {
    assert Key(0, 0) in times && Key(0, 1) in times;
  }

  /** With limit 0 an expiry at time 0 leaves an item of time 5: one more than the limit. */
  lemma LimitZero()
    ensures Expires({Item(Key(0, 1), 5)}, {}, 0, 0) && |{Item(Key(0, 1), 5)} - {}| > 0
  {
    assert Item(Key(0, 1), 5) in {Item(Key(0, 1), 5)};
  }

  /** Without limit exactly the items of time at most T go if and only if none is the default key at T + 1. */
  lemma ExactlyDueIff(s: set<Item>, gone: set<Item>, time: int)
    requires Expires(s, gone, time, 0)
    ensures (forall x :: x in s ==> (x in gone <==> x.time <= time)) <==> Item(NO_KEY, time + 1) !in s
  {
  }

  /** Among items of one time the smaller term goes first, and of one term the smaller document. */
  lemma EvictionOrder(s: set<Item>, gone: set<Item>, time: int, limit: nat, x: Item, y: Item)
    requires Expires(s, gone, time, limit) && x in s && y in gone && x.time == y.time
    requires x.key.term < y.key.term || (x.key.term == y.key.term && x.key.doc < y.key.doc)
    ensures x in gone
  {
    assert x in s - gone ==> Less(y, x);
  }

  /** An earlier item goes before a later one. */
  lemma EarlierFirst(s: set<Item>, gone: set<Item>, time: int, limit: nat, x: Item, y: Item)
    requires Expires(s, gone, time, limit) && x in s && y in gone && x.time < y.time
    ensures x in gone
  {
    assert x in s - gone ==> Less(y, x);
  }

  /** There is exactly one such front. */
  lemma ExpiresUnique(s: set<Item>, a: set<Item>, b: set<Item>, time: int, limit: nat)
    requires Expires(s, a, time, limit) && Expires(s, b, time, limit)
    ensures a == b
  {
    ExpiresWithin(s, a, b, time, limit);
    ExpiresWithin(s, b, a, time, limit);
  }

  lemma ExpiresWithin(s: set<Item>, a: set<Item>, b: set<Item>, time: int, limit: nat)
    requires Expires(s, a, time, limit) && Expires(s, b, time, limit)
    ensures b <= a
  {
    if x :| x in b && x !in a {
      forall y | y in a ensures y in b {
        assert Less(y, x);
        LessIsTotal(x, y);
      }
      Smaller(s - b, s - a);
      assert false;
    }
  }

  lemma Smaller(a: set<Item>, b: set<Item>)
    requires a < b
    ensures |a| < |b|
  {
    assert b == a + (b - a);
  }

  lemma MembersSize(s: seq<Item>)
    requires Ascending(s)
    ensures |Members(s)| == |s|
  {
    if |s| > 0 {
      var front, x := s[..|s| - 1], s[|s| - 1];
      MembersSize(front);
      assert s == front + [x];
      assert x !in front by {
        forall k | 0 <= k < |front| ensures front[k] != x { assert Less(s[k], s[|s| - 1]); }
      }
      assert Members(s) == Members(front) + {x};
    }
  }

  /** In an ordered list the due items are exactly those in front of the first one beyond the bound. */
  lemma PrefixDue(order: seq<Item>, time: int, x: Item)
    requires Ascending(order) && x in order
    ensures Due(x, time) <==> x in order[..NotBeyond(order, Item(NO_KEY, time + 1))]
  {
  }

  lemma PrefixMember(order: seq<Item>, a: nat, b: nat, x: Item)
    requires a <= b <= |order| && x in order[..a]
    ensures x in order[..b]
  {
  }

  lemma KeptSize(order: seq<Item>, m: nat)
    requires Ascending(order) && m <= |order|
    ensures Members(order[..m]) <= Members(order)
    ensures |Members(order) - Members(order[..m])| == |order| - m
  {
    AscendingPrefix(order, m);
    MembersSize(order);
    MembersSize(order[..m]);
    MembersPrefix(order, m);
  }

  /** Everything due lies in a front at least as long as the number of due items. */
  lemma FrontTakesDue(order: seq<Item>, m: nat, time: int)
    requires Ascending(order) && NotBeyond(order, Item(NO_KEY, time + 1)) <= m <= |order|
    ensures forall x :: x in Members(order) && Due(x, time) ==> x in Members(order[..m])
    ensures m == NotBeyond(order, Item(NO_KEY, time + 1)) ==> forall x :: x in Members(order[..m]) ==> Due(x, time)
  {
    hide Ascending, NotBeyond, Due;
    var due := NotBeyond(order, Item(NO_KEY, time + 1));
    forall x | x in order && Due(x, time) ensures x in order[..m] {
      PrefixDue(order, time, x);
      PrefixMember(order, due, m, x);
    }
    if m == due {
      forall x | x in order[..m] ensures Due(x, time) {
        PrefixDue(order, time, x);
      }
    }
  }

  lemma FrontComesFirst(order: seq<Item>, m: nat)
    requires Ascending(order) && m <= |order|
    ensures forall x, y :: x in Members(order[..m]) && y in Members(order) - Members(order[..m]) ==> Less(x, y)
  {
  }

  lemma Assemble(s: set<Item>, gone: set<Item>, time: int, limit: nat, due: nat, m: nat)
    requires gone <= s && |s - gone| == |s| - m && due <= m
    requires forall x :: x in s && Due(x, time) ==> x in gone
    requires forall x, y :: x in gone && y in s - gone ==> Less(x, y)
    requires m == due ==> forall x :: x in gone ==> Due(x, time)
    requires m == if Overflow(|s|, limit) <= due then due else Overflow(|s|, limit)
    ensures Expires(s, gone, time, limit)
  {
  }

  lemma ExpiresPrefix(s: set<Item>, time: int, limit: nat)
    ensures var order := Ordered(s);
            var due := NotBeyond(order, Item(NO_KEY, time + 1));
            var front := order[..Taken(order, due, Overflow(|s|, limit))];
            Expires(s, Members(front), time, limit) && Ascending(front)
  {
    hide Ordered, NotBeyond, Less, Due, Ascending, Members, Expires;
    var order := Ordered(s);
    OrderedIs(s);
    var due := NotBeyond(order, Item(NO_KEY, time + 1));
    var m := Taken(order, due, Overflow(|s|, limit));
    AscendingPrefix(order, m);
    KeptSize(order, m);
    FrontTakesDue(order, m, time);
    FrontComesFirst(order, m);
    Assemble(s, Members(order[..m]), time, limit, due, m);
  }

  lemma TakenIs(s: seq<Item>, due: nat, minCount: nat)
    requires due <= |s|
    ensures Taken(s, due, minCount) == if due >= minCount then due else if |s| < minCount then |s| else minCount
  {
  }

  lemma NoKeys(s: seq<Item>, times: map<Key, int>)
    ensures times - KeysOf(s[..0]) == times
  {
  }

  lemma Grow(order: seq<Item>, i: nat)
    requires i < |order|
    ensures order[..i] + [order[i]] == order[..i + 1]
    ensures KeysOf(order[..i + 1]) == KeysOf(order[..i]) + {order[i].key}
    ensures forall times: map<Key, int> {:trigger times - KeysOf(order[..i + 1])} ::
              times - KeysOf(order[..i + 1]) == times - KeysOf(order[..i]) - {order[i].key}
  {
  }
}
