/** Finite sums of reals and of naturals, and sums gathered through a list of indexes. */
module Sums {

  function Sum(v: seq<real>): real {
    if |v| == 0 then 0.0 else Sum(v[..|v| - 1]) + v[|v| - 1]
  }

  function Count(v: seq<nat>): nat {
    if |v| == 0 then 0 else Count(v[..|v| - 1]) + v[|v| - 1]
  }

  predicate Within(n: nat, ix: seq<nat>) {
    forall k :: 0 <= k < |ix| ==> ix[k] < n
  }

  /** Every entry of `ix` is an index below `n`, and no index occurs twice. */
  ghost predicate Indexes(n: nat, ix: seq<nat>) {
    && Within(n, ix)
    && (forall i, j :: 0 <= i < j < |ix| ==> ix[i] != ix[j])
  }

  /** The sum of `v` at the first `k` positions listed in `ix`. */
  function Partial(v: seq<real>, ix: seq<nat>, k: nat): real
    requires Within(|v|, ix) && k <= |ix|
  {
    if k == 0 then 0.0 else Partial(v, ix, k - 1) + v[ix[k - 1]]
  }

  lemma {:induction false} SumUpdate(v: seq<real>, j: nat, x: real)
    requires j < |v|
    ensures Sum(v[j := x]) == Sum(v) - v[j] + x
  {
    var n := |v| - 1;
    if j == n {
      assert v[j := x][..n] == v[..n];
    } else {
      assert v[j := x][..n] == v[..n][j := x];
      SumUpdate(v[..n], j, x);
    }
  }

  lemma {:induction false} CountUpdate(v: seq<nat>, j: nat, x: nat)
    requires j < |v|
    ensures Count(v[j := x]) == Count(v) - v[j] + x
  {
    var n := |v| - 1;
    if j == n {
      assert v[j := x][..n] == v[..n];
    } else {
      assert v[j := x][..n] == v[..n][j := x];
      CountUpdate(v[..n], j, x);
    }
  }

  lemma {:induction false} SumZero(v: seq<real>)
    requires forall i :: 0 <= i < |v| ==> v[i] == 0.0
    ensures Sum(v) == 0.0
  {
    if |v| > 0 { SumZero(v[..|v| - 1]); }
  }

  lemma {:induction false} SumBelow(v: seq<real>, w: seq<real>)
    requires |v| == |w| && forall i :: 0 <= i < |v| ==> v[i] <= w[i]
    ensures Sum(v) <= Sum(w)
  {
    if |v| > 0 { SumBelow(v[..|v| - 1], w[..|w| - 1]); }
  }

  /** Only the entries below `k` matter. */
  lemma {:induction false} PartialAgrees(v: seq<real>, w: seq<real>, ix: seq<nat>, jx: seq<nat>, k: nat)
    requires Within(|v|, ix) && Within(|w|, jx) && k <= |ix| && k <= |jx|
    requires forall i :: 0 <= i < k ==> v[ix[i]] == w[jx[i]]
    ensures Partial(v, ix, k) == Partial(w, jx, k)
  {
    if k > 0 { PartialAgrees(v, w, ix, jx, k - 1); }
  }

  lemma {:induction false} PartialBelow(v: seq<real>, w: seq<real>, ix: seq<nat>, k: nat)
    requires |v| == |w| && Within(|v|, ix) && k <= |ix|
    requires forall i :: 0 <= i < k ==> v[ix[i]] <= w[ix[i]]
    ensures Partial(v, ix, k) <= Partial(w, ix, k)
  {
    if k > 0 { PartialBelow(v, w, ix, k - 1); }
  }

  lemma {:induction false} PartialGrows(v: seq<real>, ix: seq<nat>, j: nat, k: nat)
    requires Within(|v|, ix) && j <= k <= |ix|
    requires forall i :: 0 <= i < |v| ==> v[i] >= 0.0
    ensures Partial(v, ix, j) <= Partial(v, ix, k)
    decreases k
  {
    if j < k { PartialGrows(v, ix, j, k - 1); }
  }

  /** A vector that is zero outside the first `k` entries of `ix` sums to what it gathers there. */
  lemma {:induction false} PartialAll(v: seq<real>, ix: seq<nat>, k: nat)
    requires Indexes(|v|, ix) && k <= |ix|
    requires forall i :: 0 <= i < |v| && i !in ix[..k] ==> v[i] == 0.0
    ensures Sum(v) == Partial(v, ix, k)
    decreases k
  {
    if k == 0 {
      SumZero(v);
    } else {
      var j := ix[k - 1];
      var v' := v[j := 0.0];
      forall i | 0 <= i < |v'| && i !in ix[..k - 1] ensures v'[i] == 0.0 {
        assert ix[..k] == ix[..k - 1] + [j];
      }
      PartialAll(v', ix, k - 1);
      SumUpdate(v, j, 0.0);
      PartialAgrees(v, v', ix, ix, k - 1);
    }
  }

  lemma PartialEmpty(v: seq<real>, ix: seq<nat>)
    requires Within(|v|, ix)
    ensures Partial(v, ix, 0) == 0.0
  {
  }

  lemma PartialStep(v: seq<real>, ix: seq<nat>, k: nat)
    requires Within(|v|, ix) && k < |ix|
    ensures Partial(v, ix, k + 1) == Partial(v, ix, k) + v[ix[k]]
  {
  }
}
