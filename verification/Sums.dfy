/** Finite sums over frames, lists and dictionaries. */
module Sums {

  // ----- Multiples and equal shares, kept as named functions so that proofs can hide the products -----

  function Times(n: nat, v: real): real { n as real * v }

  function Share(v: real, n: nat): real { if n == 0 then 0.0 else v / n as real }

  lemma {:induction false} TimesSucc(n: nat, v: real)
    ensures Times(n + 1, v) == Times(n, v) + v
    ensures Times(0, v) == 0.0
  {
  }

  lemma {:induction false} TimesShare(n: nat, v: real, k: nat)
    ensures Times(n, Share(v, k)) == Share(Times(n, v), k)
  {
  }

  lemma {:induction false} TimesSwap(m: nat, n: nat, v: real)
    ensures Times(m, Times(n, v)) == Times(n, Times(m, v))
  {
    assert m as real * (n as real * v) == n as real * (m as real * v);
  }

  lemma {:induction false} SharesMakeWhole(v: real, n: nat)
    requires n > 0
    ensures Times(n, Share(v, n)) == v
  {
  }

  lemma {:induction false} ZeroShares(n: nat)
    ensures Times(n, 0.0) == 0.0 && Share(0.0, n) == 0.0
  {
  }

  /** Sum of `g(f)` over the frames `lo <= f < hi`. */
  ghost function Integral(g: int -> real, lo: int, hi: int): real
    decreases hi - lo
  {
    if hi <= lo then 0.0 else Integral(g, lo, hi - 1) + g(hi - 1)
  }

  lemma {:induction false} IntegralSplits(g: int -> real, a: int, b: int, c: int)
    requires a <= b <= c
    ensures Integral(g, a, c) == Integral(g, a, b) + Integral(g, b, c)
    decreases c - b
  {
    if b < c {
      IntegralSplits(g, a, b, c - 1);
    }
  }

  lemma {:induction false} IntegralOfConstant(g: int -> real, lo: int, hi: int, v: real)
    requires lo <= hi
    requires forall f :: lo <= f < hi ==> g(f) == v
    ensures Integral(g, lo, hi) == Times(hi - lo, v)
    decreases hi - lo
  {
    if lo < hi {
      IntegralOfConstant(g, lo, hi - 1, v);
    }
  }

  /** Sum of `g` over a list of keys. */
  ghost function SumOver(keys: seq<int>, g: int -> real): real {
    if keys == [] then 0.0 else SumOver(keys[..|keys| - 1], g) + g(keys[|keys| - 1])
  }

  lemma {:induction false} SumOverAdds(keys: seq<int>, g: int -> real, h: int -> real, k: int -> real)
    requires forall i :: 0 <= i < |keys| ==> g(keys[i]) == h(keys[i]) + k(keys[i])
    ensures SumOver(keys, g) == SumOver(keys, h) + SumOver(keys, k)
  {
    if keys != [] {
      SumOverAdds(keys[..|keys| - 1], g, h, k);
    }
  }

  // ----- Dictionaries of amounts -----

  function Get(m: map<int, real>, k: int): real { if k in m then m[k] else 0.0 }

  ghost function MapSum<K>(m: map<K, real>): real
    decreases |m|
  {
    if m.Keys == {} then 0.0 else var k :| k in m; m[k] + MapSum(m - {k})
  }

  lemma {:induction false} MapSumEmpty<K>()
    ensures MapSum<K>(map[]) == 0.0
  {
  }

  lemma {:induction false} MapSumRemove<K>(m: map<K, real>, k: K)
    requires k in m
    ensures MapSum(m) == m[k] + MapSum(m - {k})
    decreases |m|
  {
    var j :| j in m && MapSum(m) == m[j] + MapSum(m - {j});
    if j != k {
      MapSumRemove(m - {j}, k);
      MapSumRemove(m - {k}, j);
      assert m - {j} - {k} == m - {k} - {j};
    }
  }

  lemma {:induction false} MapSumUpdate(m: map<int, real>, k: int, amount: real)
    ensures MapSum(m[k := Get(m, k) + amount]) == MapSum(m) + amount
  {
    var m' := m[k := Get(m, k) + amount];
    MapSumRemove(m', k);
    if k in m {
      MapSumRemove(m, k);
      assert m' - {k} == m - {k};
    } else {
      assert m' - {k} == m;
    }
  }

  // ----- Lists of (key, amount) entries -----

  ghost function EntrySum(entries: seq<(int, real)>): real {
    if entries == [] then 0.0 else EntrySum(entries[..|entries| - 1]) + entries[|entries| - 1].1
  }

  /** The amounts entered under one key. */
  ghost function EntryAt(entries: seq<(int, real)>, k: int): real {
    if entries == [] then 0.0
    else EntryAt(entries[..|entries| - 1], k) + if entries[|entries| - 1].0 == k then entries[|entries| - 1].1 else 0.0
  }

  ghost predicate HasEntry(entries: seq<(int, real)>, k: int) {
    exists i :: 0 <= i < |entries| && entries[i].0 == k
  }

  lemma {:induction false} HasEntrySnoc(entries: seq<(int, real)>, e: (int, real))
    ensures forall k :: HasEntry(entries + [e], k) <==> HasEntry(entries, k) || k == e.0
  {
    var all := entries + [e];
    assert all[|entries|] == e;
    forall k | HasEntry(entries, k)
      ensures HasEntry(all, k)
    {
      var n :| 0 <= n < |entries| && entries[n].0 == k;
      assert all[n].0 == k;
    }
    forall k | HasEntry(all, k)
      ensures HasEntry(entries, k) || k == e.0
    {
      var n :| 0 <= n < |all| && all[n].0 == k;
      assert n < |entries| ==> entries[n].0 == k;
    }
  }

  /** Add every entry to the running amounts of its key. */
  method AddEntries(m: map<int, real>, entries: seq<(int, real)>) returns (r: map<int, real>)
    ensures forall k :: Get(r, k) == Get(m, k) + EntryAt(entries, k)
    ensures forall k :: k in r <==> k in m || HasEntry(entries, k)
    ensures MapSum(r) == MapSum(m) + EntrySum(entries)
  {
    r := m;
    for i := 0 to |entries|
      invariant forall k :: Get(r, k) == Get(m, k) + EntryAt(entries[..i], k)
      invariant forall k :: k in r <==> k in m || HasEntry(entries[..i], k)
      invariant MapSum(r) == MapSum(m) + EntrySum(entries[..i])
    {
      var (k, amount) := entries[i];
      assert entries[..i + 1][..i] == entries[..i];
      MapSumUpdate(r, k, amount);
      HasEntrySnoc(entries[..i], entries[i]);
      assert entries[..i] + [entries[i]] == entries[..i + 1];
      r := r[k := Get(r, k) + amount];
    }
    assert entries[..|entries|] == entries;
  }
}
