/** Library sorting: Python's and JavaScript's stable sorts, and sorted listings of sets. */
module Sorting {

  /** `le` is a total preorder on the elements of `s`. */
  ghost predicate Orders<T>(le: (T, T) -> bool, s: seq<T>) {
    && (forall x, y :: x in s && y in s ==> le(x, y) || le(y, x))
    && (forall x, y, z :: x in s && y in s && z in s && le(x, y) && le(y, z) ==> le(x, z))
  }

  ghost predicate SortedBy<T>(le: (T, T) -> bool, s: seq<T>) {
    forall i, j :: 0 <= i < j < |s| ==> le(s[i], s[j])
  }

  function Insert<T>(le: (T, T) -> bool, x: T, s: seq<T>): (r: seq<T>)
    ensures multiset(r) == multiset([x] + s)
  {
    if s == [] || le(x, s[0]) then [x] + s
    else
      var r := [s[0]] + Insert(le, x, s[1..]);
      assert [x] + s == [x] + ([s[0]] + s[1..]);
      r
  }

  /** Stable sort. */
  function Sort<T>(le: (T, T) -> bool, s: seq<T>): (r: seq<T>)
    ensures multiset(r) == multiset(s) && |r| == |s|
  {
    if s == [] then []
    else
      var r := Insert(le, s[0], Sort(le, s[1..]));
      assert s == [s[0]] + s[1..];
      assert |multiset(r)| == |multiset(s)|;
      r
  }

  lemma {:induction false} SameMember<T>(s: seq<T>, t: seq<T>, y: T)
    requires multiset(s) == multiset(t)
    ensures y in s <==> y in t
  {
    assert (y in s <==> y in multiset(s)) && (y in t <==> y in multiset(t));
  }

  lemma {:induction false} InsertSorts<T>(le: (T, T) -> bool, x: T, s: seq<T>)
    requires Orders(le, [x] + s) && SortedBy(le, s)
    ensures SortedBy(le, Insert(le, x, s))
  {
    hide Orders, SortedBy;
    if s == [] {
      ConsSorted(le, x, []);
    } else {
      TotalOn(le, [x] + s, x, s[0]);
      if le(x, s[0]) {
        forall y | y in s
          ensures le(x, y)
        {
          ThroughHead(le, x, s, y);
        }
        ConsSorted(le, x, s);
      } else {
        OrdersFewer(le, [x] + s, [x] + s[1..]);
        TailSorted(le, s);
        InsertSorts(le, x, s[1..]);
        var r := Insert(le, x, s[1..]);
        forall y | y in r
          ensures le(s[0], y)
        {
          SameMember(r, [x] + s[1..], y);
          if y != x {
            HeadBefore(le, s, y);
          }
        }
        ConsSorted(le, s[0], r);
      }
    }
  }

  lemma {:induction false} ConsSorted<T>(le: (T, T) -> bool, x: T, s: seq<T>)
    requires SortedBy(le, s) || s == []
    requires forall y :: y in s ==> le(x, y)
    ensures SortedBy(le, [x] + s)
  {
  }

  lemma {:induction false} TailSorted<T>(le: (T, T) -> bool, s: seq<T>)
    requires SortedBy(le, s) && s != []
    ensures SortedBy(le, s[1..])
  {
  }

  lemma {:induction false} OrdersFewer<T>(le: (T, T) -> bool, s: seq<T>, t: seq<T>)
    requires Orders(le, s) && forall y :: y in t ==> y in s
    ensures Orders(le, t)
  {
  }

  lemma {:induction false} ThroughHead<T>(le: (T, T) -> bool, x: T, s: seq<T>, y: T)
    requires Orders(le, [x] + s) && SortedBy(le, s) && y in s && le(x, s[0])
    ensures le(x, y)
  {
    assert x in [x] + s && s[0] in [x] + s && y in [x] + s;
    HeadIsLeast(le, s, y);
  }

  lemma {:induction false} HeadBefore<T>(le: (T, T) -> bool, s: seq<T>, y: T)
    requires SortedBy(le, s) && s != [] && y in s[1..]
    ensures le(s[0], y)
  {
    var k :| 0 <= k < |s[1..]| && s[1..][k] == y;
    assert s[k + 1] == y;
  }

  lemma {:induction false} TotalOn<T>(le: (T, T) -> bool, s: seq<T>, x: T, y: T)
    requires Orders(le, s) && x in s && y in s
    ensures le(x, y) || le(y, x)
  {
  }

  lemma {:induction false} SortSorts<T>(le: (T, T) -> bool, s: seq<T>)
    requires Orders(le, s)
    ensures SortedBy(le, Sort(le, s))
  {
    if s != [] {
      SortSorts(le, s[1..]);
      var r := Sort(le, s[1..]);
      forall y | y in [s[0]] + r ensures y in s {
        if y != s[0] {
          assert y in r by { assert ([s[0]] + r)[1..] == r; }
          SameMember(r, s[1..], y);
        }
      }
      InsertSorts(le, s[0], r);
    }
  }

  lemma {:induction false} SortFixesSorted<T>(le: (T, T) -> bool, s: seq<T>)
    requires SortedBy(le, s)
    ensures Sort(le, s) == s
  {
    if s != [] {
      TailSorted(le, s);
      SortFixesSorted(le, s[1..]);
      InsertLeast(le, s);
      hide SortedBy, Insert;
    }
  }

  lemma {:induction false} InsertLeast<T>(le: (T, T) -> bool, s: seq<T>)
    requires SortedBy(le, s) && s != []
    ensures Insert(le, s[0], s[1..]) == s
  {
    assert |s| > 1 ==> le(s[0], s[1]);
    assert s == [s[0]] + s[1..];
  }

  // ----- Facts about all pairs of a list -----

  ghost predicate Pairwise<T>(r: (T, T) -> bool, s: seq<T>) {
    forall i, j :: 0 <= i < j < |s| ==> r(s[i], s[j])
  }

  ghost predicate Symmetric<T(!new)>(r: (T, T) -> bool) { forall x, y :: r(x, y) ==> r(y, x) }

  lemma {:induction false} InsertPairwise<T(!new)>(le: (T, T) -> bool, r: (T, T) -> bool, x: T, s: seq<T>)
    requires Symmetric(r) && Pairwise(r, s) && forall y :: y in s ==> r(x, y)
    ensures Pairwise(r, Insert(le, x, s))
  {
    if s != [] && !le(x, s[0]) {
      TailPairwise(r, s);
      hide Pairwise;
      InsertPairwise(le, r, x, s[1..]);
      var t := Insert(le, x, s[1..]);
      forall y | y in t
        ensures r(s[0], y)
      {
        SameMember(t, [x] + s[1..], y);
      }
      ConsPairwise(r, s[0], t);
    } else {
      ConsPairwise(r, x, s);
    }
  }

  lemma {:induction false} ConsPairwise<T>(r: (T, T) -> bool, x: T, s: seq<T>)
    requires Pairwise(r, s) && forall y :: y in s ==> r(x, y)
    ensures Pairwise(r, [x] + s)
  {
  }

  lemma {:induction false} TailPairwise<T>(r: (T, T) -> bool, s: seq<T>)
    requires Pairwise(r, s) && s != []
    ensures Pairwise(r, s[1..]) && forall y :: y in s[1..] ==> r(s[0], y)
  {
    forall y | y in s[1..]
      ensures r(s[0], y)
    {
      var k :| 0 <= k < |s[1..]| && s[1..][k] == y;
      assert s[k + 1] == y;
    }
  }

  /** Sorting keeps a symmetric fact about all pairs. */
  lemma {:induction false} SortPairwise<T(!new)>(le: (T, T) -> bool, r: (T, T) -> bool, s: seq<T>)
    requires Symmetric(r) && Pairwise(r, s)
    ensures Pairwise(r, Sort(le, s))
  {
    if s != [] {
      TailPairwise(r, s);
      hide Pairwise;
      SortPairwise(le, r, s[1..]);
      var t := Sort(le, s[1..]);
      forall y | y in t
        ensures r(s[0], y)
      {
        SameMember(t, s[1..], y);
      }
      InsertPairwise(le, r, s[0], t);
    }
  }

  /** Two lists without repetitions, sorted by an antisymmetric order, are equal when they
      have the same members. */
  lemma {:induction false} SameMembersSorted<T>(le: (T, T) -> bool, s: seq<T>, t: seq<T>)
    requires SortedBy(le, s) && SortedBy(le, t)
    requires forall i, j :: 0 <= i < j < |s| ==> s[i] != s[j]
    requires forall i, j :: 0 <= i < j < |t| ==> t[i] != t[j]
    requires forall x :: x in s <==> x in t
    requires forall x, y :: x in s && y in s && le(x, y) && le(y, x) ==> x == y
    ensures s == t
  {
    if s == [] {
      HeadIsMember(t);
    } else {
      assert s[0] in s && t[0] in t && s[0] in t && t[0] in s;
      HeadIsLeast(le, s, t[0]);
      HeadIsLeast(le, t, s[0]);
      forall x
        ensures x in s[1..] <==> x in t[1..]
      {
        InTail(s, x);
        InTail(t, x);
      }
      SameMembersSorted(le, s[1..], t[1..]);
      assert s == [s[0]] + s[1..] && t == [t[0]] + t[1..];
    }
  }

  lemma {:induction false} HeadIsMember<T>(s: seq<T>)
    ensures s == [] || s[0] in s
  {
  }

  lemma {:induction false} HeadIsLeast<T>(le: (T, T) -> bool, s: seq<T>, x: T)
    requires SortedBy(le, s) && x in s
    ensures x == s[0] || le(s[0], x)
  {
  }

  lemma {:induction false} InTail<T>(s: seq<T>, x: T)
    requires s != [] && forall i, j :: 0 <= i < j < |s| ==> s[i] != s[j]
    ensures x in s[1..] <==> x in s && x != s[0]
  {
    if x in s && x != s[0] {
      var k :| 0 <= k < |s| && s[k] == x;
      assert s[1..][k - 1] == x;
    }
  }

  /** A permutation that is sorted by an antisymmetric order is the only one. */
  lemma {:induction false} SortedIsUnique<T>(le: (T, T) -> bool, s: seq<T>, t: seq<T>)
    requires multiset(s) == multiset(t)
    requires SortedBy(le, s) && SortedBy(le, t)
    requires forall x, y :: x in s && y in s && le(x, y) && le(y, x) ==> x == y
    ensures s == t
  {
    assert |s| == |multiset(s)| == |multiset(t)| == |t|;
    if s != [] {
      SameHead(le, s, t);
      SameTails(le, s, t);
      hide SortedBy;
      SortedIsUnique(le, s[1..], t[1..]);
      assert s == [s[0]] + s[1..] && t == [t[0]] + t[1..];
    }
  }

  lemma {:induction false} SameTails<T>(le: (T, T) -> bool, s: seq<T>, t: seq<T>)
    requires multiset(s) == multiset(t) && s != [] && t != [] && s[0] == t[0]
    requires SortedBy(le, s) && SortedBy(le, t)
    ensures multiset(s[1..]) == multiset(t[1..])
    ensures SortedBy(le, s[1..]) && SortedBy(le, t[1..])
  {
    TailMultiset(s);
    TailMultiset(t);
    TailSorted(le, s);
    TailSorted(le, t);
    hide SortedBy;
  }

  lemma {:induction false} SameHead<T>(le: (T, T) -> bool, s: seq<T>, t: seq<T>)
    requires multiset(s) == multiset(t) && s != [] && t != []
    requires SortedBy(le, s) && SortedBy(le, t)
    requires forall x, y :: x in s && y in s && le(x, y) && le(y, x) ==> x == y
    ensures s[0] == t[0]
  {
    assert s[0] in s && t[0] in t;
    SameMember(s, t, s[0]);
    SameMember(s, t, t[0]);
    HeadIsLeast(le, s, t[0]);
    HeadIsLeast(le, t, s[0]);
  }

  lemma {:induction false} TailMultiset<T>(s: seq<T>)
    requires s != []
    ensures multiset(s[1..]) == multiset(s) - multiset{s[0]}
  {
    assert s == [s[0]] + s[1..];
  }

  // ----- Sorted listings of sets of keys -----

  ghost predicate Ascending(s: seq<int>) {
    forall i, j :: 0 <= i < j < |s| ==> s[i] < s[j]
  }

  lemma {:induction false} Pick<T>(s: set<T>) returns (x: T)
    requires s != {}
    ensures x in s
  {
    x :| x in s;
  }

  ghost predicate IsLeast(s: set<int>, m: int) { m in s && forall x :: x in s ==> m <= x }

  ghost predicate IsGreatest(s: set<int>, m: int) { m in s && forall x :: x in s ==> x <= m }

  lemma {:induction false} HasLeast(s: set<int>)
    requires s != {}
    ensures exists m :: IsLeast(s, m)
    decreases |s|
  {
    var x := Pick(s);
    var rest := s - {x};
    assert forall y :: y in s ==> y == x || y in rest;
    if rest == {} {
      assert IsLeast(s, x);
    } else {
      HasLeast(rest);
      var m :| IsLeast(rest, m);
      assert IsLeast(s, if x < m then x else m);
    }
  }

  function Least(s: set<int>): (m: int)
    requires s != {}
    ensures m in s && forall x :: x in s ==> m <= x
  {
    HasLeast(s);
    var m :| m in s && forall x :: x in s ==> m <= x;
    m
  }

  lemma {:induction false} HasGreatest(s: set<int>)
    requires s != {}
    ensures exists m :: IsGreatest(s, m)
    decreases |s|
  {
    var x := Pick(s);
    var rest := s - {x};
    assert forall y :: y in s ==> y == x || y in rest;
    if rest == {} {
      assert IsGreatest(s, x);
    } else {
      HasGreatest(rest);
      var m :| IsGreatest(rest, m);
      assert IsGreatest(s, if m < x then x else m);
    }
  }

  function Greatest(s: set<int>): (m: int)
    requires s != {}
    ensures m in s && forall x :: x in s ==> x <= m
  {
    HasGreatest(s);
    var m :| m in s && forall x :: x in s ==> x <= m;
    m
  }

  function SortedKeys(s: set<int>): (q: seq<int>)
    ensures Ascending(q)
    ensures forall x :: x in q <==> x in s
    decreases |s|
  {
    if s == {} then []
    else
      var m := Least(s);
      var rest := SortedKeys(s - {m});
      assert forall i :: 0 <= i < |rest| ==> rest[i] in rest;
      [m] + rest
  }

  /** The first `n` keys of a listing. */
  ghost function Firsts(keys: seq<int>, n: nat): set<int>
    requires n <= |keys|
  {
    set k | k in keys[..n]
  }

  lemma {:induction false} OneMoreFirst(keys: seq<int>, n: nat)
    requires Ascending(keys) && n < |keys|
    ensures Firsts(keys, n + 1) == Firsts(keys, n) + {keys[n]} && keys[n] !in Firsts(keys, n)
  {
    assert keys[..n + 1] == keys[..n] + [keys[n]];
  }

  lemma {:induction false} AllFirsts(s: set<int>)
    ensures Firsts(SortedKeys(s), 0) == {} && Firsts(SortedKeys(s), |SortedKeys(s)|) == s
    ensures forall n :: 0 <= n < |SortedKeys(s)| ==> SortedKeys(s)[n] in s
  {
    var keys := SortedKeys(s);
    assert keys[..|keys|] == keys;
    assert forall n :: 0 <= n < |keys| ==> keys[n] in keys;
    hide SortedKeys;
  }

  lemma {:induction false} AscendingIsUnique(r: seq<int>, q: seq<int>)
    requires Ascending(r) && Ascending(q) && forall x :: x in r <==> x in q
    ensures r == q
  {
    assert r != [] ==> r[0] in r && r[0] in q;
    assert q != [] ==> q[0] in q && q[0] in r;
    if r != [] {
      assert r[0] == q[0];
      forall x
        ensures x in r[1..] <==> x in q[1..]
      {
        InTail(r, x);
        InTail(q, x);
      }
      AscendingIsUnique(r[1..], q[1..]);
      assert r == [r[0]] + r[1..] && q == [q[0]] + q[1..];
    }
  }

  /** There is only one ascending listing of a set. */
  lemma {:induction false} SortedKeysIs(s: set<int>, q: seq<int>)
    requires Ascending(q) && forall x :: x in q <==> x in s
    ensures SortedKeys(s) == q
  {
    AscendingIsUnique(SortedKeys(s), q);
  }

  /** The members of a set in the order of a query. */
  ghost function Listing<T(!new)>(le: (T, T) -> bool, s: set<T>): (q: seq<T>)
    ensures forall x :: x in q <==> x in s
    ensures forall i, j :: 0 <= i < j < |q| ==> q[i] != q[j]
    decreases |s|
  {
    if s == {} then []
    else
      var x :| x in s;
      var rest := Listing(le, s - {x});
      ListOneMore(le, x, rest);
      Insert(le, x, rest)
  }

  lemma {:induction false} ListOneMore<T(!new)>(le: (T, T) -> bool, x: T, rest: seq<T>)
    requires x !in rest && forall i, j :: 0 <= i < j < |rest| ==> rest[i] != rest[j]
    ensures forall y :: y in Insert(le, x, rest) <==> y == x || y in rest
    ensures forall i, j :: 0 <= i < j < |Insert(le, x, rest)| ==> Insert(le, x, rest)[i] != Insert(le, x, rest)[j]
  {
    var apart := (a: T, b: T) => a != b;
    InsertPairwise(le, apart, x, rest);
    var r := Insert(le, x, rest);
    hide Insert;
    forall y
      ensures y in r <==> y == x || y in rest
    {
      SameMember(r, [x] + rest, y);
    }
    forall i, j | 0 <= i < j < |r|
      ensures r[i] != r[j]
    {
      assert apart(r[i], r[j]);
    }
  }

  lemma {:induction false} ListingSorts<T(!new)>(le: (T, T) -> bool, s: set<T>)
    requires forall x, y :: le(x, y) || le(y, x)
    requires forall x, y, z :: le(x, y) && le(y, z) ==> le(x, z)
    ensures SortedBy(le, Listing(le, s))
    decreases |s|
  {
    if s != {} {
      var x :| x in s && Listing(le, s) == Insert(le, x, Listing(le, s - {x}));
      ListingSorts(le, s - {x});
      hide *;
      OrdersAll(le, [x] + Listing(le, s - {x}));
      InsertSorts(le, x, Listing(le, s - {x}));
    }
  }

  lemma {:induction false} OrdersAll<T(!new)>(le: (T, T) -> bool, s: seq<T>)
    requires forall x, y :: le(x, y) || le(y, x)
    requires forall x, y, z :: le(x, y) && le(y, z) ==> le(x, z)
    ensures Orders(le, s)
  {
  }

  /** A listing is the only sorted one. */
  lemma {:induction false} ListingIs<T(!new)>(le: (T, T) -> bool, s: set<T>, q: seq<T>)
    requires forall x, y :: le(x, y) || le(y, x)
    requires forall x, y, z :: le(x, y) && le(y, z) ==> le(x, z)
    requires forall x, y :: le(x, y) && le(y, x) ==> x == y
    requires SortedBy(le, q) && (forall i, j :: 0 <= i < j < |q| ==> q[i] != q[j]) && forall x :: x in q <==> x in s
    ensures Listing(le, s) == q
  {
    ListingSorts(le, s);
    SameMembersSorted(le, Listing(le, s), q);
  }
}
