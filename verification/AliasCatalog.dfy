/** The players section of an identity catalog and its deterministic normal form
    (packages/corpus-store/python/identity_import.py, `normalize_catalog`).  Texts are ordered
    opaque values; `fold` is the case folding that decides when two names are the same. */
module AliasCatalog {
  import opened Options
  import opened Sorting

  type Text = int

  datatype Alias = Alias(namespace: Text, name: Text)

  datatype Player = Player(key: Text, display: Text, aliases: seq<Alias>)

  type Catalog = seq<Player>

  /** What an alias is looked up by: its namespace and its folded name. */
  type Ident = (Text, Text)

  function IdentOf(fold: Text -> Text, a: Alias): Ident { (a.namespace, fold(a.name)) }

  predicate IdentBefore(a: Ident, b: Ident) { a.0 < b.0 || (a.0 == b.0 && a.1 <= b.1) }

  predicate HasAlias(c: Catalog, key: Text, a: Alias) {
    exists i :: 0 <= i < |c| && c[i].key == key && a in c[i].aliases
  }

  predicate HasPlayer(c: Catalog, key: Text, display: Text) {
    exists i :: 0 <= i < |c| && c[i].key == key && c[i].display == display
  }

  /** Two places in a list of aliases do not hold the same identity. */
  predicate OtherAlias(fold: Text -> Text, a: Alias, b: Alias) { IdentOf(fold, a) != IdentOf(fold, b) }

  predicate Apart(fold: Text -> Text, s: seq<Alias>, t: seq<Alias>) {
    forall a, b :: a in s && b in t ==> OtherAlias(fold, a, b)
  }

  /** Two players share neither their key nor an identity. */
  predicate OtherPlayer(fold: Text -> Text, p: Player, q: Player) {
    p.key != q.key && Apart(fold, p.aliases, q.aliases)
  }

  function OtherAliases(fold: Text -> Text): (Alias, Alias) -> bool { (a, b) => OtherAlias(fold, a, b) }

  function OtherPlayers(fold: Text -> Text): (Player, Player) -> bool { (p, q) => OtherPlayer(fold, p, q) }

  /** No key occurs twice and no identity occurs twice, in one player or in two. */
  ghost predicate Consistent(fold: Text -> Text, c: Catalog) {
    && Pairwise(OtherPlayers(fold), c)
    && forall i :: 0 <= i < |c| ==> Pairwise(OtherAliases(fold), c[i].aliases)
  }

  // ----- The normal form -----

  predicate AliasBefore(fold: Text -> Text, a: Alias, b: Alias) {
    var x, y := fold(a.name), fold(b.name);
    a.namespace < b.namespace
    || (a.namespace == b.namespace && (x < y || (x == y && a.name <= b.name)))
  }

  function AliasOrder(fold: Text -> Text): (Alias, Alias) -> bool { (a, b) => AliasBefore(fold, a, b) }

  predicate KeyBefore(p: Player, q: Player) { p.key <= q.key }

  function Tidy(fold: Text -> Text, p: Player): Player { p.(aliases := Sort(AliasOrder(fold), p.aliases)) }

  function TidyAll(fold: Text -> Text, c: Catalog, n: nat): Catalog
    requires n <= |c|
  {
    if n == 0 then [] else TidyAll(fold, c, n - 1) + [Tidy(fold, c[n - 1])]
  }

  ghost function Normalize(fold: Text -> Text, c: Catalog): Option<Catalog> {
    if Consistent(fold, c) then Some(Sort(KeyBefore, TidyAll(fold, c, |c|))) else None
  }

  /** A catalog in normal form. */
  ghost predicate Normal(fold: Text -> Text, c: Catalog) {
    && Consistent(fold, c)
    && SortedBy(KeyBefore, c)
    && forall i :: 0 <= i < |c| ==> SortedBy(AliasOrder(fold), c[i].aliases)
  }

  lemma {:induction false} AliasesOrdered(fold: Text -> Text, s: seq<Alias>)
    ensures Orders(AliasOrder(fold), s)
    ensures SortedBy(AliasOrder(fold), Sort(AliasOrder(fold), s))
  {
    SortSorts(AliasOrder(fold), s);
  }

  lemma {:induction false} TidyAt(fold: Text -> Text, c: Catalog, n: nat)
    requires n <= |c|
    ensures |TidyAll(fold, c, n)| == n
    ensures forall i :: 0 <= i < n ==> TidyAll(fold, c, n)[i] == Tidy(fold, c[i])
  {
    hide Tidy;
    if n > 0 {
      TidyAt(fold, c, n - 1);
    }
  }

  lemma {:induction false} TidyKeepsAliases(fold: Text -> Text, p: Player, a: Alias)
    ensures a in Tidy(fold, p).aliases <==> a in p.aliases
  {
    SameMember(Tidy(fold, p).aliases, p.aliases, a);
  }

  lemma {:induction false} TidyKeepsOthers(fold: Text -> Text, p: Player, q: Player)
    requires OtherPlayer(fold, p, q)
    ensures OtherPlayer(fold, Tidy(fold, p), Tidy(fold, q))
  {
    hide Tidy, OtherAlias;
    forall a, b | a in Tidy(fold, p).aliases && b in Tidy(fold, q).aliases
      ensures OtherAlias(fold, a, b)
    {
      TidyKeepsAliases(fold, p, a);
      TidyKeepsAliases(fold, q, b);
    }
    TidyKeepsKey(fold, p);
    TidyKeepsKey(fold, q);
  }

  lemma {:induction false} TidyKeepsKey(fold: Text -> Text, p: Player)
    ensures Tidy(fold, p).key == p.key && Tidy(fold, p).display == p.display
  {
  }

  lemma {:induction false} OthersAreSymmetric(fold: Text -> Text)
    ensures Symmetric(OtherPlayers(fold)) && Symmetric(OtherAliases(fold))
  {
  }

  lemma {:induction false} TidyIsTidy(fold: Text -> Text, p: Player)
    requires Pairwise(OtherAliases(fold), p.aliases)
    ensures Pairwise(OtherAliases(fold), Tidy(fold, p).aliases)
    ensures SortedBy(AliasOrder(fold), Tidy(fold, p).aliases)
  {
    OthersAreSymmetric(fold);
    AliasesOrdered(fold, p.aliases);
    SortPairwise(AliasOrder(fold), OtherAliases(fold), p.aliases);
  }

  /** The list before the players are sorted. */
  lemma {:induction false} TidyAllIsConsistent(fold: Text -> Text, c: Catalog)
    requires Consistent(fold, c)
    ensures Consistent(fold, TidyAll(fold, c, |c|))
    ensures forall p :: p in TidyAll(fold, c, |c|) ==> SortedBy(AliasOrder(fold), p.aliases)
  {
    hide TidyAll, Tidy, OtherPlayer, OtherAliases, AliasOrder, SortedBy;
    var t := TidyAll(fold, c, |c|);
    TidyAt(fold, c, |c|);
    forall i, j | 0 <= i < j < |t|
      ensures OtherPlayers(fold)(t[i], t[j])
    {
      assert OtherPlayers(fold)(c[i], c[j]);
      TidyKeepsOthers(fold, c[i], c[j]);
    }
    hide Pairwise, OtherPlayers;
    forall i | 0 <= i < |t|
      ensures Pairwise(OtherAliases(fold), t[i].aliases) && SortedBy(AliasOrder(fold), t[i].aliases)
    {
      TidyIsTidy(fold, c[i]);
    }
  }

  /** Normalizing succeeds exactly on consistent catalogs and yields the normal form. */
  lemma {:induction false} NormalizeIsNormal(fold: Text -> Text, c: Catalog)
    requires Consistent(fold, c)
    ensures Normal(fold, Normalize(fold, c).value)
  {
    hide Tidy, OtherPlayer, OtherAliases, AliasOrder, TidyAll, Pairwise;
    var t := TidyAll(fold, c, |c|);
    TidyAllIsConsistent(fold, c);
    OthersAreSymmetric(fold);
    SortPairwise(KeyBefore, OtherPlayers(fold), t);
    SortSorts(KeyBefore, t);
    var r := Sort(KeyBefore, t);
    hide OtherPlayers, Sort, SortedBy;
    forall i | 0 <= i < |r|
      ensures SortedBy(AliasOrder(fold), r[i].aliases) && Pairwise(OtherAliases(fold), r[i].aliases)
    {
      SameMember(r, t, r[i]);
      var j :| 0 <= j < |t| && t[j] == r[i];
    }
  }

  /** It keeps every player and every alias, and adds none. */
  lemma {:induction false} NormalizeKeeps(fold: Text -> Text, c: Catalog, key: Text, display: Text, a: Alias)
    requires Consistent(fold, c)
    ensures HasPlayer(Normalize(fold, c).value, key, display) <==> HasPlayer(c, key, display)
    ensures HasAlias(Normalize(fold, c).value, key, a) <==> HasAlias(c, key, a)
  {
    hide Tidy, TidyAll, Sort, Consistent;
    var t := TidyAll(fold, c, |c|);
    var r := Sort(KeyBefore, t);
    TidyAt(fold, c, |c|);
    forall i | 0 <= i < |c|
      ensures t[i] in r
      ensures t[i].key == c[i].key && t[i].display == c[i].display
      ensures a in t[i].aliases <==> a in c[i].aliases
    {
      SameMember(r, t, t[i]);
      TidyKeepsKey(fold, c[i]);
      TidyKeepsAliases(fold, c[i], a);
    }
    forall j | 0 <= j < |r|
      ensures exists i :: 0 <= i < |t| && t[i] == r[j]
    {
      SameMember(r, t, r[j]);
    }
  }

  /** A normal catalog is determined by its players and aliases. */
  lemma {:induction false} NormalIsUnique(fold: Text -> Text, c: Catalog, d: Catalog)
    requires Normal(fold, c) && Normal(fold, d)
    requires forall key, display :: HasPlayer(c, key, display) <==> HasPlayer(d, key, display)
    requires forall key, a :: HasAlias(c, key, a) <==> HasAlias(d, key, a)
    ensures c == d
  {
    forall p
      ensures p in c <==> p in d
    {
      if p in c {
        PlayerCarriesOver(fold, c, d, p);
      }
      if p in d {
        PlayerCarriesOver(fold, d, c, p);
      }
    }
    hide Normal, HasPlayer, HasAlias;
    DistinctPlayers(fold, c);
    DistinctPlayers(fold, d);
    SameMembersSorted(KeyBefore, c, d);
  }

  lemma {:induction false} DistinctPlayers(fold: Text -> Text, c: Catalog)
    requires Normal(fold, c)
    ensures SortedBy(KeyBefore, c)
    ensures forall i, j :: 0 <= i < j < |c| ==> c[i] != c[j]
    ensures forall p, q :: p in c && q in c && p.key == q.key ==> p == q
  {
    hide AliasOrder, OtherAliases, Apart;
    forall i, j | 0 <= i < j < |c|
      ensures c[i].key != c[j].key
    {
      assert OtherPlayers(fold)(c[i], c[j]);
    }
  }

  lemma {:induction false} PlayerCarriesOver(fold: Text -> Text, c: Catalog, d: Catalog, p: Player)
    requires Normal(fold, c) && Normal(fold, d) && p in c
    requires forall key, display :: HasPlayer(c, key, display) <==> HasPlayer(d, key, display)
    requires forall key, a :: HasAlias(c, key, a) <==> HasAlias(d, key, a)
    ensures p in d
  {
    DistinctPlayers(fold, c);
    DistinctPlayers(fold, d);
    hide Normal;
    assert HasPlayer(c, p.key, p.display);
    assert HasPlayer(d, p.key, p.display);
    var j :| 0 <= j < |d| && d[j].key == p.key && d[j].display == p.display;
    var q := d[j];
    forall a
      ensures a in p.aliases <==> a in q.aliases
    {
      assert HasAlias(c, p.key, a) <==> HasAlias(d, p.key, a);
      AliasOf(c, p, a);
      AliasOf(d, q, a);
    }
    SameAliases(fold, c, d, p, q);
  }

  lemma {:induction false} AliasOf(c: Catalog, p: Player, a: Alias)
    requires p in c && forall q :: q in c && q.key == p.key ==> q == p
    ensures HasAlias(c, p.key, a) <==> a in p.aliases
  {
  }

  lemma {:induction false} SameAliases(fold: Text -> Text, c: Catalog, d: Catalog, p: Player, q: Player)
    requires Normal(fold, c) && Normal(fold, d) && p in c && q in d
    requires forall a :: a in p.aliases <==> a in q.aliases
    ensures p.aliases == q.aliases
  {
    var s, t := p.aliases, q.aliases;
    assert SortedBy(AliasOrder(fold), s) && SortedBy(AliasOrder(fold), t);
    assert Pairwise(OtherAliases(fold), s) && Pairwise(OtherAliases(fold), t);
    hide Normal;
    DistinctAliases(fold, s);
    DistinctAliases(fold, t);
    SameMembersSorted(AliasOrder(fold), s, t);
  }

  lemma {:induction false} DistinctAliases(fold: Text -> Text, s: seq<Alias>)
    requires Pairwise(OtherAliases(fold), s)
    ensures forall i, j :: 0 <= i < j < |s| ==> s[i] != s[j]
    ensures forall a, b :: a in s && b in s && AliasOrder(fold)(a, b) && AliasOrder(fold)(b, a) ==> a == b
  {
    forall i, j | 0 <= i < j < |s|
      ensures s[i] != s[j]
    {
      assert OtherAliases(fold)(s[i], s[j]);
    }
  }

  /** Normalizing a normal catalog changes nothing. */
  lemma {:induction false} NormalizeFixesNormal(fold: Text -> Text, c: Catalog)
    requires Normal(fold, c)
    ensures Normalize(fold, c) == Some(c)
  {
    NormalizeIsNormal(fold, c);
    var r := Normalize(fold, c).value;
    forall key, display
      ensures HasPlayer(r, key, display) <==> HasPlayer(c, key, display)
    {
      NormalizeKeeps(fold, c, key, display, Alias(0, 0));
    }
    forall key, a
      ensures HasAlias(r, key, a) <==> HasAlias(c, key, a)
    {
      NormalizeKeeps(fold, c, key, 0, a);
    }
    hide Normalize;
    NormalIsUnique(fold, r, c);
  }

  lemma {:induction false} IdentsDiffer(fold: Text -> Text, c: Catalog, i: nat, j: nat, a: Alias, b: Alias)
    requires Consistent(fold, c) && i < j < |c| && a in c[i].aliases && b in c[j].aliases
    ensures IdentOf(fold, a) != IdentOf(fold, b)
  {
    hide OtherAliases;
    assert OtherPlayers(fold)(c[i], c[j]);
    assert OtherAlias(fold, a, b);
  }

  lemma {:induction false} IdentsDifferWithin(fold: Text -> Text, c: Catalog, i: nat, j: nat, k: nat)
    requires Consistent(fold, c) && i < |c| && j < k < |c[i].aliases|
    ensures IdentOf(fold, c[i].aliases[j]) != IdentOf(fold, c[i].aliases[k])
  {
    hide OtherPlayers;
    assert OtherAliases(fold)(c[i].aliases[j], c[i].aliases[k]);
  }

  // ----- The loops of `normalize_catalog` -----

  ghost function IdentsOf(fold: Text -> Text, s: seq<Alias>): set<Ident> { set a | a in s :: IdentOf(fold, a) }

  /** The identities of the first `n` players. */
  ghost function IdentsBefore(fold: Text -> Text, c: Catalog, n: nat): set<Ident>
    requires n <= |c|
  {
    if n == 0 then {} else IdentsBefore(fold, c, n - 1) + IdentsOf(fold, c[n - 1].aliases)
  }

  lemma {:induction false} IdentSeen(fold: Text -> Text, c: Catalog, n: nat, id: Ident) returns (i: nat, a: Alias)
    requires n <= |c| && id in IdentsBefore(fold, c, n)
    ensures i < n && a in c[i].aliases && IdentOf(fold, a) == id
  {
    if id in IdentsOf(fold, c[n - 1].aliases) {
      i := n - 1;
      a :| a in c[n - 1].aliases && IdentOf(fold, a) == id;
    } else {
      i, a := IdentSeen(fold, c, n - 1, id);
    }
  }

  lemma {:induction false} SeesIdent(fold: Text -> Text, c: Catalog, n: nat, i: nat, a: Alias)
    requires i < n <= |c| && a in c[i].aliases
    ensures IdentOf(fold, a) in IdentsBefore(fold, c, n)
  {
    if i < n - 1 {
      SeesIdent(fold, c, n - 1, i, a);
    }
  }

  /** Keys differ; identities differ within and across the first `n` players. */
  ghost predicate ConsistentUpTo(fold: Text -> Text, c: Catalog, n: nat)
    requires n <= |c|
  {
    && (forall i, j :: 0 <= i < j < |c| ==> c[i].key != c[j].key)
    && (forall i :: 0 <= i < n ==> Pairwise(OtherAliases(fold), c[i].aliases))
    && (forall i, j :: 0 <= i < j < n ==> Apart(fold, c[i].aliases, c[j].aliases))
  }

  lemma {:induction false} OnePlayerMore(fold: Text -> Text, c: Catalog, n: nat)
    requires n < |c| && ConsistentUpTo(fold, c, n) && Pairwise(OtherAliases(fold), c[n].aliases)
    requires forall a :: a in c[n].aliases ==> IdentOf(fold, a) !in IdentsBefore(fold, c, n)
    ensures ConsistentUpTo(fold, c, n + 1)
  {
    hide OtherAliases, Pairwise, IdentsBefore;
    forall i | 0 <= i < n
      ensures Apart(fold, c[i].aliases, c[n].aliases)
    {
      forall a, b | a in c[i].aliases && b in c[n].aliases
        ensures OtherAlias(fold, a, b)
      {
        SeesIdent(fold, c, n, i, a);
      }
    }
    hide Apart;
  }

  lemma {:induction false} ConsistentAtLast(fold: Text -> Text, c: Catalog)
    requires ConsistentUpTo(fold, c, |c|)
    ensures Consistent(fold, c)
  {
    hide Apart, OtherAliases;
  }

  /** An identity met twice is a duplicate. */
  lemma {:induction false} MetTwice(fold: Text -> Text, c: Catalog, n: nat, k: nat)
    requires n < |c| && k < |c[n].aliases|
    requires IdentOf(fold, c[n].aliases[k]) in IdentsBefore(fold, c, n) + IdentsOf(fold, c[n].aliases[..k])
    ensures !Consistent(fold, c)
  {
    var b := c[n].aliases[k];
    if IdentOf(fold, b) in IdentsBefore(fold, c, n) {
      var i, a := IdentSeen(fold, c, n, IdentOf(fold, b));
      assert !OtherAlias(fold, a, b);
      assert !OtherPlayers(fold)(c[i], c[n]);
    } else {
      var a :| a in c[n].aliases[..k] && IdentOf(fold, a) == IdentOf(fold, b);
      var i :| 0 <= i < k && c[n].aliases[..k][i] == a;
      assert !OtherAliases(fold)(c[n].aliases[i], c[n].aliases[k]);
    }
  }

  lemma {:induction false} SameKeyTwice(fold: Text -> Text, c: Catalog, i: nat, j: nat)
    requires i < j < |c| && c[i].key == c[j].key
    ensures !Consistent(fold, c)
  {
    assert !OtherPlayers(fold)(c[i], c[j]);
  }

  lemma {:induction false} AliasFits(fold: Text -> Text, s: seq<Alias>, k: nat)
    requires k < |s| && Pairwise(OtherAliases(fold), s[..k]) && IdentOf(fold, s[k]) !in IdentsOf(fold, s[..k])
    ensures Pairwise(OtherAliases(fold), s[..k + 1])
    ensures IdentsOf(fold, s[..k + 1]) == IdentsOf(fold, s[..k]) + {IdentOf(fold, s[k])}
  {
    assert s[..k + 1] == s[..k] + [s[k]];
    forall i | 0 <= i < k
      ensures OtherAliases(fold)(s[i], s[k])
    {
      assert s[..k][i] in s[..k];
    }
    forall id
      ensures id in IdentsOf(fold, s[..k + 1]) <==> id in IdentsOf(fold, s[..k]) + {IdentOf(fold, s[k])}
    {
      if id in IdentsOf(fold, s[..k]) {
        var a :| a in s[..k] && IdentOf(fold, a) == id;
        assert a in s[..k + 1];
      }
      assert s[k] in s[..k + 1];
    }
  }

  method CheckKeys(fold: Text -> Text, c: Catalog) returns (distinct: bool)
    ensures distinct ==> forall i, j :: 0 <= i < j < |c| ==> c[i].key != c[j].key
    ensures !distinct ==> !Consistent(fold, c)
  {
    hide Consistent;
    var keys: set<Text> := {};
    for n := 0 to |c|
      invariant forall i :: 0 <= i < n ==> c[i].key in keys
      invariant forall k :: k in keys ==> exists i :: 0 <= i < n && c[i].key == k
      invariant forall i, j :: 0 <= i < j < n ==> c[i].key != c[j].key
    {
      if c[n].key in keys {
        ghost var i :| 0 <= i < n && c[i].key == c[n].key;
        SameKeyTwice(fold, c, i, n);
        return false;
      }
      keys := keys + {c[n].key};
    }
    distinct := true;
  }

  /** The loop over one player's aliases. */
  method CollectAliases(fold: Text -> Text, c: Catalog, n: nat, before: set<Ident>) returns (ok: bool, seen: set<Ident>)
    requires n < |c| && before == IdentsBefore(fold, c, n)
    ensures !ok ==> !Consistent(fold, c)
    ensures ok ==> && seen == before + IdentsOf(fold, c[n].aliases) && Pairwise(OtherAliases(fold), c[n].aliases)
                   && forall a :: a in c[n].aliases ==> IdentOf(fold, a) !in before
  {
    hide *;
    var aliases := c[n].aliases;
    seen := before;
    NoAliases(fold, aliases);
    for k := 0 to |aliases|
      invariant seen == before + IdentsOf(fold, aliases[..k])
      invariant Pairwise(OtherAliases(fold), aliases[..k])
      invariant forall i :: 0 <= i < k ==> IdentOf(fold, aliases[i]) !in before
    {
      var identity := IdentOf(fold, aliases[k]);
      if identity in seen {
        MetTwice(fold, c, n, k);
        return false, seen;
      }
      AliasFits(fold, aliases, k);
      seen := seen + {identity};
    }
    assert aliases[..|aliases|] == aliases;
    ok := true;
  }

  /** The players part of `normalize_catalog`. */
  method NormalizeCatalog(fold: Text -> Text, c: Catalog) returns (r: Option<Catalog>)
    ensures r == Normalize(fold, c)
  {
    hide Consistent, ConsistentUpTo, Pairwise, OtherAliases, AliasOrder, IdentsOf, Tidy;
    var distinct := CheckKeys(fold, c);
    if !distinct {
      return None;
    }
    var seen: set<Ident> := {};
    var players: Catalog := [];
    StartsConsistent(fold, c);
    for n := 0 to |c|
      invariant seen == IdentsBefore(fold, c, n) && players == TidyAll(fold, c, n) && ConsistentUpTo(fold, c, n)
    {
      var ok;
      ok, seen := CollectAliases(fold, c, n, seen);
      if !ok {
        return None;
      }
      OnePlayerMore(fold, c, n);
      players := players + [Tidy(fold, c[n])];
    }
    ConsistentAtLast(fold, c);
    r := Some(Sort(KeyBefore, players));
  }

  lemma {:induction false} StartsConsistent(fold: Text -> Text, c: Catalog)
    requires forall i, j :: 0 <= i < j < |c| ==> c[i].key != c[j].key
    ensures ConsistentUpTo(fold, c, 0)
  {
  }

  lemma {:induction false} NoAliases(fold: Text -> Text, s: seq<Alias>)
    ensures Pairwise(OtherAliases(fold), s[..0]) && IdentsOf(fold, s[..0]) == {}
  {
  }
}
