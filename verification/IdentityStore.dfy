/** `export_catalog` and `apply_catalog` (packages/corpus-store/python/identities.py) on the
    catalog's tables.  One call is one transaction. */
module IdentityStore {
  import opened AliasCatalog
  import opened CatalogRoundTrip
  import opened CatalogSections
  import opened CatalogTables
  import opened Sorting

  // ----- Queries -----

  /** ORDER BY over pairs. */
  method OrderPairs(s: set<Ident>) returns (q: seq<Ident>)
    ensures q == Listing(IdentBefore, s)
  {
    hide Listing, Insert;
    q := [];
    var rest := s;
    while rest != {}
      invariant rest <= s && SortedBy(IdentBefore, q)
      invariant forall i, j :: 0 <= i < j < |q| ==> q[i] != q[j]
      invariant forall x :: x in q <==> x in s && x !in rest
      decreases |rest|
    {
      var x :| x in rest;
      ListOneMore(IdentBefore, x, q);
      OrdersAll(IdentBefore, [x] + q);
      InsertSorts(IdentBefore, x, q);
      q := Insert(IdentBefore, x, q);
      rest := rest - {x};
    }
    ListingIs(IdentBefore, s, q);
  }

  method FindId(s: Section, key: Text) returns (id: Id)
    requires UniqueKeys(s) && HasKey(s, key)
    ensures id == IdOf(s, key)
  {
    id :| id in s && s[id].key == key;
  }

  method ExportPlayer(t: Tables, key: Text) returns (p: Player)
    requires UniqueKeys(t.players) && HasKey(t.players, key)
    ensures p == PlayerAt(t, key)
  {
    hide UniqueKeys, HasKey, IdOf, Listing, Names;
    var id := FindId(t.players, key);
    var ids := OrderPairs(set x | x in t.aliases && t.aliases[x].1 == id);
    p := Player(key, t.players[id].display, Names(t, ids));
  }

  lemma {:induction false} NextPlayers(t: Tables, keys: seq<Text>, i: nat)
    requires i < |keys| && AllHaveKey(t.players, keys[i..])
    ensures HasKey(t.players, keys[i]) && AllHaveKey(t.players, keys[i + 1..])
    ensures PlayersAt(t, keys[i..]) == [PlayerAt(t, keys[i])] + PlayersAt(t, keys[i + 1..])
  {
    hide PlayerAt, HasKey;
    assert keys[i..][0] == keys[i] && keys[i..][1..] == keys[i + 1..];
  }

  lemma {:induction false} PlayersStartAndEnd(t: Tables, keys: seq<Text>)
    ensures keys[0..] == keys && AllHaveKey(t.players, keys[|keys|..]) && PlayersAt(t, keys[|keys|..]) == []
  {
  }

  method ExportPlayers(t: Tables) returns (r: Catalog)
    requires UniqueKeys(t.players)
    ensures AllHaveKey(t.players, SortedKeys(KeySet(t.players)))
    ensures r == PlayersAt(t, SortedKeys(KeySet(t.players)))
  {
    hide *;
    KeysHaveKey(t.players);
    var keys := SortedKeys(KeySet(t.players));
    r := [];
    PlayersStartAndEnd(t, keys);
    for i := 0 to |keys|
      invariant AllHaveKey(t.players, keys[i..]) && r + PlayersAt(t, keys[i..]) == PlayersAt(t, keys)
    {
      NextPlayers(t, keys, i);
      var p := ExportPlayer(t, keys[i]);
      r := r + [p];
    }
  }

  method ExportGroup(t: Tables, key: Text) returns (g: Group)
    requires UniqueKeys(t.groups) && HasKey(t.groups, key)
    ensures g == GroupAt(t, key)
  {
    hide UniqueKeys, HasKey, IdOf, Linked;
    var id := FindId(t.groups, key);
    g := Group(key, t.groups[id].display, Linked(t.members, id, t.players));
  }

  lemma {:induction false} NextGroups(t: Tables, keys: seq<Text>, i: nat)
    requires i < |keys| && AllHaveKey(t.groups, keys[i..])
    ensures HasKey(t.groups, keys[i]) && AllHaveKey(t.groups, keys[i + 1..])
    ensures GroupsAt(t, keys[i..]) == [GroupAt(t, keys[i])] + GroupsAt(t, keys[i + 1..])
  {
    hide GroupAt, HasKey;
    assert keys[i..][0] == keys[i] && keys[i..][1..] == keys[i + 1..];
  }

  lemma {:induction false} GroupsStartAndEnd(t: Tables, keys: seq<Text>)
    ensures keys[0..] == keys && AllHaveKey(t.groups, keys[|keys|..]) && GroupsAt(t, keys[|keys|..]) == []
  {
  }

  method ExportGroups(t: Tables) returns (r: seq<Group>)
    requires UniqueKeys(t.groups)
    ensures AllHaveKey(t.groups, SortedKeys(KeySet(t.groups)))
    ensures r == GroupsAt(t, SortedKeys(KeySet(t.groups)))
  {
    hide *;
    KeysHaveKey(t.groups);
    var keys := SortedKeys(KeySet(t.groups));
    r := [];
    GroupsStartAndEnd(t, keys);
    for i := 0 to |keys|
      invariant AllHaveKey(t.groups, keys[i..]) && r + GroupsAt(t, keys[i..]) == GroupsAt(t, keys)
    {
      NextGroups(t, keys, i);
      var g := ExportGroup(t, keys[i]);
      r := r + [g];
    }
  }

  method ExportScope(t: Tables, key: Text) returns (scope: Scope)
    requires UniqueKeys(t.scopes) && HasKey(t.scopes, key)
    ensures scope == ScopeAt(t, key)
  {
    hide UniqueKeys, HasKey, IdOf, Linked, Values;
    var id := FindId(t.scopes, key);
    scope := Scope(key, t.scopes[id].display, t.scopes[id].filters,
                   Selector(Linked(t.ownPlayers, id, t.players), Linked(t.ownGroups, id, t.groups)),
                   Selector(Linked(t.opponentPlayers, id, t.players), Linked(t.opponentGroups, id, t.groups)),
                   Values(t.replays, id));
  }

  lemma {:induction false} NextScopes(t: Tables, keys: seq<Text>, i: nat)
    requires i < |keys| && AllHaveKey(t.scopes, keys[i..])
    ensures HasKey(t.scopes, keys[i]) && AllHaveKey(t.scopes, keys[i + 1..])
    ensures ScopesAt(t, keys[i..]) == [ScopeAt(t, keys[i])] + ScopesAt(t, keys[i + 1..])
  {
    hide ScopeAt, HasKey;
    assert keys[i..][0] == keys[i] && keys[i..][1..] == keys[i + 1..];
  }

  lemma {:induction false} ScopesStartAndEnd(t: Tables, keys: seq<Text>)
    ensures keys[0..] == keys && AllHaveKey(t.scopes, keys[|keys|..]) && ScopesAt(t, keys[|keys|..]) == []
  {
  }

  method ExportScopes(t: Tables) returns (r: seq<Scope>)
    requires UniqueKeys(t.scopes)
    ensures AllHaveKey(t.scopes, SortedKeys(KeySet(t.scopes)))
    ensures r == ScopesAt(t, SortedKeys(KeySet(t.scopes)))
  {
    hide *;
    KeysHaveKey(t.scopes);
    var keys := SortedKeys(KeySet(t.scopes));
    r := [];
    ScopesStartAndEnd(t, keys);
    for i := 0 to |keys|
      invariant AllHaveKey(t.scopes, keys[i..]) && r + ScopesAt(t, keys[i..]) == ScopesAt(t, keys)
    {
      NextScopes(t, keys, i);
      var scope := ExportScope(t, keys[i]);
      r := r + [scope];
    }
  }

  /** UNIQUE(replay_id, owner) of the participations table. */
  ghost predicate UniqueParts(parts: Participations) {
    forall p, q :: p in parts && q in parts && parts[p] == parts[q] ==> p == q
  }

  lemma {:induction false} NextOverrides(t: Tables, parts: Participations, pairs: seq<(Text, int)>, i: nat)
    requires i < |pairs| && AllJoin(t, parts, pairs[i..])
    ensures Joins(t, parts, pairs[i]) && AllJoin(t, parts, pairs[i + 1..])
    ensures OverridesAt(t, parts, pairs[i..]) == [OverrideAt(t, parts, pairs[i])] + OverridesAt(t, parts, pairs[i + 1..])
  {
    hide OverrideAt, Joins;
    assert pairs[i..][0] == pairs[i] && pairs[i..][1..] == pairs[i + 1..];
  }

  lemma {:induction false} OverridesStartAndEnd(t: Tables, parts: Participations, pairs: seq<(Text, int)>)
    ensures pairs[0..] == pairs && AllJoin(t, parts, pairs[|pairs|..]) && OverridesAt(t, parts, pairs[|pairs|..]) == []
  {
  }

  method ExportOverrides(t: Tables, parts: Participations) returns (r: seq<Override>)
    requires UniqueParts(parts)
    ensures AllJoin(t, parts, Listing(IdentBefore, OverridePairs(t, parts)))
    ensures r == OverridesAt(t, parts, Listing(IdentBefore, OverridePairs(t, parts)))
  {
    hide *;
    PairsJoin(t, parts);
    var pairs := OrderPairs(OverridePairs(t, parts));
    r := [];
    OverridesStartAndEnd(t, parts, pairs);
    for i := 0 to |pairs|
      invariant AllJoin(t, parts, pairs[i..]) && r + OverridesAt(t, parts, pairs[i..]) == OverridesAt(t, parts, pairs)
    {
      NextOverrides(t, parts, pairs, i);
      var o := JoinOverride(t, parts, pairs[i]);
      r := r + [o];
    }
  }

  method JoinOverride(t: Tables, parts: Participations, pair: (Text, int)) returns (o: Override)
    requires UniqueParts(parts) && Joins(t, parts, pair)
    ensures o == OverrideAt(t, parts, pair)
  {
    ghost var p :| Overridden(t, parts, p) && parts[p] == pair;
    assert p in t.overrides;
    var part :| part in t.overrides && Overridden(t, parts, part) && parts[part] == pair;
    o := Override(pair.0, pair.1, t.players[t.overrides[part]].key);
  }

  // ----- Inserts -----

  /** The alias at place (m, j) comes before place (n, k). */
  predicate Before(players: Catalog, m: int, j: int, n: nat, k: nat) {
    0 <= m < |players| && 0 <= j < |players[m].aliases| && (m < n || (m == n && j < k))
  }

  predicate Stored(fold: Text -> Text, p: Player, ids: map<Text, Id>, aliases: map<Ident, (Text, Id)>, a: Alias) {
    p.key in ids && IdentOf(fold, a) in aliases && aliases[IdentOf(fold, a)] == (a.name, ids[p.key])
  }

  /** Exactly the aliases before place (n, k) are stored. */
  ghost predicate StoredUpTo(fold: Text -> Text, players: Catalog, ids: map<Text, Id>, aliases: map<Ident, (Text, Id)>, n: nat, k: nat) {
    && (forall m, j :: Before(players, m, j, n, k) ==> Stored(fold, players[m], ids, aliases, players[m].aliases[j]))
    && (forall id :: id in aliases ==>
          exists m, j :: Before(players, m, j, n, k) && IdentOf(fold, players[m].aliases[j]) == id)
  }

  lemma {:induction false} StoreOneMore(fold: Text -> Text, players: Catalog, ids: map<Text, Id>,
                                        aliases: map<Ident, (Text, Id)>, n: nat, k: nat)
    requires Normal(fold, players) && n < |players| && k < |players[n].aliases| && players[n].key in ids
    requires StoredUpTo(fold, players, ids, aliases, n, k)
    ensures var a := players[n].aliases[k];
            StoredUpTo(fold, players, ids, aliases[IdentOf(fold, a) := (a.name, ids[players[n].key])], n, k + 1)
  {
    var a := players[n].aliases[k];
    var aliases' := aliases[IdentOf(fold, a) := (a.name, ids[players[n].key])];
    hide IdentOf, Consistent;
    forall m, j | Before(players, m, j, n, k + 1)
      ensures Stored(fold, players[m], ids, aliases', players[m].aliases[j])
    {
      if Before(players, m, j, n, k) {
        PlacesDiffer(fold, players, m, j, n, k);
      }
    }
    forall id | id in aliases'
      ensures exists m, j :: Before(players, m, j, n, k + 1) && IdentOf(fold, players[m].aliases[j]) == id
    {
      if id == IdentOf(fold, a) {
        assert Before(players, n, k, n, k + 1);
      } else {
        var m, j :| Before(players, m, j, n, k) && IdentOf(fold, players[m].aliases[j]) == id;
        assert Before(players, m, j, n, k + 1);
      }
    }
  }

  lemma {:induction false} PlacesDiffer(fold: Text -> Text, players: Catalog, m: int, j: int, n: nat, k: nat)
    requires Normal(fold, players) && Before(players, m, j, n, k) && n < |players| && k < |players[n].aliases|
    ensures IdentOf(fold, players[m].aliases[j]) != IdentOf(fold, players[n].aliases[k])
  {
    hide Consistent, IdentOf;
    if m < n {
      IdentsDiffer(fold, players, m, n, players[m].aliases[j], players[n].aliases[k]);
    } else {
      IdentsDifferWithin(fold, players, n, j, k);
    }
  }

  lemma {:induction false} PlayerStored(fold: Text -> Text, players: Catalog, ids: map<Text, Id>,
                                        aliases: map<Ident, (Text, Id)>, n: nat)
    requires n < |players| && StoredUpTo(fold, players, ids, aliases, n, |players[n].aliases|)
    ensures StoredUpTo(fold, players, ids, aliases, n + 1, 0)
  {
    hide IdentOf, Stored;
    var k := |players[n].aliases|;
    forall m, j
      ensures Before(players, m, j, n + 1, 0) <==> Before(players, m, j, n, k)
    {
    }
    hide Before;
  }

  lemma {:induction false} AllStored(fold: Text -> Text, players: Catalog, ids: map<Text, Id>, aliases: map<Ident, (Text, Id)>)
    requires StoredUpTo(fold, players, ids, aliases, |players|, 0)
    ensures AliasTable(fold, players, ids, aliases)
  {
    hide IdentOf;
    forall n, a | 0 <= n < |players| && a in players[n].aliases
      ensures Stored(fold, players[n], ids, aliases, a)
    {
      var j :| 0 <= j < |players[n].aliases| && players[n].aliases[j] == a;
      assert Before(players, n, j, |players|, 0);
    }
    forall id | id in aliases
      ensures exists n, a :: 0 <= n < |players| && a in players[n].aliases && IdentOf(fold, a) == id
    {
      var m, j :| Before(players, m, j, |players|, 0) && IdentOf(fold, players[m].aliases[j]) == id;
      assert players[m].aliases[j] in players[m].aliases;
    }
  }

  ghost predicate PlayersFind(players: Catalog, ids: map<Text, Id>) {
    forall n :: 0 <= n < |players| ==> players[n].key in ids
  }

  method StoreAliases(fold: Text -> Text, players: Catalog, ids: map<Text, Id>) returns (aliases: map<Ident, (Text, Id)>)
    requires Normal(fold, players) && PlayersFind(players, ids)
    ensures AliasTable(fold, players, ids, aliases)
  {
    aliases := map[];
    assert StoredUpTo(fold, players, ids, aliases, 0, 0);
    assert forall n :: 0 <= n < |players| ==> players[n].key in ids;
    hide *;
    for n := 0 to |players|
      invariant StoredUpTo(fold, players, ids, aliases, n, 0)
    {
      for k := 0 to |players[n].aliases|
        invariant StoredUpTo(fold, players, ids, aliases, n, k)
      {
        var a := players[n].aliases[k];
        StoreOneMore(fold, players, ids, aliases, n, k);
        aliases := aliases[IdentOf(fold, a) := (a.name, ids[players[n].key])];
      }
      PlayerStored(fold, players, ids, aliases, n);
    }
    AllStored(fold, players, ids, aliases);
  }

  /** One INSERT per override: the participation is found by its replay and owner. */
  method StoreOverrides(overrides: seq<Override>, parts: Participations, ids: map<Text, Id>) returns (table: map<Id, Id>)
    requires UniqueParts(parts) && OverridesFind(overrides, parts, ids)
    ensures OverrideTable(overrides, parts, ids, table)
  {
    hide Pairs, UniqueParts, Recorded;
    table := map[];
    for n := 0 to |overrides|
      invariant forall i, part :: 0 <= i < n && part in parts && parts[part] == Pairs(overrides)[i] ==>
                  part in table && table[part] == ids[overrides[i].player]
      invariant forall part :: part in table ==> part in parts && parts[part] in Pairs(overrides)
    {
      var part := FindPart(parts, overrides, n);
      assert forall q :: q in parts && parts[q] == Pairs(overrides)[n] ==> q == part;
      table := table[part := ids[overrides[n].player]];
    }
  }

  method FindPart(parts: Participations, overrides: seq<Override>, n: nat) returns (part: Id)
    requires UniqueParts(parts) && n < |overrides| && Recorded(parts, Pairs(overrides)[n])
    ensures part in parts && parts[part] == Pairs(overrides)[n]
    ensures forall q :: q in parts && parts[q] == Pairs(overrides)[n] ==> q == part
  {
    part :| part in parts && parts[part] == (overrides[n].replay, overrides[n].owner);
  }

  ghost predicate KeysFind(rows: seq<LinkRow>, from: map<Text, Id>) {
    forall n :: 0 <= n < |rows| ==> rows[n].0 in from
  }

  /** Both ends of every link have an id. */
  ghost predicate RowsFind(rows: seq<LinkRow>, from: map<Text, Id>, to: map<Text, Id>) {
    KeysFind(rows, from) && forall n, k :: 0 <= n < |rows| && 0 <= k < |rows[n].1| ==> rows[n].1[k] in to
  }

  /** Every override names a known player and a recorded participation. */
  ghost predicate OverridesFind(overrides: seq<Override>, parts: Participations, ids: map<Text, Id>) {
    && (forall i, j :: 0 <= i < j < |overrides| ==> Pairs(overrides)[i] != Pairs(overrides)[j])
    && (forall n :: 0 <= n < |overrides| ==> overrides[n].player in ids && Recorded(parts, Pairs(overrides)[n]))
  }

  /** One executemany per row. */
  method StoreLinks(rows: seq<LinkRow>, from: map<Text, Id>, to: map<Text, Id>) returns (links: Links)
    requires RowsFind(rows, from, to)
    ensures LinkTable(rows, from, to, links)
  {
    links := {};
    for n := 0 to |rows|
      invariant forall p :: p in links <==> exists i :: 0 <= i < n && IsLink(rows[i], from, to, p)
    {
      var id := from[rows[n].0];
      var more := set key | key in rows[n].1 :: (id, to[key]);
      assert forall p :: p in more <==> IsLink(rows[n], from, to, p);
      links := links + more;
    }
  }

  method StoreValues(rows: seq<LinkRow>, from: map<Text, Id>) returns (links: Links)
    requires KeysFind(rows, from)
    ensures ValueTable(rows, from, links)
  {
    links := {};
    for n := 0 to |rows|
      invariant forall p :: p in links <==> exists i :: 0 <= i < n && IsValue(rows[i], from, p)
    {
      var id := from[rows[n].0];
      var more := set k | 0 <= k < |rows[n].1| :: (id, rows[n].1[k]);
      forall p: (Id, int)
        ensures p in more <==> IsValue(rows[n], from, p)
      {
        if IsValue(rows[n], from, p) {
          var k :| 0 <= k < |rows[n].1| && rows[n].1[k] == p.1;
          assert (id, rows[n].1[k]) in more;
        }
      }
      links := links + more;
    }
  }

  // ----- Integrity -----

  ghost predicate LinksResolve(links: Links, from: Section, to: Section) {
    forall p :: p in links ==> p.0 in from && p.1 in to
  }

  /** What `PRAGMA foreign_key_check` looks for. */
  ghost predicate ForeignKeys(t: Tables, parts: Participations) {
    && (forall id :: id in t.aliases ==> t.aliases[id].1 in t.players)
    && (forall part :: part in t.overrides ==> part in parts && t.overrides[part] in t.players)
    && LinksResolve(t.members, t.groups, t.players)
    && LinksResolve(t.ownPlayers, t.scopes, t.players) && LinksResolve(t.ownGroups, t.scopes, t.groups)
    && LinksResolve(t.opponentPlayers, t.scopes, t.players) && LinksResolve(t.opponentGroups, t.scopes, t.groups)
    && (forall p :: p in t.replays ==> p.0 in t.scopes)
  }

  lemma {:induction false} LinksAreResolved(s: Section, froms: seq<Named>, from: map<Text, Id>,
                                            t: Section, targets: seq<Named>, to: map<Text, Id>, rows: seq<LinkRow>, links: Links)
    requires Holds(s, froms, from) && Holds(t, targets, to) && LinkTable(rows, from, to, links)
    requires forall n :: 0 <= n < |rows| ==> Among(froms, |froms|, rows[n].0) && KnownKeys(targets, rows[n].1)
    ensures LinksResolve(links, s, t)
  {
    hide Holds, Ascending, Among;
    forall p | p in links
      ensures p.0 in s && p.1 in t
    {
      var n :| 0 <= n < |rows| && IsLink(rows[n], from, to, p);
      var key :| key in rows[n].1 && key in to && p.1 == to[key];
      var k :| 0 <= k < |rows[n].1| && rows[n].1[k] == key;
      HoldsFinds(s, froms, from, rows[n].0);
      HoldsFinds(t, targets, to, key);
    }
  }

  lemma {:induction false} RowsAreAmong(rows: seq<Named>)
    ensures forall n :: 0 <= n < |rows| ==> Among(rows, |rows|, rows[n].key)
  {
  }

  lemma {:induction false} AliasesResolve(fold: Text -> Text, players: Catalog, s: Section, ids: map<Text, Id>, aliases: map<Ident, (Text, Id)>)
    requires Holds(s, PlayerRows(players), ids) && AliasTable(fold, players, ids, aliases)
    ensures forall id :: id in aliases ==> aliases[id].1 in s
  {
    hide Holds, AliasTable;
    forall id | id in aliases
      ensures aliases[id].1 in s
    {
      var m, k := AliasOrigin(fold, players, ids, aliases, id);
      HoldsRow(s, PlayerRows(players), ids, m);
    }
  }

  lemma {:induction false} OverridesResolve(c: Config, s: Section, parts: Participations, ids: map<Text, Id>, table: map<Id, Id>)
    requires Holds(s, PlayerRows(c.players), ids) && OverrideTable(c.overrides, parts, ids, table) && NormalOverrides(c, parts)
    ensures forall part :: part in table ==> part in parts && table[part] in s
  {
    hide Holds, IdentBefore, Recorded, Among;
    forall part | part in table
      ensures part in parts && table[part] in s
    {
      var n :| 0 <= n < |c.overrides| && Pairs(c.overrides)[n] == parts[part];
      HoldsFinds(s, PlayerRows(c.players), ids, c.overrides[n].player);
    }
  }

  lemma {:induction false} MembersResolve(fold: Text -> Text, c: Config, parts: Participations, t: Tables,
                                          pids: map<Text, Id>, gids: map<Text, Id>, sids: map<Text, Id>)
    requires NormalConfig(fold, c, parts) && Loaded(fold, c, parts, t, pids, gids, sids)
    ensures LinksResolve(t.members, t.groups, t.players)
  {
    hide Holds, LinkTable, ValueTable, KnownKeys, Among, Normal, NormalOverrides, NormalSelector, AliasTable, OverrideTable,
      Ascending, LinksResolve;
    RowsAreAmong(GroupRows(c.groups));
    forall n | 0 <= n < |MemberRows(c.groups)|
      ensures Among(GroupRows(c.groups), |c.groups|, MemberRows(c.groups)[n].0)
      ensures KnownKeys(PlayerRows(c.players), MemberRows(c.groups)[n].1)
    {
      assert GroupRows(c.groups)[n].key == c.groups[n].key;
    }
    LinksAreResolved(t.groups, GroupRows(c.groups), gids, t.players, PlayerRows(c.players), pids, MemberRows(c.groups), t.members);
  }

  lemma {:induction false} ColumnResolves(scopes: seq<Scope>, column: Column, s: Section, sids: map<Text, Id>,
                                          t: Section, targets: seq<Named>, to: map<Text, Id>, links: Links)
    requires Holds(s, ScopeRows(scopes), sids) && Holds(t, targets, to) && LinkTable(ColumnRows(scopes, column), sids, to, links)
    requires forall n :: 0 <= n < |scopes| ==> KnownKeys(targets, Cell(scopes[n], column))
    ensures LinksResolve(links, s, t)
  {
    hide Holds, LinkTable, KnownKeys, Among, Cell, LinksResolve;
    RowsAreAmong(ScopeRows(scopes));
    forall n | 0 <= n < |ColumnRows(scopes, column)|
      ensures Among(ScopeRows(scopes), |scopes|, ColumnRows(scopes, column)[n].0)
      ensures KnownKeys(targets, ColumnRows(scopes, column)[n].1)
    {
      assert ScopeRows(scopes)[n].key == scopes[n].key;
    }
    LinksAreResolved(s, ScopeRows(scopes), sids, t, targets, to, ColumnRows(scopes, column), links);
  }

  lemma {:induction false} ReplaysResolve(scopes: seq<Scope>, s: Section, sids: map<Text, Id>, links: Links)
    requires Holds(s, ScopeRows(scopes), sids) && ValueTable(ColumnRows(scopes, Replays), sids, links)
    ensures forall p :: p in links ==> p.0 in s
  {
    hide Holds;
    forall p | p in links
      ensures p.0 in s
    {
      var n :| 0 <= n < |ColumnRows(scopes, Replays)| && IsValue(ColumnRows(scopes, Replays)[n], sids, p);
      HoldsRow(s, ScopeRows(scopes), sids, n);
    }
  }

  /** The closing integrity check never fails. */
  lemma {:induction false} LoadedKeepsForeignKeys(fold: Text -> Text, c: Config, parts: Participations, t: Tables,
                                                  pids: map<Text, Id>, gids: map<Text, Id>, sids: map<Text, Id>)
    requires NormalConfig(fold, c, parts) && Loaded(fold, c, parts, t, pids, gids, sids)
    ensures ForeignKeys(t, parts)
  {
    MembersResolve(fold, c, parts, t, pids, gids, sids);
    ScopeTables(fold, c, parts, t, pids, gids, sids);
    assert AliasTable(fold, c.players, pids, t.aliases) && OverrideTable(c.overrides, parts, pids, t.overrides);
    assert NormalOverrides(c, parts);
    forall n | 0 <= n < |c.scopes|
      ensures KnownKeys(PlayerRows(c.players), Cell(c.scopes[n], OwnPlayers))
      ensures KnownKeys(GroupRows(c.groups), Cell(c.scopes[n], OwnGroups))
      ensures KnownKeys(PlayerRows(c.players), Cell(c.scopes[n], OpponentPlayers))
      ensures KnownKeys(GroupRows(c.groups), Cell(c.scopes[n], OpponentGroups))
    {
      CellsAreKnown(fold, c, parts, n);
    }
    hide NormalConfig, Loaded, Holds, LinkTable, ValueTable, AliasTable, OverrideTable, NormalOverrides, LinksResolve, KnownKeys, Cell;
    AliasesResolve(fold, c.players, t.players, pids, t.aliases);
    OverridesResolve(c, t.players, parts, pids, t.overrides);
    ColumnResolves(c.scopes, OwnPlayers, t.scopes, sids, t.players, PlayerRows(c.players), pids, t.ownPlayers);
    ColumnResolves(c.scopes, OwnGroups, t.scopes, sids, t.groups, GroupRows(c.groups), gids, t.ownGroups);
    ColumnResolves(c.scopes, OpponentPlayers, t.scopes, sids, t.players, PlayerRows(c.players), pids, t.opponentPlayers);
    ColumnResolves(c.scopes, OpponentGroups, t.scopes, sids, t.groups, GroupRows(c.groups), gids, t.opponentGroups);
    ReplaysResolve(c.scopes, t.scopes, sids, t.replays);
  }

  // ----- The store -----

  lemma {:induction false} KnownAreHeld(s: Section, rows: seq<Named>, ids: map<Text, Id>, keys: seq<Text>)
    requires Holds(s, rows, ids) && KnownKeys(rows, keys)
    ensures forall key :: key in keys ==> key in ids
  {
    hide Holds, Ascending;
    forall key | key in keys
      ensures key in ids
    {
      var k :| 0 <= k < |keys| && keys[k] == key;
      HoldsFinds(s, rows, ids, key);
    }
  }

  lemma {:induction false} PlayersAreFound(c: Config, s: Section, pids: map<Text, Id>)
    requires Holds(s, PlayerRows(c.players), pids)
    ensures PlayersFind(c.players, pids)
  {
    hide Holds, Finds;
    forall n | 0 <= n < |c.players|
      ensures c.players[n].key in pids
    {
      HoldsRow(s, PlayerRows(c.players), pids, n);
      FoundIsHeld(s, pids, c.players[n].key);
    }
  }

  lemma {:induction false} OverridesAreFound(c: Config, parts: Participations, s: Section, pids: map<Text, Id>)
    requires NormalOverrides(c, parts) && Holds(s, PlayerRows(c.players), pids)
    ensures OverridesFind(c.overrides, parts, pids)
  {
    hide Holds, Finds, Recorded, Among, IdentBefore;
    forall n | 0 <= n < |c.overrides|
      ensures c.overrides[n].player in pids
    {
      HoldsFinds(s, PlayerRows(c.players), pids, c.overrides[n].player);
      FoundIsHeld(s, pids, c.overrides[n].player);
    }
  }

  lemma {:induction false} MembersAreFound(fold: Text -> Text, c: Config, parts: Participations,
                                           s: Section, pids: map<Text, Id>, t: Section, gids: map<Text, Id>)
    requires NormalConfig(fold, c, parts) && Holds(s, PlayerRows(c.players), pids) && Holds(t, GroupRows(c.groups), gids)
    ensures RowsFind(MemberRows(c.groups), gids, pids)
  {
    hide Holds, Finds, KnownKeys, Ascending, Normal, NormalOverrides, NormalSelector;
    forall n | 0 <= n < |c.groups|
      ensures c.groups[n].key in gids && forall key :: key in c.groups[n].players ==> key in pids
    {
      HoldsRow(t, GroupRows(c.groups), gids, n);
      FoundIsHeld(t, gids, c.groups[n].key);
      KnownAreHeld(s, PlayerRows(c.players), pids, c.groups[n].players);
    }
  }

  lemma {:induction false} ScopesAreFound(scopes: seq<Scope>, column: Column, u: Section, sids: map<Text, Id>)
    requires Holds(u, ScopeRows(scopes), sids)
    ensures KeysFind(ColumnRows(scopes, column), sids)
  {
    hide Holds, Finds;
    forall n | 0 <= n < |scopes|
      ensures scopes[n].key in sids
    {
      HoldsRow(u, ScopeRows(scopes), sids, n);
      FoundIsHeld(u, sids, scopes[n].key);
    }
  }

  lemma {:induction false} ColumnIsFound(scopes: seq<Scope>, column: Column, u: Section, sids: map<Text, Id>,
                                         s: Section, targets: seq<Named>, to: map<Text, Id>)
    requires Holds(u, ScopeRows(scopes), sids) && Holds(s, targets, to)
    requires forall n :: 0 <= n < |scopes| ==> KnownKeys(targets, Cell(scopes[n], column))
    ensures RowsFind(ColumnRows(scopes, column), sids, to)
  {
    hide Holds, KnownKeys, Cell;
    ScopesAreFound(scopes, column, u, sids);
    forall n | 0 <= n < |scopes|
      ensures forall key :: key in Cell(scopes[n], column) ==> key in to
    {
      KnownAreHeld(s, targets, to, Cell(scopes[n], column));
    }
  }

  /** Everything the inserts look up is there. */
  lemma {:induction false} InsertsFind(fold: Text -> Text, c: Config, parts: Participations,
                                       s: Section, pids: map<Text, Id>, t: Section, gids: map<Text, Id>, u: Section, sids: map<Text, Id>)
    requires NormalConfig(fold, c, parts)
    requires Holds(s, PlayerRows(c.players), pids) && Holds(t, GroupRows(c.groups), gids) && Holds(u, ScopeRows(c.scopes), sids)
    ensures PlayersFind(c.players, pids) && OverridesFind(c.overrides, parts, pids)
    ensures RowsFind(MemberRows(c.groups), gids, pids) && KeysFind(ColumnRows(c.scopes, Replays), sids)
    ensures RowsFind(ColumnRows(c.scopes, OwnPlayers), sids, pids) && RowsFind(ColumnRows(c.scopes, OwnGroups), sids, gids)
    ensures RowsFind(ColumnRows(c.scopes, OpponentPlayers), sids, pids)
    ensures RowsFind(ColumnRows(c.scopes, OpponentGroups), sids, gids)
  {
    assert NormalOverrides(c, parts);
    hide *;
    forall n | 0 <= n < |c.scopes|
      ensures KnownKeys(PlayerRows(c.players), Cell(c.scopes[n], OwnPlayers))
      ensures KnownKeys(GroupRows(c.groups), Cell(c.scopes[n], OwnGroups))
      ensures KnownKeys(PlayerRows(c.players), Cell(c.scopes[n], OpponentPlayers))
      ensures KnownKeys(GroupRows(c.groups), Cell(c.scopes[n], OpponentGroups))
    {
      CellsAreKnown(fold, c, parts, n);
    }
    PlayersAreFound(c, s, pids);
    OverridesAreFound(c, parts, s, pids);
    MembersAreFound(fold, c, parts, s, pids, t, gids);
    ScopesAreFound(c.scopes, Replays, u, sids);
    ColumnIsFound(c.scopes, OwnPlayers, u, sids, s, PlayerRows(c.players), pids);
    ColumnIsFound(c.scopes, OwnGroups, u, sids, t, GroupRows(c.groups), gids);
    ColumnIsFound(c.scopes, OpponentPlayers, u, sids, s, PlayerRows(c.players), pids);
    ColumnIsFound(c.scopes, OpponentGroups, u, sids, t, GroupRows(c.groups), gids);
  }

  lemma {:induction false} FoundIsHeld(s: Section, ids: map<Text, Id>, key: Text)
    requires Finds(s, ids, key)
    ensures key in ids
  {
  }

  lemma {:induction false} NormalRows(fold: Text -> Text, c: Config, parts: Participations)
    requires NormalConfig(fold, c, parts)
    ensures Normal(fold, c.players)
    ensures DistinctRows(PlayerRows(c.players)) && DistinctRows(GroupRows(c.groups)) && DistinctRows(ScopeRows(c.scopes))
  {
    hide Normal, KnownKeys, NormalSelector, Ascending, Among, Recorded, DistinctRows, PlayerRows, GroupRows, ScopeRows, Keys;
    AscendingAreDistinct(PlayerRows(c.players));
    AscendingAreDistinct(GroupRows(c.groups));
    AscendingAreDistinct(ScopeRows(c.scopes));
  }

  lemma {:induction false} SameIds(s: Section)
    requires UniqueKeys(s)
    ensures KeepsIds(s, s)
  {
  }

  class IdentityStore {
    const fold: Text -> Text
    const parts: Participations

    var players: Section
    var groups: Section
    var scopes: Section
    var aliases: map<Ident, (Text, Id)>
    var overrides: map<Id, Id>
    var members: Links
    var ownPlayers: Links
    var ownGroups: Links
    var opponentPlayers: Links
    var opponentGroups: Links
    var replays: Links

    function View(): Tables
      reads this
    {
      Tables(players, groups, scopes, aliases, overrides, members, ownPlayers, ownGroups, opponentPlayers, opponentGroups, replays)
    }

    /** The UNIQUE constraints of the schema. */
    ghost predicate Valid()
      reads this
    {
      UniqueKeys(players) && UniqueKeys(groups) && UniqueKeys(scopes) && UniqueParts(parts)
    }

    constructor (fold: Text -> Text, parts: Participations)
      requires UniqueParts(parts)
      ensures Valid() && ForeignKeys(View(), parts) && this.fold == fold && this.parts == parts
    {
      this.fold, this.parts := fold, parts;
      players, groups, scopes, aliases, overrides := map[], map[], map[], map[], map[];
      members, ownPlayers, ownGroups, opponentPlayers, opponentGroups, replays := {}, {}, {}, {}, {}, {};
    }

    method ExportCatalog() returns (c: Config)
      requires Valid()
      ensures c == Export(View(), parts)
    {
      hide PlayersAt, GroupsAt, ScopesAt, OverridesAt, UniqueKeys, UniqueParts, AllHaveKey, AllJoin, KeySet, OverridePairs;
      var p := ExportPlayers(View());
      var o := ExportOverrides(View(), parts);
      var g := ExportGroups(View());
      var s := ExportScopes(View());
      c := Config(p, o, g, s);
    }

    lemma {:induction false} ValidIs()
      ensures Valid() <==> UniqueKeys(players) && UniqueKeys(groups) && UniqueKeys(scopes) && UniqueParts(parts)
    {
    }

    lemma {:induction false} LoadedIs(c: Config, pids: map<Text, Id>, gids: map<Text, Id>, sids: map<Text, Id>)
      requires Holds(players, PlayerRows(c.players), pids) && Holds(groups, GroupRows(c.groups), gids)
      requires Holds(scopes, ScopeRows(c.scopes), sids)
      requires AliasTable(fold, c.players, pids, aliases) && OverrideTable(c.overrides, parts, pids, overrides)
      requires LinkTable(MemberRows(c.groups), gids, pids, members)
      requires LinkTable(ColumnRows(c.scopes, OwnPlayers), sids, pids, ownPlayers)
      requires LinkTable(ColumnRows(c.scopes, OwnGroups), sids, gids, ownGroups)
      requires LinkTable(ColumnRows(c.scopes, OpponentPlayers), sids, pids, opponentPlayers)
      requires LinkTable(ColumnRows(c.scopes, OpponentGroups), sids, gids, opponentGroups)
      requires ValueTable(ColumnRows(c.scopes, Replays), sids, replays)
      ensures Loaded(fold, c, parts, View(), pids, gids, sids)
      ensures UniqueKeys(players) && UniqueKeys(groups) && UniqueKeys(scopes)
    {
      hide AliasTable, OverrideTable, LinkTable, ValueTable, UniqueKeys;
    }

    /** The inserts into the tables that refer to the sections, which were emptied before. */
    method ReplaceChildren(c: Config, pids: map<Text, Id>, gids: map<Text, Id>, sids: map<Text, Id>)
      requires NormalConfig(fold, c, parts) && UniqueParts(parts)
      requires Holds(players, PlayerRows(c.players), pids) && Holds(groups, GroupRows(c.groups), gids)
      requires Holds(scopes, ScopeRows(c.scopes), sids)
      modifies this`aliases, this`overrides, this`members, this`ownPlayers, this`ownGroups, this`opponentPlayers,
        this`opponentGroups, this`replays
      ensures Loaded(fold, c, parts, View(), pids, gids, sids)
      ensures UniqueKeys(players) && UniqueKeys(groups) && UniqueKeys(scopes)
    {
      hide *;
      NormalRows(fold, c, parts);
      InsertsFind(fold, c, parts, players, pids, groups, gids, scopes, sids);
      aliases := StoreAliases(fold, c.players, pids);
      overrides := StoreOverrides(c.overrides, parts, pids);
      members := StoreLinks(MemberRows(c.groups), gids, pids);
      ownPlayers := StoreLinks(ColumnRows(c.scopes, OwnPlayers), sids, pids);
      ownGroups := StoreLinks(ColumnRows(c.scopes, OwnGroups), sids, gids);
      opponentPlayers := StoreLinks(ColumnRows(c.scopes, OpponentPlayers), sids, pids);
      opponentGroups := StoreLinks(ColumnRows(c.scopes, OpponentGroups), sids, gids);
      replays := StoreValues(ColumnRows(c.scopes, Replays), sids);
      LoadedIs(c, pids, gids, sids);
    }

    /** Applies a validated configuration: afterwards the export query returns it, keys that
        stay keep their ids, and a configuration that is already in place changes nothing. */
    method ApplyCatalog(c: Config) returns (applied: bool)
      requires Valid() && NormalConfig(fold, c, parts)
      modifies this
      ensures Valid() && Export(View(), parts) == c
      ensures applied == (Export(old(View()), parts) != c)
      ensures if applied then ForeignKeys(View(), parts) else View() == old(View())
      ensures KeepsIds(old(players), players) && KeepsIds(old(groups), groups) && KeepsIds(old(scopes), scopes)
    {
      hide *;
      ValidIs();
      var current := ExportCatalog();
      if current == c {
        SameIds(players);
        SameIds(groups);
        SameIds(scopes);
        return false;
      }
      NormalRows(fold, c, parts);
      var pids, gids, sids;
      players, pids := UpdateSection(players, PlayerRows(c.players));
      groups, gids := UpdateSection(groups, GroupRows(c.groups));
      scopes, sids := UpdateSection(scopes, ScopeRows(c.scopes));
      ReplaceChildren(c, pids, gids, sids);
      ValidIs();
      LoadedExports(fold, c, parts, View(), pids, gids, sids);
      LoadedKeepsForeignKeys(fold, c, parts, View(), pids, gids, sids);
      applied := true;
    }
  }

  // ----- The guarantees in terms of the rows alone -----

  /** Every id that a row refers to has its row. */
  lemma {:induction false} ReferencesOnRows(t: Tables, parts: Participations)
    requires ForeignKeys(t, parts)
    ensures forall id :: id in t.aliases ==> t.aliases[id].1 in t.players
    ensures forall part :: part in t.overrides ==> part in parts && t.overrides[part] in t.players
    ensures forall p :: p in t.members ==> p.0 in t.groups && p.1 in t.players
    ensures forall p :: p in t.ownPlayers + t.opponentPlayers ==> p.0 in t.scopes && p.1 in t.players
    ensures forall p :: p in t.ownGroups + t.opponentGroups ==> p.0 in t.scopes && p.1 in t.groups
    ensures forall p :: p in t.replays ==> p.0 in t.scopes
  {
  }

  /** A key that stays has one id, before and after. */
  lemma {:induction false} IdsOnRows(s: Section, t: Section, i: Id, j: Id)
    requires KeepsIds(s, t) && i in s && j in t && s[i].key == t[j].key
    ensures i == j
  {
  }
}
