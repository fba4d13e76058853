/** What applying a normal configuration leaves in the tables, and the proof that the export
    query reads exactly that configuration back. */
module CatalogRoundTrip {
  import opened AliasCatalog
  import opened CatalogSections
  import opened CatalogTables
  import opened Sorting

  // ----- Ids -----

  /** The id under which the section holds the key. */
  ghost predicate Finds(s: Section, ids: map<Text, Id>, key: Text) {
    key in ids && ids[key] in s && s[ids[key]].key == key
  }

  lemma {:induction false} HoldsFinds(s: Section, rows: seq<Named>, ids: map<Text, Id>, key: Text)
    requires Holds(s, rows, ids) && Among(rows, |rows|, key)
    ensures Finds(s, ids, key) && HasKey(s, key) && IdOf(s, key) == ids[key]
  {
    var n :| 0 <= n < |rows| && rows[n].key == key;
    var i := ids[key];
    assert i in s && s[i] == rows[n] && s[i].key == key;
  }

  lemma {:induction false} HoldsRow(s: Section, rows: seq<Named>, ids: map<Text, Id>, n: nat)
    requires Holds(s, rows, ids) && n < |rows|
    ensures Finds(s, ids, rows[n].key) && HasKey(s, rows[n].key)
    ensures IdOf(s, rows[n].key) == ids[rows[n].key] && s[ids[rows[n].key]] == rows[n]
  {
    assert Among(rows, |rows|, rows[n].key);
    HoldsFinds(s, rows, ids, rows[n].key);
  }

  /** The keys come back in order. */
  lemma {:induction false} KeysBack(s: Section, rows: seq<Named>, ids: map<Text, Id>)
    requires Holds(s, rows, ids) && Ascending(Keys(rows))
    ensures SortedKeys(KeySet(s)) == Keys(rows)
  {
    hide UniqueKeys, Ascending;
    forall key
      ensures key in Keys(rows) <==> key in KeySet(s)
    {
      if key in Keys(rows) {
        var n :| 0 <= n < |rows| && Keys(rows)[n] == key;
        var i := ids[rows[n].key];
        assert i in s && s[i].key == key;
        assert key in KeySet(s);
      }
      if key in KeySet(s) {
        var i :| i in s && s[i].key == key;
        var n :| 0 <= n < |rows| && rows[n].key == s[i].key;
        assert Keys(rows)[n] == key;
      }
    }
    SortedKeysIs(KeySet(s), Keys(rows));
  }

  // ----- Aliases -----

  ghost predicate AliasTable(fold: Text -> Text, players: Catalog, ids: map<Text, Id>, aliases: map<Ident, (Text, Id)>) {
    && (forall n, a :: 0 <= n < |players| && a in players[n].aliases ==>
          && players[n].key in ids && IdentOf(fold, a) in aliases
          && aliases[IdentOf(fold, a)] == (a.name, ids[players[n].key]))
    && (forall id :: id in aliases ==> exists n, a :: 0 <= n < |players| && a in players[n].aliases && IdentOf(fold, a) == id)
  }

  ghost function Idents(fold: Text -> Text, s: seq<Alias>): (ids: seq<Ident>)
    ensures |ids| == |s| && forall i :: 0 <= i < |s| ==> ids[i] == IdentOf(fold, s[i])
  {
    if s == [] then [] else [IdentOf(fold, s[0])] + Idents(fold, s[1..])
  }

  lemma {:induction false} NamesBack(fold: Text -> Text, t: Tables, s: seq<Alias>)
    requires forall a :: a in s ==> IdentOf(fold, a) in t.aliases && t.aliases[IdentOf(fold, a)].0 == a.name
    ensures (forall id :: id in Idents(fold, s) ==> id in t.aliases) && Names(t, Idents(fold, s)) == s
  {
    if s != [] {
      assert s[0] in s;
      NamesBack(fold, t, s[1..]);
      assert Idents(fold, s)[1..] == Idents(fold, s[1..]);
    }
  }

  lemma {:induction false} IdentsAreListed(fold: Text -> Text, s: seq<Alias>, ids: set<Ident>)
    requires SortedBy(AliasOrder(fold), s) && Pairwise(OtherAliases(fold), s)
    requires forall id :: id in ids <==> id in Idents(fold, s)
    ensures Listing(IdentBefore, ids) == Idents(fold, s)
  {
    var q := Idents(fold, s);
    forall i, j | 0 <= i < j < |q|
      ensures IdentBefore(q[i], q[j]) && q[i] != q[j]
    {
      assert AliasOrder(fold)(s[i], s[j]) && OtherAliases(fold)(s[i], s[j]);
    }
    hide Idents, AliasOrder, OtherAliases, Pairwise;
    ListingIs(IdentBefore, ids, q);
  }

  lemma {:induction false} AliasOrigin(fold: Text -> Text, players: Catalog, ids: map<Text, Id>, aliases: map<Ident, (Text, Id)>, id: Ident)
    returns (m: nat, k: nat)
    requires AliasTable(fold, players, ids, aliases) && id in aliases
    ensures m < |players| && k < |players[m].aliases| && IdentOf(fold, players[m].aliases[k]) == id
    ensures players[m].key in ids && aliases[id].1 == ids[players[m].key]
  {
    hide IdentOf;
    var n, a :| 0 <= n < |players| && a in players[n].aliases && IdentOf(fold, a) == id;
    m := n;
    k :| 0 <= k < |players[m].aliases| && players[m].aliases[k] == a;
  }

  lemma {:induction false} SameIdSamePlace(fold: Text -> Text, s: Section, players: Catalog, ids: map<Text, Id>, m: nat, n: nat)
    requires Normal(fold, players) && m < |players| && n < |players| && Holds(s, PlayerRows(players), ids)
    requires players[m].key in ids && players[n].key in ids && ids[players[m].key] == ids[players[n].key]
    ensures m == n
  {
    HoldsRow(s, PlayerRows(players), ids, m);
    HoldsRow(s, PlayerRows(players), ids, n);
    hide Normal, Holds, IdOf, HasKey;
    SameKeySamePlace(fold, players, m, n);
  }

  lemma {:induction false} OwnAliases(fold: Text -> Text, t: Tables, players: Catalog, ids: map<Text, Id>, n: nat, id: Ident)
    requires Normal(fold, players) && n < |players| && players[n].key in ids
    requires Holds(t.players, PlayerRows(players), ids) && AliasTable(fold, players, ids, t.aliases)
    ensures id in t.aliases && t.aliases[id].1 == ids[players[n].key] <==> id in Idents(fold, players[n].aliases)
  {
    hide *;
    if id in t.aliases && t.aliases[id].1 == ids[players[n].key] {
      var m, k := AliasOrigin(fold, players, ids, t.aliases, id);
      SameIdSamePlace(fold, t.players, players, ids, m, n);
      ListsIdent(fold, players[n].aliases, k);
    }
    if id in Idents(fold, players[n].aliases) {
      StoresIdent(fold, players, ids, t.aliases, n, id);
    }
  }

  lemma {:induction false} ListsIdent(fold: Text -> Text, s: seq<Alias>, k: nat)
    requires k < |s|
    ensures IdentOf(fold, s[k]) in Idents(fold, s)
  {
    assert Idents(fold, s)[k] == IdentOf(fold, s[k]);
  }

  lemma {:induction false} StoresIdent(fold: Text -> Text, players: Catalog, ids: map<Text, Id>,
                                       aliases: map<Ident, (Text, Id)>, n: nat, id: Ident)
    requires AliasTable(fold, players, ids, aliases) && n < |players| && id in Idents(fold, players[n].aliases)
    ensures players[n].key in ids && id in aliases && aliases[id].1 == ids[players[n].key]
  {
    var a := AliasOf(fold, players[n].aliases, id);
    hide IdentOf, Idents;
  }

  lemma {:induction false} AliasOf(fold: Text -> Text, s: seq<Alias>, id: Ident) returns (a: Alias)
    requires id in Idents(fold, s)
    ensures a in s && IdentOf(fold, a) == id
  {
    var k :| 0 <= k < |s| && Idents(fold, s)[k] == id;
    a := s[k];
  }

  /** The aliases of one player come back in order. */
  lemma {:induction false} AliasesBack(fold: Text -> Text, t: Tables, players: Catalog, ids: map<Text, Id>, n: nat)
    requires Normal(fold, players) && n < |players|
    requires Holds(t.players, PlayerRows(players), ids) && AliasTable(fold, players, ids, t.aliases)
    ensures players[n].key in ids && AliasesOf(t, ids[players[n].key]) == players[n].aliases
  {
    var s := players[n].aliases;
    HoldsRow(t.players, PlayerRows(players), ids, n);
    assert SortedBy(AliasOrder(fold), s) && Pairwise(OtherAliases(fold), s);
    assert forall a :: a in s ==> IdentOf(fold, a) in t.aliases && t.aliases[IdentOf(fold, a)].0 == a.name;
    hide Normal, Holds, AliasTable, AliasOrder, OtherAliases, Pairwise, SortedBy, IdentOf, Idents, Names;
    var own := set id | id in t.aliases && t.aliases[id].1 == ids[players[n].key];
    forall id
      ensures id in own <==> id in Idents(fold, s)
    {
      OwnAliases(fold, t, players, ids, n, id);
    }
    IdentsAreListed(fold, s, own);
    NamesBack(fold, t, s);
  }

  lemma {:induction false} SameKeySamePlace(fold: Text -> Text, players: Catalog, m: nat, n: nat)
    requires Normal(fold, players) && m < |players| && n < |players| && players[m].key == players[n].key
    ensures m == n
  {
    DistinctPlayers(fold, players);
    hide Normal;
    assert players[m] in players && players[n] in players;
  }

  // ----- Links -----

  /** One row's key with the keys it links to. */
  type LinkRow = (Text, seq<Text>)

  ghost predicate IsLink(row: LinkRow, from: map<Text, Id>, to: map<Text, Id>, p: (Id, int)) {
    row.0 in from && p.0 == from[row.0] && exists key :: key in row.1 && key in to && p.1 == to[key]
  }

  ghost predicate LinkTable(rows: seq<LinkRow>, from: map<Text, Id>, to: map<Text, Id>, links: Links) {
    forall p :: p in links <==> exists n :: 0 <= n < |rows| && IsLink(rows[n], from, to, p)
  }

  ghost predicate DistinctLinkRows(rows: seq<LinkRow>) { forall i, j :: 0 <= i < j < |rows| ==> rows[i].0 != rows[j].0 }

  /** The keys that one row links to come back in order. */
  lemma {:induction false} LinkedBack(s: Section, from: map<Text, Id>, t: Section, targets: seq<Named>, to: map<Text, Id>,
                   rows: seq<LinkRow>, links: Links, n: nat)
    requires LinkTable(rows, from, to, links) && n < |rows| && DistinctLinkRows(rows)
    requires forall i :: 0 <= i < |rows| ==> Finds(s, from, rows[i].0)
    requires Holds(t, targets, to) && KnownKeys(targets, rows[n].1)
    ensures rows[n].0 in from && Linked(links, from[rows[n].0], t) == rows[n].1
  {
    var keys, id := rows[n].1, from[rows[n].0];
    var back := set p | p in links && p.0 == id && p.1 in t :: t[p.1].key;
    forall key | key in keys
      ensures Finds(t, to, key)
    {
      var k :| 0 <= k < |keys| && keys[k] == key;
      HoldsFinds(t, targets, to, key);
    }
    assert Ascending(keys);
    hide Holds, KnownKeys, Ascending;
    forall key
      ensures key in back <==> key in keys
    {
      if key in back {
        var p :| p in links && p.0 == id && p.1 in t && t[p.1].key == key;
        var m :| 0 <= m < |rows| && IsLink(rows[m], from, to, p);
        assert rows[m].0 == rows[n].0;
      }
      if key in keys {
        var p := (id, to[key]);
        assert IsLink(rows[n], from, to, p);
        assert p in links && p.1 in t && t[p.1].key == key;
      }
    }
    SortedKeysIs(back, keys);
  }

  ghost predicate ValueTable(rows: seq<LinkRow>, from: map<Text, Id>, links: Links) {
    forall p :: p in links <==> exists n :: 0 <= n < |rows| && IsValue(rows[n], from, p)
  }

  ghost predicate IsValue(row: LinkRow, from: map<Text, Id>, p: (Id, int)) {
    row.0 in from && p.0 == from[row.0] && p.1 in row.1
  }

  lemma {:induction false} ValuesBack(s: Section, from: map<Text, Id>, rows: seq<LinkRow>, links: Links, n: nat)
    requires ValueTable(rows, from, links) && n < |rows| && DistinctLinkRows(rows) && Ascending(rows[n].1)
    requires forall i :: 0 <= i < |rows| ==> Finds(s, from, rows[i].0)
    ensures rows[n].0 in from && Values(links, from[rows[n].0]) == rows[n].1
  {
    var keys, id := rows[n].1, from[rows[n].0];
    var back := set p | p in links && p.0 == id :: p.1;
    hide Ascending;
    forall key
      ensures key in back <==> key in keys
    {
      if key in back {
        var p :| p in links && p.0 == id && p.1 == key;
        var m :| 0 <= m < |rows| && IsValue(rows[m], from, p);
        assert rows[m].0 == rows[n].0;
      }
      if key in keys {
        assert IsValue(rows[n], from, (id, key));
        assert (id, key) in links;
      }
    }
    SortedKeysIs(back, keys);
  }

  // ----- Overrides -----

  ghost predicate OverrideTable(overrides: seq<Override>, parts: Participations, ids: map<Text, Id>, table: map<Id, Id>) {
    && (forall n, part :: 0 <= n < |overrides| && part in parts && parts[part] == Pairs(overrides)[n] ==>
          overrides[n].player in ids && part in table && table[part] == ids[overrides[n].player])
    && (forall part :: part in table ==> part in parts && parts[part] in Pairs(overrides))
  }

  lemma {:induction false} OverrideBack(s: Section, rows: seq<Named>, t: Tables, parts: Participations, ids: map<Text, Id>,
                     overrides: seq<Override>, n: nat)
    requires t.players == s && Holds(s, rows, ids) && OverrideTable(overrides, parts, ids, t.overrides)
    requires n < |overrides| && Among(rows, |rows|, overrides[n].player)
    requires Recorded(parts, Pairs(overrides)[n])
    ensures Joins(t, parts, Pairs(overrides)[n]) && OverrideAt(t, parts, Pairs(overrides)[n]) == overrides[n]
  {
    HoldsFinds(s, rows, ids, overrides[n].player);
    hide Holds, IdOf, HasKey;
    var part :| part in parts && parts[part] == Pairs(overrides)[n];
    assert Overridden(t, parts, part);
  }

  lemma {:induction false} OverridesBack(t: Tables, parts: Participations, overrides: seq<Override>)
    requires forall i :: 0 <= i < |overrides| ==>
               Joins(t, parts, Pairs(overrides)[i]) && OverrideAt(t, parts, Pairs(overrides)[i]) == overrides[i]
    ensures AllJoin(t, parts, Pairs(overrides)) && OverridesAt(t, parts, Pairs(overrides)) == overrides
  {
    hide Joins, OverrideAt;
    if overrides != [] {
      assert Pairs(overrides)[1..] == Pairs(overrides[1..]);
      OverridesBack(t, parts, overrides[1..]);
    }
  }

  lemma {:induction false} OverrideListing(s: Section, rows: seq<Named>, t: Tables, parts: Participations, ids: map<Text, Id>, overrides: seq<Override>)
    requires t.players == s && OverrideTable(overrides, parts, ids, t.overrides)
    requires forall n :: 0 <= n < |overrides| ==> Joins(t, parts, Pairs(overrides)[n])
    requires SortedBy(IdentBefore, Pairs(overrides))
    requires forall i, j :: 0 <= i < j < |overrides| ==> Pairs(overrides)[i] != Pairs(overrides)[j]
    ensures Listing(IdentBefore, OverridePairs(t, parts)) == Pairs(overrides)
  {
    var pairs := Pairs(overrides);
    forall pair
      ensures pair in OverridePairs(t, parts) <==> pair in pairs
    {
      if pair in pairs {
        var n :| 0 <= n < |pairs| && pairs[n] == pair;
        var part :| Overridden(t, parts, part) && parts[part] == pair;
        assert part in t.overrides;
      }
    }
    hide Pairs, OverridePairs, OverrideTable, Joins;
    ListingIs(IdentBefore, OverridePairs(t, parts), pairs);
  }

  // ----- Groups and scopes -----

  function MemberRows(groups: seq<Group>): (rows: seq<LinkRow>)
    ensures |rows| == |groups| && forall i :: 0 <= i < |rows| ==> rows[i] == (groups[i].key, groups[i].players)
  {
    if groups == [] then [] else [(groups[0].key, groups[0].players)] + MemberRows(groups[1..])
  }

  datatype Column = OwnPlayers | OwnGroups | OpponentPlayers | OpponentGroups | Replays

  function Cell(scope: Scope, column: Column): seq<Text> {
    match column
    case OwnPlayers => scope.own.players
    case OwnGroups => scope.own.groups
    case OpponentPlayers => scope.opponent.players
    case OpponentGroups => scope.opponent.groups
    case Replays => scope.replays
  }

  function ColumnRows(scopes: seq<Scope>, column: Column): (rows: seq<LinkRow>)
    ensures |rows| == |scopes| && forall i :: 0 <= i < |rows| ==> rows[i] == (scopes[i].key, Cell(scopes[i], column))
  {
    if scopes == [] then [] else [(scopes[0].key, Cell(scopes[0], column))] + ColumnRows(scopes[1..], column)
  }

  /** What the tables hold after a configuration was applied. */
  ghost predicate Loaded(fold: Text -> Text, c: Config, parts: Participations, t: Tables,
                         players: map<Text, Id>, groups: map<Text, Id>, scopes: map<Text, Id>)
  {
    && Holds(t.players, PlayerRows(c.players), players)
    && Holds(t.groups, GroupRows(c.groups), groups)
    && Holds(t.scopes, ScopeRows(c.scopes), scopes)
    && AliasTable(fold, c.players, players, t.aliases)
    && OverrideTable(c.overrides, parts, players, t.overrides)
    && LinkTable(MemberRows(c.groups), groups, players, t.members)
    && LinkTable(ColumnRows(c.scopes, OwnPlayers), scopes, players, t.ownPlayers)
    && LinkTable(ColumnRows(c.scopes, OwnGroups), scopes, groups, t.ownGroups)
    && LinkTable(ColumnRows(c.scopes, OpponentPlayers), scopes, players, t.opponentPlayers)
    && LinkTable(ColumnRows(c.scopes, OpponentGroups), scopes, groups, t.opponentGroups)
    && ValueTable(ColumnRows(c.scopes, Replays), scopes, t.replays)
  }

  lemma {:induction false} AscendingAreDistinct(rows: seq<Named>)
    requires Ascending(Keys(rows))
    ensures DistinctRows(rows)
  {
  }

  lemma {:induction false} PlayerBack(fold: Text -> Text, t: Tables, players: Catalog, ids: map<Text, Id>, n: nat)
    requires Normal(fold, players) && n < |players|
    requires Holds(t.players, PlayerRows(players), ids) && AliasTable(fold, players, ids, t.aliases)
    ensures HasKey(t.players, players[n].key) && PlayerAt(t, players[n].key) == players[n]
  {
    HoldsRow(t.players, PlayerRows(players), ids, n);
    AliasesBack(fold, t, players, ids, n);
    hide Holds, IdOf, HasKey, Normal, AliasesOf, AliasTable;
  }

  lemma {:induction false} GroupBack(t: Tables, rows: seq<Named>, groups: seq<Group>, pids: map<Text, Id>, gids: map<Text, Id>, n: nat)
    requires n < |groups| && Holds(t.groups, GroupRows(groups), gids) && Holds(t.players, rows, pids)
    requires LinkTable(MemberRows(groups), gids, pids, t.members)
    requires Ascending(Keys(GroupRows(groups))) && KnownKeys(rows, groups[n].players)
    ensures HasKey(t.groups, groups[n].key) && GroupAt(t, groups[n].key) == groups[n]
  {
    AscendingAreDistinct(GroupRows(groups));
    HoldsRow(t.groups, GroupRows(groups), gids, n);
    hide IdOf, HasKey, Linked, KnownKeys, LinkTable, Ascending;
    forall i | 0 <= i < |groups|
      ensures Finds(t.groups, gids, groups[i].key)
    {
      HoldsRow(t.groups, GroupRows(groups), gids, i);
    }
    forall i, j | 0 <= i < j < |groups|
      ensures groups[i].key != groups[j].key
    {
      assert GroupRows(groups)[i].key != GroupRows(groups)[j].key;
    }
    hide Holds, Finds;
    LinkedBack(t.groups, gids, t.players, rows, pids, MemberRows(groups), t.members, n);
  }

  lemma {:induction false} ScopeFinds(t: Tables, scopes: seq<Scope>, sids: map<Text, Id>)
    requires Holds(t.scopes, ScopeRows(scopes), sids) && Ascending(Keys(ScopeRows(scopes)))
    ensures forall i :: 0 <= i < |scopes| ==> Finds(t.scopes, sids, scopes[i].key)
    ensures forall i, j :: 0 <= i < j < |scopes| ==> scopes[i].key != scopes[j].key
  {
    AscendingAreDistinct(ScopeRows(scopes));
    hide IdOf, HasKey, Ascending;
    forall i | 0 <= i < |scopes|
      ensures Finds(t.scopes, sids, scopes[i].key)
    {
      HoldsRow(t.scopes, ScopeRows(scopes), sids, i);
    }
    forall i, j | 0 <= i < j < |scopes|
      ensures scopes[i].key != scopes[j].key
    {
      assert ScopeRows(scopes)[i].key != ScopeRows(scopes)[j].key;
    }
  }

  /** One selector column of one scope comes back. */
  lemma {:induction false} ColumnBack(t: Tables, scopes: seq<Scope>, sids: map<Text, Id>, s: Section, targets: seq<Named>, to: map<Text, Id>,
                   column: Column, links: Links, n: nat)
    requires n < |scopes| && Holds(t.scopes, ScopeRows(scopes), sids) && Ascending(Keys(ScopeRows(scopes)))
    requires Holds(s, targets, to) && LinkTable(ColumnRows(scopes, column), sids, to, links)
    requires KnownKeys(targets, Cell(scopes[n], column))
    ensures scopes[n].key in sids && Linked(links, sids[scopes[n].key], s) == Cell(scopes[n], column)
  {
    ScopeFinds(t, scopes, sids);
    hide Holds, Finds, Linked, KnownKeys, LinkTable, Ascending, Cell;
    LinkedBack(t.scopes, sids, s, targets, to, ColumnRows(scopes, column), links, n);
  }

  lemma {:induction false} ReplaysBack(t: Tables, scopes: seq<Scope>, sids: map<Text, Id>, n: nat)
    requires n < |scopes| && Holds(t.scopes, ScopeRows(scopes), sids) && Ascending(Keys(ScopeRows(scopes)))
    requires ValueTable(ColumnRows(scopes, Replays), sids, t.replays) && Ascending(scopes[n].replays)
    ensures scopes[n].key in sids && Values(t.replays, sids[scopes[n].key]) == scopes[n].replays
  {
    ScopeFinds(t, scopes, sids);
    hide Holds, Finds, Values, ValueTable, Ascending;
    ValuesBack(t.scopes, sids, ColumnRows(scopes, Replays), t.replays, n);
  }

  lemma {:induction false} ScopeTables(fold: Text -> Text, c: Config, parts: Participations, t: Tables,
                                       pids: map<Text, Id>, gids: map<Text, Id>, sids: map<Text, Id>)
    requires Loaded(fold, c, parts, t, pids, gids, sids)
    ensures Holds(t.players, PlayerRows(c.players), pids) && Holds(t.groups, GroupRows(c.groups), gids)
    ensures Holds(t.scopes, ScopeRows(c.scopes), sids)
    ensures LinkTable(ColumnRows(c.scopes, OwnPlayers), sids, pids, t.ownPlayers)
    ensures LinkTable(ColumnRows(c.scopes, OwnGroups), sids, gids, t.ownGroups)
    ensures LinkTable(ColumnRows(c.scopes, OpponentPlayers), sids, pids, t.opponentPlayers)
    ensures LinkTable(ColumnRows(c.scopes, OpponentGroups), sids, gids, t.opponentGroups)
    ensures ValueTable(ColumnRows(c.scopes, Replays), sids, t.replays)
  {
    hide Holds, LinkTable, ValueTable, AliasTable, OverrideTable;
  }

  lemma {:induction false} CellsAreKnown(fold: Text -> Text, c: Config, parts: Participations, n: nat)
    requires NormalConfig(fold, c, parts) && n < |c.scopes|
    ensures Ascending(Keys(ScopeRows(c.scopes))) && Ascending(c.scopes[n].replays)
    ensures Cell(c.scopes[n], OwnPlayers) == c.scopes[n].own.players && KnownKeys(PlayerRows(c.players), c.scopes[n].own.players)
    ensures Cell(c.scopes[n], OwnGroups) == c.scopes[n].own.groups && KnownKeys(GroupRows(c.groups), c.scopes[n].own.groups)
    ensures Cell(c.scopes[n], OpponentPlayers) == c.scopes[n].opponent.players
            && KnownKeys(PlayerRows(c.players), c.scopes[n].opponent.players)
    ensures Cell(c.scopes[n], OpponentGroups) == c.scopes[n].opponent.groups
            && KnownKeys(GroupRows(c.groups), c.scopes[n].opponent.groups)
  {
    hide Normal, NormalOverrides, KnownKeys, Ascending, PlayerRows, GroupRows, ScopeRows, Keys;
    assert NormalSelector(c, c.scopes[n].own) && NormalSelector(c, c.scopes[n].opponent);
  }

  /** The five tables that hang off a scope. */
  lemma {:induction false} ColumnsBack(fold: Text -> Text, c: Config, parts: Participations, t: Tables,
                                       pids: map<Text, Id>, gids: map<Text, Id>, sids: map<Text, Id>, n: nat)
    requires NormalConfig(fold, c, parts) && Loaded(fold, c, parts, t, pids, gids, sids) && n < |c.scopes|
    ensures c.scopes[n].key in sids
    ensures var id := sids[c.scopes[n].key];
            && Linked(t.ownPlayers, id, t.players) == c.scopes[n].own.players
            && Linked(t.ownGroups, id, t.groups) == c.scopes[n].own.groups
            && Linked(t.opponentPlayers, id, t.players) == c.scopes[n].opponent.players
            && Linked(t.opponentGroups, id, t.groups) == c.scopes[n].opponent.groups
            && Values(t.replays, id) == c.scopes[n].replays
  {
    hide *;
    ScopeTables(fold, c, parts, t, pids, gids, sids);
    CellsAreKnown(fold, c, parts, n);
    ColumnBack(t, c.scopes, sids, t.players, PlayerRows(c.players), pids, OwnPlayers, t.ownPlayers, n);
    ColumnBack(t, c.scopes, sids, t.groups, GroupRows(c.groups), gids, OwnGroups, t.ownGroups, n);
    ColumnBack(t, c.scopes, sids, t.players, PlayerRows(c.players), pids, OpponentPlayers, t.opponentPlayers, n);
    ColumnBack(t, c.scopes, sids, t.groups, GroupRows(c.groups), gids, OpponentGroups, t.opponentGroups, n);
    ReplaysBack(t, c.scopes, sids, n);
  }

  lemma {:induction false} ScopeBack(fold: Text -> Text, c: Config, parts: Participations, t: Tables,
                                     pids: map<Text, Id>, gids: map<Text, Id>, sids: map<Text, Id>, n: nat)
    requires NormalConfig(fold, c, parts) && Loaded(fold, c, parts, t, pids, gids, sids) && n < |c.scopes|
    ensures HasKey(t.scopes, c.scopes[n].key) && ScopeAt(t, c.scopes[n].key) == c.scopes[n]
  {
    ColumnsBack(fold, c, parts, t, pids, gids, sids, n);
    assert Holds(t.scopes, ScopeRows(c.scopes), sids);
    hide NormalConfig, Loaded, Holds, IdOf, HasKey, Linked, Values;
    HoldsRow(t.scopes, ScopeRows(c.scopes), sids, n);
  }

  // ----- The whole export -----

  lemma {:induction false} PlayersBack(t: Tables, players: Catalog)
    requires forall i :: 0 <= i < |players| ==> HasKey(t.players, players[i].key) && PlayerAt(t, players[i].key) == players[i]
    ensures AllHaveKey(t.players, Keys(PlayerRows(players))) && PlayersAt(t, Keys(PlayerRows(players))) == players
  {
    hide HasKey, PlayerAt;
    if players != [] {
      assert Keys(PlayerRows(players))[1..] == Keys(PlayerRows(players[1..]));
      PlayersBack(t, players[1..]);
    }
  }

  lemma {:induction false} GroupsBack(t: Tables, groups: seq<Group>)
    requires forall i :: 0 <= i < |groups| ==> HasKey(t.groups, groups[i].key) && GroupAt(t, groups[i].key) == groups[i]
    ensures AllHaveKey(t.groups, Keys(GroupRows(groups))) && GroupsAt(t, Keys(GroupRows(groups))) == groups
  {
    hide HasKey, GroupAt;
    if groups != [] {
      assert Keys(GroupRows(groups))[1..] == Keys(GroupRows(groups[1..]));
      GroupsBack(t, groups[1..]);
    }
  }

  lemma {:induction false} ScopesBack(t: Tables, scopes: seq<Scope>)
    requires forall i :: 0 <= i < |scopes| ==> HasKey(t.scopes, scopes[i].key) && ScopeAt(t, scopes[i].key) == scopes[i]
    ensures AllHaveKey(t.scopes, Keys(ScopeRows(scopes))) && ScopesAt(t, Keys(ScopeRows(scopes))) == scopes
  {
    hide HasKey, ScopeAt;
    if scopes != [] {
      assert Keys(ScopeRows(scopes))[1..] == Keys(ScopeRows(scopes[1..]));
      ScopesBack(t, scopes[1..]);
    }
  }

  lemma {:induction false} PlayersExported(fold: Text -> Text, c: Config, parts: Participations, t: Tables,
                                           pids: map<Text, Id>, gids: map<Text, Id>, sids: map<Text, Id>)
    requires NormalConfig(fold, c, parts) && Loaded(fold, c, parts, t, pids, gids, sids)
    ensures Export(t, parts).players == c.players
  {
    hide Holds, AliasTable, OverrideTable, LinkTable, ValueTable, Normal, NormalOverrides, KnownKeys, NormalSelector, Ascending,
      PlayerAt, HasKey, PlayersAt, OverridesAt, GroupsAt, ScopesAt, PlayerRows, GroupRows, ScopeRows, Keys, KeySet;
    forall i | 0 <= i < |c.players|
      ensures HasKey(t.players, c.players[i].key) && PlayerAt(t, c.players[i].key) == c.players[i]
    {
      PlayerBack(fold, t, c.players, pids, i);
    }
    KeysBack(t.players, PlayerRows(c.players), pids);
    PlayersBack(t, c.players);
  }

  lemma {:induction false} GroupsExported(fold: Text -> Text, c: Config, parts: Participations, t: Tables,
                                          pids: map<Text, Id>, gids: map<Text, Id>, sids: map<Text, Id>)
    requires NormalConfig(fold, c, parts) && Loaded(fold, c, parts, t, pids, gids, sids)
    ensures Export(t, parts).groups == c.groups
  {
    hide Holds, AliasTable, OverrideTable, LinkTable, ValueTable, Normal, NormalOverrides, KnownKeys, NormalSelector, Ascending,
      GroupAt, HasKey, PlayersAt, OverridesAt, GroupsAt, ScopesAt, PlayerRows, GroupRows, ScopeRows, Keys, KeySet;
    forall i | 0 <= i < |c.groups|
      ensures HasKey(t.groups, c.groups[i].key) && GroupAt(t, c.groups[i].key) == c.groups[i]
    {
      GroupBack(t, PlayerRows(c.players), c.groups, pids, gids, i);
    }
    KeysBack(t.groups, GroupRows(c.groups), gids);
    GroupsBack(t, c.groups);
  }

  lemma {:induction false} ScopesExported(fold: Text -> Text, c: Config, parts: Participations, t: Tables,
                                          pids: map<Text, Id>, gids: map<Text, Id>, sids: map<Text, Id>)
    requires NormalConfig(fold, c, parts) && Loaded(fold, c, parts, t, pids, gids, sids)
    ensures Export(t, parts).scopes == c.scopes
  {
    forall i | 0 <= i < |c.scopes|
      ensures HasKey(t.scopes, c.scopes[i].key) && ScopeAt(t, c.scopes[i].key) == c.scopes[i]
    {
      ScopeBack(fold, c, parts, t, pids, gids, sids, i);
    }
    hide Holds, AliasTable, OverrideTable, LinkTable, ValueTable, Normal, NormalOverrides, KnownKeys, NormalSelector, Ascending,
      ScopeAt, HasKey, PlayersAt, OverridesAt, GroupsAt, ScopesAt, PlayerRows, GroupRows, ScopeRows, Keys, KeySet;
    KeysBack(t.scopes, ScopeRows(c.scopes), sids);
    ScopesBack(t, c.scopes);
  }

  lemma {:induction false} OverridesExported(fold: Text -> Text, c: Config, parts: Participations, t: Tables,
                                             pids: map<Text, Id>, gids: map<Text, Id>, sids: map<Text, Id>)
    requires NormalConfig(fold, c, parts) && Loaded(fold, c, parts, t, pids, gids, sids)
    ensures Export(t, parts).overrides == c.overrides
  {
    hide Holds, AliasTable, OverrideTable, LinkTable, ValueTable, Normal, KnownKeys, NormalSelector, Ascending, Among,
      OverrideAt, Joins, PlayersAt, OverridesAt, GroupsAt, ScopesAt, PlayerRows, GroupRows, ScopeRows, Keys, KeySet, OverridePairs;
    forall i | 0 <= i < |c.overrides|
      ensures Joins(t, parts, Pairs(c.overrides)[i]) && OverrideAt(t, parts, Pairs(c.overrides)[i]) == c.overrides[i]
    {
      OverrideBack(t.players, PlayerRows(c.players), t, parts, pids, c.overrides, i);
    }
    OverrideListing(t.players, PlayerRows(c.players), t, parts, pids, c.overrides);
    OverridesBack(t, parts, c.overrides);
  }

  /** Applying a normal configuration and exporting gives the configuration back. */
  lemma {:induction false} LoadedExports(fold: Text -> Text, c: Config, parts: Participations, t: Tables,
                                         pids: map<Text, Id>, gids: map<Text, Id>, sids: map<Text, Id>)
    requires NormalConfig(fold, c, parts) && Loaded(fold, c, parts, t, pids, gids, sids)
    ensures Export(t, parts) == c
  {
    hide *;
    PlayersExported(fold, c, parts, t, pids, gids, sids);
    OverridesExported(fold, c, parts, t, pids, gids, sids);
    GroupsExported(fold, c, parts, t, pids, gids, sids);
    ScopesExported(fold, c, parts, t, pids, gids, sids);
  }
}
