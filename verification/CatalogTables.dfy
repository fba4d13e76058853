/** The identity catalog as configuration and as tables
    (packages/corpus-store/python/identities.py), and the export query that reads the tables
    back.  The role column of scope_players and scope_groups is split into separate tables. */
module CatalogTables {
  import opened AliasCatalog
  import opened CatalogSections
  import opened Sorting

  datatype Override = Override(replay: Text, owner: int, player: Text)

  datatype Group = Group(key: Text, display: Text, players: seq<Text>)

  datatype Selector = Selector(players: seq<Text>, groups: seq<Text>)

  /** `filters` stands for the canonical text of the filters object. */
  datatype Scope = Scope(key: Text, display: Text, filters: Text, own: Selector, opponent: Selector, replays: seq<Text>)

  datatype Config = Config(players: Catalog, overrides: seq<Override>, groups: seq<Group>, scopes: seq<Scope>)

  type Links = set<(Id, int)>

  /** Recorded participations, which the catalog only reads: (replay, owner) by id. */
  type Participations = map<Id, (Text, int)>

  datatype Tables = Tables(players: Section, groups: Section, scopes: Section,
                           aliases: map<Ident, (Text, Id)>, overrides: map<Id, Id>, members: Links,
                           ownPlayers: Links, ownGroups: Links, opponentPlayers: Links, opponentGroups: Links,
                           replays: Links)

  // ----- The export query -----

  ghost function IdOf(s: Section, key: Text): (i: Id)
    requires HasKey(s, key)
    ensures i in s && s[i].key == key
  {
    var i :| i in s && s[i].key == key;
    i
  }

  function KeySet(s: Section): (keys: set<Text>)
    ensures forall key :: key in keys ==> HasKey(s, key)
  {
    set i | i in s :: s[i].key
  }

  /** The keys that the links of one row lead to, in order. */
  function Linked(links: Links, from: Id, to: Section): seq<Text> {
    SortedKeys(set p | p in links && p.0 == from && p.1 in to :: to[p.1].key)
  }

  function Values(links: Links, from: Id): seq<Text> { SortedKeys(set p | p in links && p.0 == from :: p.1) }

  function Names(t: Tables, ids: seq<Ident>): seq<Alias>
    requires forall id :: id in ids ==> id in t.aliases
  {
    if ids == [] then []
    else
      assert ids[0] in ids && forall id :: id in ids[1..] ==> id in ids;
      [Alias(ids[0].0, t.aliases[ids[0]].0)] + Names(t, ids[1..])
  }

  ghost function AliasesOf(t: Tables, player: Id): seq<Alias> {
    Names(t, Listing(IdentBefore, set id | id in t.aliases && t.aliases[id].1 == player))
  }

  ghost function PlayerAt(t: Tables, key: Text): Player
    requires HasKey(t.players, key)
  {
    var id := IdOf(t.players, key);
    Player(key, t.players[id].display, AliasesOf(t, id))
  }

  ghost function GroupAt(t: Tables, key: Text): Group
    requires HasKey(t.groups, key)
  {
    var id := IdOf(t.groups, key);
    Group(key, t.groups[id].display, Linked(t.members, id, t.players))
  }

  ghost function ScopeAt(t: Tables, key: Text): Scope
    requires HasKey(t.scopes, key)
  {
    var id := IdOf(t.scopes, key);
    Scope(key, t.scopes[id].display, t.scopes[id].filters,
          Selector(Linked(t.ownPlayers, id, t.players), Linked(t.ownGroups, id, t.groups)),
          Selector(Linked(t.opponentPlayers, id, t.players), Linked(t.opponentGroups, id, t.groups)),
          Values(t.replays, id))
  }

  ghost predicate AllHaveKey(s: Section, keys: seq<Text>) { forall i :: 0 <= i < |keys| ==> HasKey(s, keys[i]) }

  ghost function PlayersAt(t: Tables, keys: seq<Text>): Catalog
    requires AllHaveKey(t.players, keys)
  {
    if keys == [] then [] else [PlayerAt(t, keys[0])] + PlayersAt(t, keys[1..])
  }

  ghost function GroupsAt(t: Tables, keys: seq<Text>): seq<Group>
    requires AllHaveKey(t.groups, keys)
  {
    if keys == [] then [] else [GroupAt(t, keys[0])] + GroupsAt(t, keys[1..])
  }

  ghost function ScopesAt(t: Tables, keys: seq<Text>): seq<Scope>
    requires AllHaveKey(t.scopes, keys)
  {
    if keys == [] then [] else [ScopeAt(t, keys[0])] + ScopesAt(t, keys[1..])
  }

  lemma {:induction false} KeysHaveKey(s: Section)
    ensures AllHaveKey(s, SortedKeys(KeySet(s)))
  {
    var keys := SortedKeys(KeySet(s));
    assert forall i :: 0 <= i < |keys| ==> keys[i] in keys;
  }

  /** The pairs (replay, owner) with a joinable override. */
  predicate Overridden(t: Tables, parts: Participations, part: Id) {
    part in t.overrides && part in parts && t.overrides[part] in t.players
  }

  ghost predicate Joins(t: Tables, parts: Participations, pair: (Text, int)) {
    exists part :: Overridden(t, parts, part) && parts[part] == pair
  }

  ghost predicate AllJoin(t: Tables, parts: Participations, pairs: seq<(Text, int)>) {
    forall i :: 0 <= i < |pairs| ==> Joins(t, parts, pairs[i])
  }

  function OverridePairs(t: Tables, parts: Participations): (pairs: set<(Text, int)>)
    ensures forall pair :: pair in pairs ==> Joins(t, parts, pair)
  {
    set part | part in t.overrides && Overridden(t, parts, part) :: parts[part]
  }

  ghost function OverrideAt(t: Tables, parts: Participations, pair: (Text, int)): Override
    requires Joins(t, parts, pair)
  {
    var part :| Overridden(t, parts, part) && parts[part] == pair;
    Override(pair.0, pair.1, t.players[t.overrides[part]].key)
  }

  ghost function OverridesAt(t: Tables, parts: Participations, pairs: seq<(Text, int)>): seq<Override>
    requires AllJoin(t, parts, pairs)
  {
    if pairs == [] then [] else [OverrideAt(t, parts, pairs[0])] + OverridesAt(t, parts, pairs[1..])
  }

  lemma {:induction false} PairsJoin(t: Tables, parts: Participations)
    ensures AllJoin(t, parts, Listing(IdentBefore, OverridePairs(t, parts)))
  {
    var pairs := Listing(IdentBefore, OverridePairs(t, parts));
    hide Joins;
    assert forall i :: 0 <= i < |pairs| ==> pairs[i] in pairs;
  }

  /** `export_catalog`. */
  ghost function Export(t: Tables, parts: Participations): Config {
    KeysHaveKey(t.players);
    KeysHaveKey(t.groups);
    KeysHaveKey(t.scopes);
    PairsJoin(t, parts);
    Config(PlayersAt(t, SortedKeys(KeySet(t.players))),
           OverridesAt(t, parts, Listing(IdentBefore, OverridePairs(t, parts))),
           GroupsAt(t, SortedKeys(KeySet(t.groups))),
           ScopesAt(t, SortedKeys(KeySet(t.scopes))))
  }

  // ----- Normal configurations -----

  ghost predicate KnownKeys(rows: seq<Named>, keys: seq<Text>) {
    Ascending(keys) && forall k :: 0 <= k < |keys| ==> Among(rows, |rows|, keys[k])
  }

  function PlayerRows(players: Catalog): (rows: seq<Named>)
    ensures |rows| == |players|
    ensures forall i :: 0 <= i < |rows| ==> rows[i] == Named(players[i].key, players[i].display, 0)
  {
    if players == [] then [] else [Named(players[0].key, players[0].display, 0)] + PlayerRows(players[1..])
  }

  function GroupRows(groups: seq<Group>): (rows: seq<Named>)
    ensures |rows| == |groups|
    ensures forall i :: 0 <= i < |rows| ==> rows[i] == Named(groups[i].key, groups[i].display, 0)
  {
    if groups == [] then [] else [Named(groups[0].key, groups[0].display, 0)] + GroupRows(groups[1..])
  }

  function ScopeRows(scopes: seq<Scope>): (rows: seq<Named>)
    ensures |rows| == |scopes|
    ensures forall i :: 0 <= i < |rows| ==> rows[i] == Named(scopes[i].key, scopes[i].display, scopes[i].filters)
  {
    if scopes == [] then [] else [Named(scopes[0].key, scopes[0].display, scopes[0].filters)] + ScopeRows(scopes[1..])
  }

  function Keys(rows: seq<Named>): (keys: seq<Text>)
    ensures |keys| == |rows| && forall i :: 0 <= i < |rows| ==> keys[i] == rows[i].key
  {
    if rows == [] then [] else [rows[0].key] + Keys(rows[1..])
  }

  function Pairs(overrides: seq<Override>): (pairs: seq<(Text, int)>)
    ensures |pairs| == |overrides|
    ensures forall i :: 0 <= i < |pairs| ==> pairs[i] == (overrides[i].replay, overrides[i].owner)
  {
    if overrides == [] then [] else [(overrides[0].replay, overrides[0].owner)] + Pairs(overrides[1..])
  }

  ghost predicate NormalSelector(c: Config, s: Selector) {
    KnownKeys(PlayerRows(c.players), s.players) && KnownKeys(GroupRows(c.groups), s.groups)
  }

  /** The replay has a participation with that owner. */
  ghost predicate Recorded(parts: Participations, pair: (Text, int)) {
    exists part :: part in parts && parts[part] == pair
  }

  ghost predicate NormalOverrides(c: Config, parts: Participations) {
    && SortedBy(IdentBefore, Pairs(c.overrides))
    && (forall i, j :: 0 <= i < j < |c.overrides| ==> Pairs(c.overrides)[i] != Pairs(c.overrides)[j])
    && (forall i :: 0 <= i < |c.overrides| ==>
          && Among(PlayerRows(c.players), |c.players|, c.overrides[i].player)
          && Recorded(parts, Pairs(c.overrides)[i]))
  }

  /** What `validate` returns: everything sorted, distinct and resolvable. */
  ghost predicate NormalConfig(fold: Text -> Text, c: Config, parts: Participations) {
    && Normal(fold, c.players)
    && Ascending(Keys(PlayerRows(c.players))) && Ascending(Keys(GroupRows(c.groups))) && Ascending(Keys(ScopeRows(c.scopes)))
    && (forall i :: 0 <= i < |c.groups| ==> KnownKeys(PlayerRows(c.players), c.groups[i].players))
    && (forall i :: 0 <= i < |c.scopes| ==>
          NormalSelector(c, c.scopes[i].own) && NormalSelector(c, c.scopes[i].opponent) && Ascending(c.scopes[i].replays))
    && NormalOverrides(c, parts)
  }
}
