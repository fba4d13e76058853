/** `validate` (packages/corpus-store/python/identities.py): an accepted configuration comes out
    sorted, without repetitions and with every reference resolved. */
module CatalogValidation {
  import opened AliasCatalog
  import opened CatalogSections
  import opened CatalogTables
  import opened Options
  import opened Sorting

  predicate GroupBefore(g: Group, h: Group) { g.key <= h.key }

  predicate ScopeBefore(s: Scope, t: Scope) { s.key <= t.key }

  predicate OverrideBefore(o: Override, p: Override) { IdentBefore((o.replay, o.owner), (p.replay, p.owner)) }

  predicate OtherGroup(g: Group, h: Group) { g.key != h.key }

  predicate OtherScope(s: Scope, t: Scope) { s.key != t.key }

  predicate OtherOverride(o: Override, p: Override) { (o.replay, o.owner) != (p.replay, p.owner) }

  /** Some row of the section has the key. */
  predicate PlayerKnown(players: Catalog, key: Text) { exists i :: 0 <= i < |players| && players[i].key == key }

  predicate GroupKnown(groups: seq<Group>, key: Text) { exists i :: 0 <= i < |groups| && groups[i].key == key }

  predicate PlayersKnown(c: Config, keys: seq<Text>) { forall k :: 0 <= k < |keys| ==> PlayerKnown(c.players, keys[k]) }

  predicate GroupsKnown(c: Config, keys: seq<Text>) { forall k :: 0 <= k < |keys| ==> GroupKnown(c.groups, keys[k]) }

  predicate SelectorKnown(c: Config, s: Selector) { PlayersKnown(c, s.players) && GroupsKnown(c, s.groups) }

  /** What `validate` checks; the form of keys, texts and filters is not modelled. */
  ghost predicate Acceptable(fold: Text -> Text, parts: Participations, c: Config) {
    && Consistent(fold, c.players)
    && Pairwise(OtherGroup, c.groups) && Pairwise(OtherScope, c.scopes) && Pairwise(OtherOverride, c.overrides)
    && (forall i :: 0 <= i < |c.overrides| ==>
          PlayerKnown(c.players, c.overrides[i].player) && Recorded(parts, (c.overrides[i].replay, c.overrides[i].owner)))
    && (forall i :: 0 <= i < |c.groups| ==> PlayersKnown(c, c.groups[i].players))
    && (forall i :: 0 <= i < |c.scopes| ==> SelectorKnown(c, c.scopes[i].own) && SelectorKnown(c, c.scopes[i].opponent))
  }

  /** `sorted(set(...))`. */
  function Listed(keys: seq<Text>): seq<Text> { SortedKeys(set k | 0 <= k < |keys| :: keys[k]) }

  function TidyGroup(g: Group): Group { g.(players := Listed(g.players)) }

  function TidySelector(s: Selector): Selector { Selector(Listed(s.players), Listed(s.groups)) }

  function TidyScope(s: Scope): Scope {
    s.(own := TidySelector(s.own), opponent := TidySelector(s.opponent), replays := Listed(s.replays))
  }

  function TidyGroups(groups: seq<Group>): (r: seq<Group>)
    ensures |r| == |groups| && forall i :: 0 <= i < |r| ==> r[i] == TidyGroup(groups[i])
  {
    if groups == [] then [] else [TidyGroup(groups[0])] + TidyGroups(groups[1..])
  }

  function TidyScopes(scopes: seq<Scope>): (r: seq<Scope>)
    ensures |r| == |scopes| && forall i :: 0 <= i < |r| ==> r[i] == TidyScope(scopes[i])
  {
    if scopes == [] then [] else [TidyScope(scopes[0])] + TidyScopes(scopes[1..])
  }

  ghost function TidyPlayers(fold: Text -> Text, players: Catalog): Catalog
    requires Consistent(fold, players)
  {
    Normalize(fold, players).value
  }

  function SortedGroups(groups: seq<Group>): seq<Group> { Sort(GroupBefore, TidyGroups(groups)) }

  function SortedScopes(scopes: seq<Scope>): seq<Scope> { Sort(ScopeBefore, TidyScopes(scopes)) }

  function SortedOverrides(overrides: seq<Override>): seq<Override> { Sort(OverrideBefore, overrides) }

  ghost function Validate(fold: Text -> Text, parts: Participations, c: Config): Option<Config> {
    if Acceptable(fold, parts, c) then
      Some(Config(TidyPlayers(fold, c.players), SortedOverrides(c.overrides), SortedGroups(c.groups), SortedScopes(c.scopes)))
    else None
  }

  // ----- The result is in normal form -----

  lemma {:induction false} ListedIs(keys: seq<Text>)
    ensures Ascending(Listed(keys)) && forall key :: key in Listed(keys) <==> key in keys
  {
  }

  lemma {:induction false} KeysAscend(rows: seq<Named>)
    requires forall i, j :: 0 <= i < j < |rows| ==> rows[i].key < rows[j].key
    ensures Ascending(Keys(rows))
  {
  }

  lemma {:induction false} PlayersAreNormal(fold: Text -> Text, players: Catalog, key: Text)
    requires Consistent(fold, players)
    ensures var r := TidyPlayers(fold, players);
            && Normal(fold, r) && Ascending(Keys(PlayerRows(r)))
            && (PlayerKnown(players, key) ==> Among(PlayerRows(r), |r|, key))
  {
    NormalizeIsNormal(fold, players);
    var r := Normalize(fold, players).value;
    DistinctPlayers(fold, r);
    hide Normalize, Normal, Consistent, Ascending, Keys;
    forall i, j | 0 <= i < j < |r|
      ensures r[i].key < r[j].key
    {
      assert KeyBefore(r[i], r[j]);
      assert r[i] in r && r[j] in r;
    }
    KeysAscend(PlayerRows(r));
    KnownPlayerIsAmong(fold, players, key);
  }

  lemma {:induction false} KnownPlayerIsAmong(fold: Text -> Text, players: Catalog, key: Text)
    requires Consistent(fold, players)
    ensures var r := TidyPlayers(fold, players); PlayerKnown(players, key) ==> Among(PlayerRows(r), |r|, key)
  {
    hide Normalize, Consistent;
    if PlayerKnown(players, key) {
      var r := TidyPlayers(fold, players);
      var i :| 0 <= i < |players| && players[i].key == key;
      assert HasPlayer(players, key, players[i].display);
      NormalizeKeeps(fold, players, key, players[i].display, Alias(0, 0));
      var j :| 0 <= j < |r| && r[j].key == key && r[j].display == players[i].display;
      assert PlayerRows(r)[j].key == key;
    }
  }

  lemma {:induction false} GroupsAreNormal(groups: seq<Group>, key: Text)
    requires Pairwise(OtherGroup, groups)
    ensures var r := SortedGroups(groups);
            && Ascending(Keys(GroupRows(r)))
            && (forall g :: g in r ==> exists i :: 0 <= i < |groups| && g == TidyGroup(groups[i]))
            && (GroupKnown(groups, key) ==> Among(GroupRows(r), |r|, key))
  {
    var r := SortedGroups(groups);
    GroupsAscend(groups);
    KnownGroupIsAmong(groups, key);
    hide TidyGroup, Ascending, Keys, Among, GroupKnown, Pairwise;
    forall g | g in r
      ensures exists i :: 0 <= i < |groups| && g == TidyGroup(groups[i])
    {
      SameMember(r, TidyGroups(groups), g);
      var i :| 0 <= i < |groups| && TidyGroups(groups)[i] == g;
    }
  }

  lemma {:induction false} GroupsAscend(groups: seq<Group>)
    requires Pairwise(OtherGroup, groups)
    ensures Ascending(Keys(GroupRows(SortedGroups(groups))))
  {
    var t := TidyGroups(groups);
    var r := Sort(GroupBefore, t);
    assert Pairwise(OtherGroup, t) by {
      assert forall i, j :: 0 <= i < j < |t| ==> OtherGroup(groups[i], groups[j]);
    }
    hide Sort, TidyGroups, TidyGroup;
    SortPairwise(GroupBefore, OtherGroup, t);
    SortSorts(GroupBefore, t);
    GroupKeysAscend(r);
  }

  lemma {:induction false} GroupKeysAscend(r: seq<Group>)
    requires SortedBy(GroupBefore, r) && Pairwise(OtherGroup, r)
    ensures Ascending(Keys(GroupRows(r)))
  {
    hide Ascending, Keys;
    forall i, j | 0 <= i < j < |r|
      ensures r[i].key < r[j].key
    {
      assert GroupBefore(r[i], r[j]) && OtherGroup(r[i], r[j]);
    }
    KeysAscend(GroupRows(r));
  }

  lemma {:induction false} KnownGroupIsAmong(groups: seq<Group>, key: Text)
    ensures GroupKnown(groups, key) ==> Among(GroupRows(SortedGroups(groups)), |SortedGroups(groups)|, key)
  {
    hide TidyGroup, Sort;
    if GroupKnown(groups, key) {
      var t, r := TidyGroups(groups), SortedGroups(groups);
      var i :| 0 <= i < |groups| && groups[i].key == key;
      TidyGroupKeepsKey(groups[i]);
      SameMember(r, t, t[i]);
      var j :| 0 <= j < |r| && r[j] == t[i];
      assert GroupRows(r)[j].key == key;
    }
  }

  lemma {:induction false} TidyGroupKeepsKey(g: Group)
    ensures TidyGroup(g).key == g.key
  {
  }

  lemma {:induction false} ScopeKeysAscend(r: seq<Scope>)
    requires SortedBy(ScopeBefore, r) && Pairwise(OtherScope, r)
    ensures Ascending(Keys(ScopeRows(r)))
  {
    hide Ascending, Keys;
    forall i, j | 0 <= i < j < |r|
      ensures r[i].key < r[j].key
    {
      assert ScopeBefore(r[i], r[j]) && OtherScope(r[i], r[j]);
    }
    KeysAscend(ScopeRows(r));
  }

  lemma {:induction false} ScopesAreNormal(scopes: seq<Scope>)
    requires Pairwise(OtherScope, scopes)
    ensures var r := SortedScopes(scopes);
            && Ascending(Keys(ScopeRows(r)))
            && (forall s :: s in r ==> exists i :: 0 <= i < |scopes| && s == TidyScope(scopes[i]))
  {
    var t := TidyScopes(scopes);
    var r := Sort(ScopeBefore, t);
    forall i, j | 0 <= i < j < |t|
      ensures OtherScope(t[i], t[j])
    {
      assert OtherScope(scopes[i], scopes[j]);
    }
    SortPairwise(ScopeBefore, OtherScope, t);
    SortSorts(ScopeBefore, t);
    hide Sort, TidyScope, Ascending, Keys;
    ScopeKeysAscend(r);
    forall s | s in r
      ensures exists i :: 0 <= i < |scopes| && s == TidyScope(scopes[i])
    {
      SameMember(r, t, s);
      var i :| 0 <= i < |t| && t[i] == s;
    }
  }

  lemma {:induction false} OverridesAreNormal(overrides: seq<Override>)
    requires Pairwise(OtherOverride, overrides)
    ensures var r := SortedOverrides(overrides);
            && SortedBy(IdentBefore, Pairs(r))
            && (forall i, j :: 0 <= i < j < |r| ==> Pairs(r)[i] != Pairs(r)[j])
            && forall o :: o in r ==> o in overrides
  {
    var r := Sort(OverrideBefore, overrides);
    SortPairwise(OverrideBefore, OtherOverride, overrides);
    SortSorts(OverrideBefore, overrides);
    hide Sort, IdentBefore;
    forall i, j | 0 <= i < j < |r|
      ensures IdentBefore(Pairs(r)[i], Pairs(r)[j]) && Pairs(r)[i] != Pairs(r)[j]
    {
      assert OverrideBefore(r[i], r[j]) && OtherOverride(r[i], r[j]);
    }
    forall o | o in r
      ensures o in overrides
    {
      SameMember(r, overrides, o);
    }
  }

  /** A tidied list of known keys is a sorted list of keys with rows. */
  lemma {:induction false} KnownPlayersAreListed(fold: Text -> Text, c: Config, keys: seq<Text>)
    requires Consistent(fold, c.players) && PlayersKnown(c, keys)
    ensures KnownKeys(PlayerRows(TidyPlayers(fold, c.players)), Listed(keys))
  {
    hide Consistent, TidyPlayers, PlayerKnown, Ascending, Among, PlayerRows, Listed;
    ListedIs(keys);
    var listed, rows := Listed(keys), PlayerRows(TidyPlayers(fold, c.players));
    forall k | 0 <= k < |listed|
      ensures Among(rows, |rows|, listed[k])
    {
      assert listed[k] in listed;
      var n :| 0 <= n < |keys| && keys[n] == listed[k];
      PlayersAreNormal(fold, c.players, listed[k]);
    }
  }

  lemma {:induction false} KnownGroupsAreListed(c: Config, keys: seq<Text>)
    requires Pairwise(OtherGroup, c.groups) && GroupsKnown(c, keys)
    ensures KnownKeys(GroupRows(SortedGroups(c.groups)), Listed(keys))
  {
    hide Pairwise, GroupKnown, Ascending, Among, GroupRows, Listed, SortedGroups;
    ListedIs(keys);
    var listed, rows := Listed(keys), GroupRows(SortedGroups(c.groups));
    forall k | 0 <= k < |listed|
      ensures Among(rows, |rows|, listed[k])
    {
      assert listed[k] in listed;
      var n :| 0 <= n < |keys| && keys[n] == listed[k];
      GroupsAreNormal(c.groups, listed[k]);
    }
  }

  lemma {:induction false} GroupsResolve(fold: Text -> Text, parts: Participations, c: Config, i: nat)
    requires Acceptable(fold, parts, c) && i < |SortedGroups(c.groups)|
    ensures KnownKeys(PlayerRows(TidyPlayers(fold, c.players)), SortedGroups(c.groups)[i].players)
  {
    hide Consistent, TidyPlayers, Ascending, Among, PlayerRows, GroupRows, Listed, SortedGroups, Pairwise, KnownKeys, PlayersKnown,
      SelectorKnown, Recorded, Keys;
    var r := SortedGroups(c.groups);
    GroupsAreNormal(c.groups, 0);
    assert r[i] in r;
    var n :| 0 <= n < |c.groups| && r[i] == TidyGroup(c.groups[n]);
    KnownPlayersAreListed(fold, c, c.groups[n].players);
  }

  lemma {:induction false} ScopesResolve(fold: Text -> Text, parts: Participations, c: Config, r: Config, i: nat)
    requires Acceptable(fold, parts, c) && r.players == TidyPlayers(fold, c.players) && r.groups == SortedGroups(c.groups)
    requires r.scopes == SortedScopes(c.scopes) && i < |r.scopes|
    ensures NormalSelector(r, r.scopes[i].own) && NormalSelector(r, r.scopes[i].opponent) && Ascending(r.scopes[i].replays)
  {
    hide Consistent, TidyPlayers, Ascending, Among, PlayerRows, GroupRows, ScopeRows, Listed, SortedGroups, SortedScopes, Pairwise,
      KnownKeys, PlayersKnown, GroupsKnown, Recorded, Keys;
    ScopesAreNormal(c.scopes);
    assert r.scopes[i] in r.scopes;
    var n :| 0 <= n < |c.scopes| && r.scopes[i] == TidyScope(c.scopes[n]);
    var s := c.scopes[n];
    assert SelectorKnown(c, s.own) && SelectorKnown(c, s.opponent);
    ListedIs(s.replays);
    KnownPlayersAreListed(fold, c, s.own.players);
    KnownPlayersAreListed(fold, c, s.opponent.players);
    KnownGroupsAreListed(c, s.own.groups);
    KnownGroupsAreListed(c, s.opponent.groups);
  }

  lemma {:induction false} OverridesResolve(fold: Text -> Text, parts: Participations, c: Config, r: Config)
    requires Acceptable(fold, parts, c) && r.players == TidyPlayers(fold, c.players)
    requires r.overrides == SortedOverrides(c.overrides)
    ensures NormalOverrides(r, parts)
  {
    hide Consistent, TidyPlayers, Among, PlayerRows, SortedOverrides, Pairwise, PlayersKnown, SelectorKnown, Recorded, PlayerKnown,
      SortedBy, Pairs;
    OverridesAreNormal(c.overrides);
    forall i | 0 <= i < |r.overrides|
      ensures Among(PlayerRows(r.players), |r.players|, r.overrides[i].player) && Recorded(parts, Pairs(r.overrides)[i])
    {
      assert r.overrides[i] in r.overrides;
      var n :| 0 <= n < |c.overrides| && c.overrides[n] == r.overrides[i];
      PlayersAreNormal(fold, c.players, c.overrides[n].player);
    }
  }

  /** Whatever `validate` accepts, it returns in normal form. */
  lemma {:induction false} ValidatedIsNormal(fold: Text -> Text, parts: Participations, c: Config)
    requires Validate(fold, parts, c).Some?
    ensures NormalConfig(fold, Validate(fold, parts, c).value, parts)
  {
    var r := Validate(fold, parts, c).value;
    hide Consistent, TidyPlayers, SortedOverrides, SortedGroups, SortedScopes, Normal, Ascending, Keys, PlayerRows, GroupRows,
      ScopeRows, Pairwise, KnownKeys, NormalSelector, NormalOverrides, PlayersKnown, SelectorKnown, PlayerKnown, GroupKnown, Recorded,
      Among;
    PlayersAreNormal(fold, c.players, 0);
    GroupsAreNormal(c.groups, 0);
    ScopesAreNormal(c.scopes);
    OverridesResolve(fold, parts, c, r);
    forall i | 0 <= i < |r.groups|
      ensures KnownKeys(PlayerRows(r.players), r.groups[i].players)
    {
      GroupsResolve(fold, parts, c, i);
    }
    forall i | 0 <= i < |r.scopes|
      ensures NormalSelector(r, r.scopes[i].own) && NormalSelector(r, r.scopes[i].opponent) && Ascending(r.scopes[i].replays)
    {
      ScopesResolve(fold, parts, c, r, i);
    }
  }

  // ----- A configuration in normal form is accepted as it is -----

  lemma {:induction false} ListedFixesSorted(keys: seq<Text>)
    requires Ascending(keys)
    ensures Listed(keys) == keys
  {
    SortedKeysIs(set k | 0 <= k < |keys| :: keys[k], keys);
  }

  lemma {:induction false} AmongIsKnown(c: Config, key: Text)
    ensures Among(PlayerRows(c.players), |c.players|, key) <==> PlayerKnown(c.players, key)
    ensures Among(GroupRows(c.groups), |c.groups|, key) <==> GroupKnown(c.groups, key)
  {
    var players, groups := PlayerRows(c.players), GroupRows(c.groups);
    if PlayerKnown(c.players, key) {
      var i :| 0 <= i < |c.players| && c.players[i].key == key;
      assert players[i].key == key;
    }
    if GroupKnown(c.groups, key) {
      var i :| 0 <= i < |c.groups| && c.groups[i].key == key;
      assert groups[i].key == key;
    }
  }

  lemma {:induction false} KnownKeysAreKnown(c: Config, keys: seq<Text>)
    ensures KnownKeys(PlayerRows(c.players), keys) ==> PlayersKnown(c, keys) && Listed(keys) == keys
    ensures KnownKeys(GroupRows(c.groups), keys) ==> GroupsKnown(c, keys) && Listed(keys) == keys
  {
    hide Ascending, Listed, Among, PlayerKnown, GroupKnown;
    if Ascending(keys) {
      ListedFixesSorted(keys);
    }
    forall k | 0 <= k < |keys|
      ensures Among(PlayerRows(c.players), |c.players|, keys[k]) <==> PlayerKnown(c.players, keys[k])
      ensures Among(GroupRows(c.groups), |c.groups|, keys[k]) <==> GroupKnown(c.groups, keys[k])
    {
      AmongIsKnown(c, keys[k]);
    }
  }

  lemma {:induction false} AscendAt(rows: seq<Named>)
    requires Ascending(Keys(rows))
    ensures forall i, j :: 0 <= i < j < |rows| ==> rows[i].key < rows[j].key
  {
    var keys := Keys(rows);
    forall i, j | 0 <= i < j < |rows|
      ensures rows[i].key < rows[j].key
    {
      assert keys[i] < keys[j];
    }
  }

  lemma {:induction false} GroupsStay(groups: seq<Group>)
    requires Ascending(Keys(GroupRows(groups))) && forall i :: 0 <= i < |groups| ==> Listed(groups[i].players) == groups[i].players
    ensures Pairwise(OtherGroup, groups) && SortedGroups(groups) == groups
  {
    AscendAt(GroupRows(groups));
    hide Ascending, Keys, Listed;
    assert TidyGroups(groups) == groups;
    SortFixesSorted(GroupBefore, groups);
  }

  predicate TidySelectors(s: Scope) {
    TidySelector(s.own) == s.own && TidySelector(s.opponent) == s.opponent && Listed(s.replays) == s.replays
  }

  lemma {:induction false} ScopesStay(scopes: seq<Scope>)
    requires Ascending(Keys(ScopeRows(scopes))) && forall i :: 0 <= i < |scopes| ==> TidySelectors(scopes[i])
    ensures Pairwise(OtherScope, scopes) && SortedScopes(scopes) == scopes
  {
    AscendAt(ScopeRows(scopes));
    hide Ascending, Keys, TidySelectors, TidyScopes, Sort;
    TidyScopesStay(scopes);
    SortFixesSorted(ScopeBefore, scopes);
  }

  lemma {:induction false} TidyScopesStay(scopes: seq<Scope>)
    requires forall i :: 0 <= i < |scopes| ==> TidySelectors(scopes[i])
    ensures TidyScopes(scopes) == scopes
  {
    hide Listed, TidySelector, TidyScopes;
    forall i | 0 <= i < |scopes|
      ensures TidyScopes(scopes)[i] == scopes[i]
    {
      assert TidySelectors(scopes[i]);
    }
  }

  lemma {:induction false} OverridesStay(c: Config, parts: Participations)
    requires NormalOverrides(c, parts)
    ensures Pairwise(OtherOverride, c.overrides) && SortedOverrides(c.overrides) == c.overrides
    ensures forall i :: 0 <= i < |c.overrides| ==>
              PlayerKnown(c.players, c.overrides[i].player) && Recorded(parts, (c.overrides[i].replay, c.overrides[i].owner))
  {
    var rows, pairs := c.overrides, Pairs(c.overrides);
    hide Among, PlayerKnown, Recorded, IdentBefore, Pairs, PlayerRows;
    forall i, j | 0 <= i < j < |rows|
      ensures OverrideBefore(rows[i], rows[j]) && OtherOverride(rows[i], rows[j])
    {
      assert IdentBefore(pairs[i], pairs[j]) && pairs[i] != pairs[j];
    }
    SortFixesSorted(OverrideBefore, rows);
    forall i | 0 <= i < |rows|
      ensures PlayerKnown(c.players, rows[i].player) && Recorded(parts, (rows[i].replay, rows[i].owner))
    {
      AmongIsKnown(c, rows[i].player);
      assert Recorded(parts, pairs[i]);
    }
  }

  lemma {:induction false} SelectorStays(c: Config, s: Selector)
    requires NormalSelector(c, s)
    ensures SelectorKnown(c, s) && TidySelector(s) == s
  {
    hide KnownKeys, PlayersKnown, GroupsKnown, Listed;
    KnownKeysAreKnown(c, s.players);
    KnownKeysAreKnown(c, s.groups);
  }

  /** `validate` accepts a configuration in normal form, and returns it as it is. */
  lemma {:induction false} NormalIsValidated(fold: Text -> Text, parts: Participations, c: Config)
    requires NormalConfig(fold, c, parts)
    ensures Validate(fold, parts, c) == Some(c)
  {
    hide Consistent, Normalize, SortedOverrides, SortedGroups, SortedScopes, Ascending, Keys, PlayerRows, GroupRows, ScopeRows, Pairwise,
      KnownKeys, NormalSelector, NormalOverrides, PlayersKnown, SelectorKnown, PlayerKnown, Recorded, Listed, TidySelector;
    NormalizeFixesNormal(fold, c.players);
    assert Consistent(fold, c.players);
    OverridesStay(c, parts);
    forall i | 0 <= i < |c.groups|
      ensures PlayersKnown(c, c.groups[i].players) && Listed(c.groups[i].players) == c.groups[i].players
    {
      KnownKeysAreKnown(c, c.groups[i].players);
    }
    GroupsStay(c.groups);
    forall i | 0 <= i < |c.scopes|
      ensures SelectorKnown(c, c.scopes[i].own) && SelectorKnown(c, c.scopes[i].opponent) && TidySelectors(c.scopes[i])
    {
      SelectorStays(c, c.scopes[i].own);
      SelectorStays(c, c.scopes[i].opponent);
      ListedFixesSorted(c.scopes[i].replays);
    }
    ScopesStay(c.scopes);
  }

  /** Validating twice is validating once. */
  lemma {:induction false} ValidatingIsIdempotent(fold: Text -> Text, parts: Participations, c: Config)
    requires Validate(fold, parts, c).Some?
    ensures Validate(fold, parts, Validate(fold, parts, c).value) == Validate(fold, parts, c)
  {
    hide *;
    ValidatedIsNormal(fold, parts, c);
    NormalIsValidated(fold, parts, Validate(fold, parts, c).value);
  }

  // ----- Acceptance in terms of the configuration alone -----

  /** What is accepted: no key, identity or override twice, and every reference has its row. */
  lemma {:induction false} AcceptedOnRows(fold: Text -> Text, parts: Participations, c: Config)
    ensures Validate(fold, parts, c).Some?
       <==> && PlayersApart(fold, c.players)
            && (forall i, j :: 0 <= i < j < |c.groups| ==> c.groups[i].key != c.groups[j].key)
            && (forall i, j :: 0 <= i < j < |c.scopes| ==> c.scopes[i].key != c.scopes[j].key)
            && (forall i, j :: 0 <= i < j < |c.overrides| ==>
                  !(c.overrides[i].replay == c.overrides[j].replay && c.overrides[i].owner == c.overrides[j].owner))
            && (forall i :: 0 <= i < |c.overrides| ==>
                  HasPlayerKey(c, c.overrides[i].player)
                  && exists part :: part in parts && parts[part] == (c.overrides[i].replay, c.overrides[i].owner))
            && (forall i :: 0 <= i < |c.groups| ==> AllPlayers(c, c.groups[i].players))
            && (forall i :: 0 <= i < |c.scopes| ==>
                  && AllPlayers(c, c.scopes[i].own.players) && AllGroups(c, c.scopes[i].own.groups)
                  && AllPlayers(c, c.scopes[i].opponent.players) && AllGroups(c, c.scopes[i].opponent.groups))
  {
    PlayersOnRows(fold, c.players);
    SectionsOnRows(c);
    hide Consistent, PlayersApart, TidyPlayers, SortedOverrides, SortedGroups, SortedScopes, Pairwise, PlayersKnown, GroupsKnown, AllPlayers,
      AllGroups, PlayerKnown, HasPlayerKey;
    forall i | 0 <= i < |c.groups|
      ensures PlayersKnown(c, c.groups[i].players) <==> AllPlayers(c, c.groups[i].players)
    {
      KnownOnRows(c, c.groups[i].players);
    }
    forall i | 0 <= i < |c.scopes|
      ensures SelectorKnown(c, c.scopes[i].own) <==> AllPlayers(c, c.scopes[i].own.players) && AllGroups(c, c.scopes[i].own.groups)
      ensures SelectorKnown(c, c.scopes[i].opponent)
         <==> AllPlayers(c, c.scopes[i].opponent.players) && AllGroups(c, c.scopes[i].opponent.groups)
    {
      KnownOnRows(c, c.scopes[i].own.players);
      KnownOnRows(c, c.scopes[i].own.groups);
      KnownOnRows(c, c.scopes[i].opponent.players);
      KnownOnRows(c, c.scopes[i].opponent.groups);
    }
    forall i | 0 <= i < |c.overrides|
      ensures PlayerKnown(c.players, c.overrides[i].player) <==> HasPlayerKey(c, c.overrides[i].player)
      ensures Recorded(parts, (c.overrides[i].replay, c.overrides[i].owner))
         <==> exists part :: part in parts && parts[part] == (c.overrides[i].replay, c.overrides[i].owner)
    {
      SameKeyTest(c, c.overrides[i].player);
    }
    hide SelectorKnown, Recorded;
  }

  lemma {:induction false} SameKeyTest(c: Config, key: Text)
    ensures PlayerKnown(c.players, key) <==> HasPlayerKey(c, key)
  {
  }

  lemma {:induction false} KnownOnRows(c: Config, keys: seq<Text>)
    ensures PlayersKnown(c, keys) <==> AllPlayers(c, keys)
    ensures GroupsKnown(c, keys) <==> AllGroups(c, keys)
  {
    forall k | 0 <= k < |keys|
      ensures keys[k] in keys
    {
    }
    forall key
      ensures PlayerKnown(c.players, key) <==> HasPlayerKey(c, key)
    {
      SameKeyTest(c, key);
    }
    hide PlayerKnown, HasPlayerKey;
  }

  lemma {:induction false} SectionsOnRows(c: Config)
    ensures Pairwise(OtherGroup, c.groups) <==> forall i, j :: 0 <= i < j < |c.groups| ==> c.groups[i].key != c.groups[j].key
    ensures Pairwise(OtherScope, c.scopes) <==> forall i, j :: 0 <= i < j < |c.scopes| ==> c.scopes[i].key != c.scopes[j].key
    ensures Pairwise(OtherOverride, c.overrides)
       <==> forall i, j :: 0 <= i < j < |c.overrides| ==>
              !(c.overrides[i].replay == c.overrides[j].replay && c.overrides[i].owner == c.overrides[j].owner)
  {
  }

  /** No player key, and no identity, occurs twice. */
  ghost predicate PlayersApart(fold: Text -> Text, players: Catalog) {
    && (forall i, j :: 0 <= i < j < |players| ==>
          players[i].key != players[j].key
          && forall a, b :: a in players[i].aliases && b in players[j].aliases ==>
               !(a.namespace == b.namespace && fold(a.name) == fold(b.name)))
    && (forall i, k, l :: 0 <= i < |players| && 0 <= k < l < |players[i].aliases| ==>
          !(players[i].aliases[k].namespace == players[i].aliases[l].namespace
            && fold(players[i].aliases[k].name) == fold(players[i].aliases[l].name)))
  }

  lemma {:induction false} PlayersOnRows(fold: Text -> Text, players: Catalog)
    ensures Consistent(fold, players) <==> PlayersApart(fold, players)
  {
  }

  predicate HasPlayerKey(c: Config, key: Text) { exists i :: 0 <= i < |c.players| && c.players[i].key == key }

  predicate AllPlayers(c: Config, keys: seq<Text>) { forall k :: k in keys ==> HasPlayerKey(c, k) }

  predicate AllGroups(c: Config, keys: seq<Text>) {
    forall k :: k in keys ==> exists i :: 0 <= i < |c.groups| && c.groups[i].key == k
  }

  // ----- What the accepted configuration keeps -----

  ghost predicate SameTexts(s: seq<Text>, t: seq<Text>) { forall k :: k in s <==> k in t }

  /** The same group up to the order and repetition of its players. */
  ghost predicate SameGroup(g: Group, h: Group) { g.key == h.key && g.display == h.display && SameTexts(g.players, h.players) }

  ghost predicate SameScope(s: Scope, t: Scope) {
    && s.key == t.key && s.display == t.display && s.filters == t.filters && SameTexts(s.replays, t.replays)
    && SameTexts(s.own.players, t.own.players) && SameTexts(s.own.groups, t.own.groups)
    && SameTexts(s.opponent.players, t.opponent.players) && SameTexts(s.opponent.groups, t.opponent.groups)
  }

  lemma {:induction false} TidyKeeps(g: Group, s: Scope)
    ensures SameGroup(g, TidyGroup(g)) && SameScope(s, TidyScope(s))
  {
    ListedIs(g.players);
    ListedIs(s.replays);
    ListedIs(s.own.players);
    ListedIs(s.own.groups);
    ListedIs(s.opponent.players);
    ListedIs(s.opponent.groups);
    hide Listed, Ascending;
  }

  /** Validation keeps every player with its aliases, every group and scope with what it lists, and
      every override; it only sorts and drops repetitions. */
  lemma {:induction false} ValidatedKeeps(fold: Text -> Text, parts: Participations, c: Config, key: Text, display: Text, a: Alias, i: nat)
    requires Validate(fold, parts, c).Some?
    ensures var r := Validate(fold, parts, c).value;
            && (HasPlayer(r.players, key, display) <==> HasPlayer(c.players, key, display))
            && (HasAlias(r.players, key, a) <==> HasAlias(c.players, key, a))
            && multiset(r.overrides) == multiset(c.overrides)
            && |r.groups| == |c.groups| && |r.scopes| == |c.scopes|
            && (i < |c.groups| ==> exists h :: h in r.groups && SameGroup(c.groups[i], h))
            && (i < |c.scopes| ==> exists t :: t in r.scopes && SameScope(c.scopes[i], t))
  {
    hide Consistent, Normalize, HasPlayer, HasAlias, SameGroup, SameScope, TidyGroup, TidyScope;
    NormalizeKeeps(fold, c.players, key, display, a);
    if i < |c.groups| {
      TidyGroupKept(c.groups, i);
    }
    if i < |c.scopes| {
      TidyScopeKept(c.scopes, i);
    }
    hide SortedGroups, SortedScopes;
    SectionSizes(c);
  }

  lemma {:induction false} SectionSizes(c: Config)
    ensures |SortedGroups(c.groups)| == |c.groups| && |SortedScopes(c.scopes)| == |c.scopes|
  {
  }

  lemma {:induction false} TidyGroupKept(groups: seq<Group>, i: nat)
    requires i < |groups|
    ensures exists h :: h in SortedGroups(groups) && SameGroup(groups[i], h)
  {
    hide TidyGroup, SameGroup;
    var tidy := TidyGroups(groups);
    TidyKeeps(groups[i], Scope(0, 0, 0, Selector([], []), Selector([], []), []));
    assert tidy[i] == TidyGroup(groups[i]);
    SameMember(SortedGroups(groups), tidy, tidy[i]);
  }

  lemma {:induction false} TidyScopeKept(scopes: seq<Scope>, i: nat)
    requires i < |scopes|
    ensures exists t :: t in SortedScopes(scopes) && SameScope(scopes[i], t)
  {
    hide TidyScope, SameScope;
    var tidy := TidyScopes(scopes);
    TidyKeeps(Group(0, 0, []), scopes[i]);
    assert tidy[i] == TidyScope(scopes[i]);
    SameMember(SortedScopes(scopes), tidy, tidy[i]);
  }
}
