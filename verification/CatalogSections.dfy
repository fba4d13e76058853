/** The three keyed tables of the identity catalog (packages/corpus-store/python/identities.py):
    canonical_players, player_groups and query_scopes all map a surrogate id to a stable key and
    the columns that go with it, and are brought up to date by the same upsert loop. */
module CatalogSections {
  import opened AliasCatalog
  import opened Sorting

  type Id = int

  /** `filters` is the canonical text of a scope's filters; it is zero in the other tables. */
  datatype Named = Named(key: Text, display: Text, filters: Text)

  type Section = map<Id, Named>

  /** The UNIQUE constraint on the key column. */
  ghost predicate UniqueKeys(s: Section) {
    forall i, j :: i in s && j in s && s[i].key == s[j].key ==> i == j
  }

  predicate HasKey(s: Section, key: Text) { exists i :: i in s && s[i].key == key }

  /** The id SQLite gives to a new row. */
  function NextId(s: Section): Id { if s.Keys == {} then 1 else Greatest(s.Keys) + 1 }

  lemma {:induction false} NextIdIsNew(s: Section)
    ensures NextId(s) !in s
  {
    if s.Keys != {} {
      assert forall i :: i in s ==> i in s.Keys;
    }
  }

  /** Where INSERT ... ON CONFLICT(key) DO UPDATE writes a row with this key. */
  predicate Places(s: Section, key: Text, id: Id) {
    if HasKey(s, key) then id in s && s[id].key == key else id !in s
  }

  lemma {:induction false} PlacingKeepsOthers(s: Section, row: Named, id: Id)
    requires UniqueKeys(s) && Places(s, row.key, id)
    ensures UniqueKeys(s[id := row])
    ensures forall i :: i in s ==> s[id := row][i].key == s[i].key
  {
  }

  /** DELETE ... WHERE key NOT IN (...). */
  function KeepOnly(s: Section, keys: set<Text>): Section { map i | i in s && s[i].key in keys :: s[i] }

  // ----- Bringing a section up to date -----

  ghost predicate DistinctRows(rows: seq<Named>) { forall i, j :: 0 <= i < j < |rows| ==> rows[i].key != rows[j].key }

  /** The section holds exactly the given rows, and `ids` finds them. */
  ghost predicate Holds(s: Section, rows: seq<Named>, ids: map<Text, Id>) {
    && UniqueKeys(s)
    && (forall n :: 0 <= n < |rows| ==> rows[n].key in ids && ids[rows[n].key] in s && s[ids[rows[n].key]] == rows[n])
    && (forall i :: i in s ==> exists n :: 0 <= n < |rows| && rows[n].key == s[i].key)
  }

  /** Keys present before and after keep their surrogate ids. */
  ghost predicate KeepsIds(s: Section, t: Section) {
    forall i, j :: i in s && j in t && s[i].key == t[j].key ==> i == j
  }

  ghost predicate Among(rows: seq<Named>, n: nat, key: Text) { exists k :: 0 <= k < n <= |rows| && rows[k].key == key }

  /** The state of the upsert loop after `n` rows. */
  ghost predicate Upserted(s: Section, t: Section, rows: seq<Named>, n: nat, ids: map<Text, Id>) {
    && n <= |rows| && UniqueKeys(t)
    && (forall i :: i in s ==> i in t && t[i].key == s[i].key)
    && (forall k :: 0 <= k < n ==> rows[k].key in ids && ids[rows[k].key] in t && t[ids[rows[k].key]] == rows[k])
    && (forall key :: key in ids <==> Among(rows, n, key))
  }

  lemma {:induction false} UpsertAdvances(s: Section, t: Section, rows: seq<Named>, n: nat, ids: map<Text, Id>, id: Id)
    requires Upserted(s, t, rows, n, ids) && n < |rows| && DistinctRows(rows) && Places(t, rows[n].key, id)
    ensures Upserted(s, t[id := rows[n]], rows, n + 1, ids[rows[n].key := id])
  {
    var row, t', ids' := rows[n], t[id := rows[n]], ids[rows[n].key := id];
    PlacingKeepsOthers(t, row, id);
    hide UniqueKeys, HasKey;
    forall k | 0 <= k < n
      ensures rows[k].key in ids && ids[rows[k].key] in t' && t'[ids[rows[k].key]] == rows[k] && rows[k].key != row.key
    {
      assert ids[rows[k].key] in t && t[ids[rows[k].key]] == rows[k];
      assert t'[ids[rows[k].key]].key == rows[k].key;
    }
    forall key
      ensures key in ids' <==> Among(rows, n + 1, key)
    {
      assert key in ids <==> Among(rows, n, key);
    }
  }

  lemma {:induction false} UpsertsDone(s: Section, t: Section, rows: seq<Named>, ids: map<Text, Id>)
    requires Upserted(s, t, rows, |rows|, ids) && UniqueKeys(s)
    ensures Holds(KeepOnly(t, ids.Keys), rows, ids) && KeepsIds(s, KeepOnly(t, ids.Keys))
  {
    var u := KeepOnly(t, ids.Keys);
    forall n | 0 <= n < |rows|
      ensures rows[n].key in ids && ids[rows[n].key] in u && u[ids[rows[n].key]] == rows[n]
    {
    }
    forall i | i in u
      ensures exists n :: 0 <= n < |rows| && rows[n].key == u[i].key
    {
      assert u[i].key in ids;
    }
    forall i, j | i in s && j in u && s[i].key == u[j].key
      ensures i == j
    {
      assert i in t && j in t && t[i].key == t[j].key;
    }
  }

  method Place(s: Section, key: Text) returns (id: Id)
    ensures Places(s, key, id)
  {
    if HasKey(s, key) {
      id :| id in s && s[id].key == key;
    } else {
      NextIdIsNew(s);
      id := NextId(s);
    }
  }

  /** One iteration of the section loop of `apply_catalog`. */
  method UpdateSection(s: Section, rows: seq<Named>) returns (t: Section, ids: map<Text, Id>)
    requires UniqueKeys(s) && DistinctRows(rows)
    ensures Holds(t, rows, ids) && KeepsIds(s, t)
  {
    hide *;
    t, ids := s, map[];
    UpsertsStart(s, rows);
    for n := 0 to |rows|
      invariant Upserted(s, t, rows, n, ids)
    {
      var id := Place(t, rows[n].key);
      UpsertAdvances(s, t, rows, n, ids, id);
      t, ids := t[id := rows[n]], ids[rows[n].key := id];
    }
    UpsertsDone(s, t, rows, ids);
    t := KeepOnly(t, ids.Keys);
  }

  lemma {:induction false} UpsertsStart(s: Section, rows: seq<Named>)
    requires UniqueKeys(s)
    ensures Upserted(s, s, rows, 0, map[])
  {
  }
}
