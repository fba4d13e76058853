/** The community alias import (packages/corpus-store/python/identity_import.py,
    `merge_catalog`): rows propose aliases for known players; an identity that several players
    or another player already claim is a conflict and is left alone.  What the merge adds is
    stated by membership in the rows, so neither their order nor their repetition matters. */
module AliasMerge {
  import opened AliasCatalog
  import opened Options
  import opened Sorting

  datatype Row = Row(key: Text, display: Option<Text>, namespace: Text, alias: Text, number: nat)

  datatype Conflict =
    | AliasCollision(id: Ident, existing: Text, imported: Text)
    | DisplayMismatch(number: nat, key: Text)
    | InputCollision(id: Ident, targets: set<Text>)
    | UnknownPlayer(number: nat, key: Text)

  datatype Merged = Merged(catalog: Catalog, added: nat, kept: nat, conflicts: seq<Conflict>)

  function RowIdent(fold: Text -> Text, r: Row): Ident { (r.namespace, fold(r.alias)) }

  // ----- What the merge is to do -----

  predicate Known(c: Catalog, key: Text) { exists i :: 0 <= i < |c| && c[i].key == key }

  /** The row names a known player, and that player's display name if any. */
  predicate Eligible(c: Catalog, r: Row) {
    exists i :: 0 <= i < |c| && c[i].key == r.key && (r.display.None? || r.display.value == c[i].display)
  }

  /** An eligible row for the identity. */
  ghost predicate Proposes(fold: Text -> Text, c: Catalog, rows: seq<Row>, id: Ident, r: Row) {
    r in rows && Eligible(c, r) && RowIdent(fold, r) == id
  }

  ghost predicate Owns(fold: Text -> Text, c: Catalog, id: Ident, key: Text) {
    exists i, a :: 0 <= i < |c| && c[i].key == key && a in c[i].aliases && IdentOf(fold, a) == id
  }

  ghost predicate Unclaimed(fold: Text -> Text, c: Catalog, id: Ident) { forall key :: !Owns(fold, c, id, key) }

  /** Some row proposes the identity, and every such row is for this player. */
  ghost predicate Agreed(fold: Text -> Text, c: Catalog, rows: seq<Row>, id: Ident, key: Text) {
    && (exists r :: Proposes(fold, c, rows, id, r))
    && (forall r :: Proposes(fold, c, rows, id, r) ==> r.key == key)
  }

  /** The least name among the rows that propose an identity. */
  ghost predicate IsChosen(fold: Text -> Text, c: Catalog, rows: seq<Row>, id: Ident, name: Text) {
    && (exists r :: Proposes(fold, c, rows, id, r) && r.alias == name)
    && (forall r :: Proposes(fold, c, rows, id, r) ==> name <= r.alias)
  }

  /** The merge adds alias `a` to the player `key`. */
  ghost predicate Adds(fold: Text -> Text, c: Catalog, rows: seq<Row>, key: Text, a: Alias) {
    var id := IdentOf(fold, a);
    Unclaimed(fold, c, id) && Agreed(fold, c, rows, id, key) && IsChosen(fold, c, rows, id, a.name)
  }

  ghost function Proposed(fold: Text -> Text, rows: seq<Row>): set<Ident> { set r | r in rows :: RowIdent(fold, r) }

  ghost predicate IsNew(fold: Text -> Text, c: Catalog, rows: seq<Row>, id: Ident) {
    Unclaimed(fold, c, id) && exists key :: Agreed(fold, c, rows, id, key)
  }

  ghost predicate IsKept(fold: Text -> Text, c: Catalog, rows: seq<Row>, id: Ident) {
    exists key :: Owns(fold, c, id, key) && Agreed(fold, c, rows, id, key)
  }

  ghost function NewIdents(fold: Text -> Text, c: Catalog, rows: seq<Row>): set<Ident> {
    set id | id in Proposed(fold, rows) && IsNew(fold, c, rows, id)
  }

  ghost function KeptIdents(fold: Text -> Text, c: Catalog, rows: seq<Row>): set<Ident> {
    set id | id in Proposed(fold, rows) && IsKept(fold, c, rows, id)
  }

  /** Some row proposes the identity for this player. */
  ghost predicate IsTarget(fold: Text -> Text, c: Catalog, rows: seq<Row>, id: Ident, key: Text) {
    exists r :: Proposes(fold, c, rows, id, r) && r.key == key
  }

  ghost predicate IsRowConflict(c: Catalog, rows: seq<Row>, x: Conflict) {
    match x
    case UnknownPlayer(number, key) => exists r :: r in rows && r.number == number && r.key == key && !Known(c, key)
    case DisplayMismatch(number, key) =>
      exists r :: r in rows && r.number == number && r.key == key && Known(c, key) && !Eligible(c, r)
    case _ => false
  }

  ghost predicate IsIdentConflict(fold: Text -> Text, c: Catalog, rows: seq<Row>, x: Conflict) {
    match x
    case InputCollision(id, targets) =>
      && (forall key :: key in targets <==> IsTarget(fold, c, rows, id, key))
      && (exists key :: key in targets) && !exists key :: targets == {key}
    case AliasCollision(id, existing, imported) =>
      Owns(fold, c, id, existing) && Agreed(fold, c, rows, id, imported) && existing != imported
    case _ => false
  }

  /** What `merge_catalog` promises about its result, for the normalized base `c`. */
  ghost predicate IsMerge(fold: Text -> Text, c: Catalog, rows: seq<Row>, m: Merged) {
    && Normal(fold, m.catalog)
    && (forall key, display :: HasPlayer(m.catalog, key, display) <==> HasPlayer(c, key, display))
    && (forall key, a :: HasAlias(m.catalog, key, a) <==> HasAlias(c, key, a) || Adds(fold, c, rows, key, a))
    && m.added == |NewIdents(fold, c, rows)| && m.kept == |KeptIdents(fold, c, rows)|
    && (forall x :: x in m.conflicts <==> IsRowConflict(c, rows, x) || IsIdentConflict(fold, c, rows, x))
    && EachReported(c, rows, m.conflicts) && SortedBy(ConflictBefore, m.conflicts)
  }

  /** A row's conflict is reported once for every such row, an identity's conflict once. */
  ghost predicate EachReported(c: Catalog, rows: seq<Row>, conflicts: seq<Conflict>) {
    forall x :: multiset(conflicts)[x] == TimesReported(c, rows, conflicts, x)
  }

  ghost function TimesReported(c: Catalog, rows: seq<Row>, conflicts: seq<Conflict>, x: Conflict): nat {
    if x.UnknownPlayer? || x.DisplayMismatch? then |RowsRejected(c, rows, x)| else if x in conflicts then 1 else 0
  }

  ghost function RowsRejected(c: Catalog, rows: seq<Row>, x: Conflict): set<nat> {
    set i: nat | i < |rows| && RejectsRow(c, rows[i], x)
  }

  // ----- The result does not depend on the order of the rows -----

  /** The same row up to its number. */
  predicate SameContent(r: Row, s: Row) {
    r.key == s.key && r.display == s.display && r.namespace == s.namespace && r.alias == s.alias
  }

  /** Every row of the one list has its like in the other. */
  ghost predicate Covers(rows: seq<Row>, others: seq<Row>) {
    forall r :: r in rows ==> exists s :: s in others && SameContent(r, s)
  }

  ghost predicate SameRows(rows: seq<Row>, others: seq<Row>) { Covers(rows, others) && Covers(others, rows) }

  lemma {:induction false} ProposalCarriesOver(fold: Text -> Text, c: Catalog, rows: seq<Row>, others: seq<Row>, id: Ident, r: Row)
    returns (s: Row)
    requires Covers(rows, others) && Proposes(fold, c, rows, id, r)
    ensures Proposes(fold, c, others, id, s) && SameContent(r, s)
  {
    s :| s in others && SameContent(r, s);
    EligibleByContent(c, r, s);
  }

  lemma {:induction false} EligibleByContent(c: Catalog, r: Row, s: Row)
    requires SameContent(r, s)
    ensures Eligible(c, r) <==> Eligible(c, s)
  {
  }

  lemma {:induction false} AgreementCarriesOver(fold: Text -> Text, c: Catalog, rows: seq<Row>, others: seq<Row>, id: Ident, key: Text)
    requires SameRows(rows, others)
    ensures Agreed(fold, c, rows, id, key) ==> Agreed(fold, c, others, id, key)
  {
    hide Proposes, Covers;
    if Agreed(fold, c, rows, id, key) {
      var r :| Proposes(fold, c, rows, id, r);
      var s := ProposalCarriesOver(fold, c, rows, others, id, r);
      forall t | Proposes(fold, c, others, id, t)
        ensures t.key == key
      {
        var u := ProposalCarriesOver(fold, c, others, rows, id, t);
      }
    }
  }

  lemma {:induction false} ChoiceCarriesOver(fold: Text -> Text, c: Catalog, rows: seq<Row>, others: seq<Row>, id: Ident, name: Text)
    requires SameRows(rows, others)
    ensures IsChosen(fold, c, rows, id, name) ==> IsChosen(fold, c, others, id, name)
  {
    hide Proposes, Covers;
    if IsChosen(fold, c, rows, id, name) {
      var r :| Proposes(fold, c, rows, id, r) && r.alias == name;
      var s := ProposalCarriesOver(fold, c, rows, others, id, r);
      forall t | Proposes(fold, c, others, id, t)
        ensures name <= t.alias
      {
        var u := ProposalCarriesOver(fold, c, others, rows, id, t);
      }
    }
  }

  lemma {:induction false} TargetCarriesOver(fold: Text -> Text, c: Catalog, rows: seq<Row>, others: seq<Row>, id: Ident, key: Text)
    requires SameRows(rows, others)
    ensures IsTarget(fold, c, rows, id, key) ==> IsTarget(fold, c, others, id, key)
  {
    hide Proposes, Covers;
    if IsTarget(fold, c, rows, id, key) {
      var r :| Proposes(fold, c, rows, id, r) && r.key == key;
      var s := ProposalCarriesOver(fold, c, rows, others, id, r);
    }
  }

  /** The identities in dispute are the same too. */
  lemma {:induction false} DisputesCarryOver(fold: Text -> Text, c: Catalog, rows: seq<Row>, others: seq<Row>, x: Conflict)
    requires SameRows(rows, others)
    ensures IsIdentConflict(fold, c, rows, x) <==> IsIdentConflict(fold, c, others, x)
  {
    hide SameRows, Agreed, IsTarget, Owns;
    SwapRows(rows, others);
    if x.InputCollision? {
      forall key
        ensures IsTarget(fold, c, rows, x.id, key) <==> IsTarget(fold, c, others, x.id, key)
      {
        TargetCarriesOver(fold, c, rows, others, x.id, key);
        TargetCarriesOver(fold, c, others, rows, x.id, key);
      }
    } else if x.AliasCollision? {
      AgreementCarriesOver(fold, c, rows, others, x.id, x.imported);
      AgreementCarriesOver(fold, c, others, rows, x.id, x.imported);
    }
  }

  lemma {:induction false} DisputesReported(fold: Text -> Text, c: Catalog, rows: seq<Row>, m: Merged, x: Conflict)
    requires IsMerge(fold, c, rows, m) && (x.AliasCollision? || x.InputCollision?)
    ensures x in m.conflicts <==> IsIdentConflict(fold, c, rows, x)
  {
    hide Normal, IsIdentConflict, HasPlayer, HasAlias, NewIdents, KeptIdents, Adds;
  }

  lemma {:induction false} ProposedCarriesOver(fold: Text -> Text, rows: seq<Row>, others: seq<Row>)
    requires SameRows(rows, others)
    ensures Proposed(fold, rows) == Proposed(fold, others)
  {
    ProposedCovers(fold, rows, others);
    ProposedCovers(fold, others, rows);
  }

  lemma {:induction false} ProposedCovers(fold: Text -> Text, rows: seq<Row>, others: seq<Row>)
    requires Covers(rows, others)
    ensures Proposed(fold, rows) <= Proposed(fold, others)
  {
    forall id | id in Proposed(fold, rows)
      ensures id in Proposed(fold, others)
    {
      var r :| r in rows && RowIdent(fold, r) == id;
      var s :| s in others && SameContent(r, s);
      assert RowIdent(fold, s) == id;
    }
  }

  /** Permuting, repeating or renumbering the rows changes neither the catalog nor the counts,
      nor which identities are reported as disputed. */
  lemma {:induction false} MergeIgnoresOrder(fold: Text -> Text, c: Catalog, rows: seq<Row>, others: seq<Row>, m: Merged, n: Merged)
    requires IsMerge(fold, c, rows, m) && IsMerge(fold, c, others, n) && SameRows(rows, others)
    ensures m.catalog == n.catalog && m.added == n.added && m.kept == n.kept
    ensures forall x: Conflict :: x.AliasCollision? || x.InputCollision? ==> (x in m.conflicts <==> x in n.conflicts)
  {
    SameResult(fold, c, rows, others, m, n);
    hide *;
    forall x: Conflict | x.AliasCollision? || x.InputCollision?
      ensures x in m.conflicts <==> x in n.conflicts
    {
      DisputesReported(fold, c, rows, m, x);
      DisputesReported(fold, c, others, n, x);
      DisputesCarryOver(fold, c, rows, others, x);
    }
  }

  lemma {:induction false} SameResult(fold: Text -> Text, c: Catalog, rows: seq<Row>, others: seq<Row>, m: Merged, n: Merged)
    requires IsMerge(fold, c, rows, m) && IsMerge(fold, c, others, n) && SameRows(rows, others)
    ensures m.catalog == n.catalog && m.added == n.added && m.kept == n.kept
  {
    hide Normal, Agreed, IsChosen, SameRows, HasPlayer, HasAlias, Unclaimed, Owns;
    forall id, key
      ensures Agreed(fold, c, rows, id, key) <==> Agreed(fold, c, others, id, key)
      ensures IsChosen(fold, c, rows, id, key) <==> IsChosen(fold, c, others, id, key)
    {
      SwapRows(rows, others);
      AgreementCarriesOver(fold, c, rows, others, id, key);
      AgreementCarriesOver(fold, c, others, rows, id, key);
      ChoiceCarriesOver(fold, c, rows, others, id, key);
      ChoiceCarriesOver(fold, c, others, rows, id, key);
    }
    ProposedCarriesOver(fold, rows, others);
    assert NewIdents(fold, c, rows) == NewIdents(fold, c, others);
    assert KeptIdents(fold, c, rows) == KeptIdents(fold, c, others);
    NormalIsUnique(fold, m.catalog, n.catalog);
  }

  lemma {:induction false} SwapRows(rows: seq<Row>, others: seq<Row>)
    requires SameRows(rows, others)
    ensures SameRows(others, rows)
  {
  }

  // ----- Merging again changes nothing -----

  lemma {:induction false} SamePlayersSameRows(c: Catalog, d: Catalog, r: Row)
    requires forall key, display :: HasPlayer(d, key, display) <==> HasPlayer(c, key, display)
    ensures Eligible(d, r) <==> Eligible(c, r)
  {
    if Eligible(d, r) {
      var i :| 0 <= i < |d| && d[i].key == r.key && (r.display.None? || r.display.value == d[i].display);
      assert HasPlayer(d, d[i].key, d[i].display);
      assert HasPlayer(c, d[i].key, d[i].display);
    }
    if Eligible(c, r) {
      var i :| 0 <= i < |c| && c[i].key == r.key && (r.display.None? || r.display.value == c[i].display);
      assert HasPlayer(c, c[i].key, c[i].display);
      assert HasPlayer(d, c[i].key, c[i].display);
    }
  }

  lemma {:induction false} OwnsByAlias(fold: Text -> Text, c: Catalog, id: Ident, key: Text)
    ensures Owns(fold, c, id, key) <==> exists a :: HasAlias(c, key, a) && IdentOf(fold, a) == id
  {
    if Owns(fold, c, id, key) {
      var i, a :| 0 <= i < |c| && c[i].key == key && a in c[i].aliases && IdentOf(fold, a) == id;
      assert HasAlias(c, key, a);
    }
  }

  /** In a normal catalog an identity has at most one owner. */
  lemma {:induction false} OwnerIsUnique(fold: Text -> Text, c: Catalog, id: Ident, key: Text, other: Text)
    requires Normal(fold, c) && Owns(fold, c, id, key) && Owns(fold, c, id, other)
    ensures key == other
  {
    hide Consistent;
    var i, a :| 0 <= i < |c| && c[i].key == key && a in c[i].aliases && IdentOf(fold, a) == id;
    var j, b :| 0 <= j < |c| && c[j].key == other && b in c[j].aliases && IdentOf(fold, b) == id;
    if i < j {
      IdentsDiffer(fold, c, i, j, a, b);
    } else if j < i {
      IdentsDiffer(fold, c, j, i, b, a);
    }
  }

  /** Some row has the least name. */
  lemma {:induction false} LeastName(rows: seq<Row>, n: nat, wanted: Row -> bool) returns (best: Row)
    requires n <= |rows| && exists i :: 0 <= i < n && wanted(rows[i])
    ensures best in rows[..n] && wanted(best) && forall i :: 0 <= i < n && wanted(rows[i]) ==> best.alias <= rows[i].alias
  {
    if exists i :: 0 <= i < n - 1 && wanted(rows[i]) {
      best := LeastName(rows, n - 1, wanted);
      if wanted(rows[n - 1]) && rows[n - 1].alias < best.alias {
        best := rows[n - 1];
      }
      assert rows[..n] == rows[..n - 1] + [rows[n - 1]];
    } else {
      best := rows[n - 1];
      assert best in rows[..n];
    }
  }

  lemma {:induction false} ChoiceExists(fold: Text -> Text, c: Catalog, rows: seq<Row>, id: Ident) returns (name: Text)
    requires exists r :: Proposes(fold, c, rows, id, r)
    ensures IsChosen(fold, c, rows, id, name)
  {
    hide Eligible, RowIdent;
    var r :| Proposes(fold, c, rows, id, r);
    var i :| 0 <= i < |rows| && rows[i] == r;
    var wanted := (s: Row) => Eligible(c, s) && RowIdent(fold, s) == id;
    assert wanted(rows[i]);
    var best := LeastName(rows, |rows|, wanted);
    name := best.alias;
    assert Proposes(fold, c, rows, id, best);
  }

  /** The player who gets an agreed, unclaimed identity owns it afterwards. */
  lemma {:induction false} NewIsOwned(fold: Text -> Text, c: Catalog, rows: seq<Row>, m: Merged, id: Ident, key: Text)
    requires IsMerge(fold, c, rows, m) && Unclaimed(fold, c, id) && Agreed(fold, c, rows, id, key)
    ensures Owns(fold, m.catalog, id, key)
  {
    var name := ChoiceExists(fold, c, rows, id);
    hide Normal, Agreed, IsChosen, Owns, HasAlias;
    var a := Alias(id.0, name);
    AliasIdent(fold, c, rows, id, name);
    assert Adds(fold, c, rows, key, a);
    assert HasAlias(m.catalog, key, a);
    OwnsByAlias(fold, m.catalog, id, key);
  }

  lemma {:induction false} AliasIdent(fold: Text -> Text, c: Catalog, rows: seq<Row>, id: Ident, name: Text)
    requires IsChosen(fold, c, rows, id, name)
    ensures IdentOf(fold, Alias(id.0, name)) == id
  {
  }

  /** Who owns an identity after the merge. */
  lemma {:induction false} OwnedAfter(fold: Text -> Text, c: Catalog, rows: seq<Row>, m: Merged, id: Ident, key: Text)
    requires IsMerge(fold, c, rows, m)
    ensures Owns(fold, m.catalog, id, key)
        <==> Owns(fold, c, id, key) || (Unclaimed(fold, c, id) && Agreed(fold, c, rows, id, key))
  {
    if Unclaimed(fold, c, id) && Agreed(fold, c, rows, id, key) {
      NewIsOwned(fold, c, rows, m, id, key);
    }
    OwnsByAlias(fold, m.catalog, id, key);
    OwnsByAlias(fold, c, id, key);
    hide Normal, Agreed, IsChosen, Owns, HasAlias, Unclaimed;
  }

  lemma {:induction false} AgreedAfter(fold: Text -> Text, c: Catalog, rows: seq<Row>, m: Merged, id: Ident, key: Text)
    requires IsMerge(fold, c, rows, m)
    ensures Agreed(fold, m.catalog, rows, id, key) <==> Agreed(fold, c, rows, id, key)
  {
    hide Eligible, Normal, HasPlayer, RowIdent;
    forall r
      ensures Proposes(fold, m.catalog, rows, id, r) <==> Proposes(fold, c, rows, id, r)
    {
      SamePlayersSameRows(c, m.catalog, r);
    }
    hide Proposes;
  }

  /** An identity that was new or kept is kept by a second merge, and nothing is new any more. */
  lemma {:induction false} IdentAfter(fold: Text -> Text, c: Catalog, rows: seq<Row>, m: Merged, id: Ident)
    requires Normal(fold, c) && IsMerge(fold, c, rows, m)
    ensures !IsNew(fold, m.catalog, rows, id)
    ensures IsKept(fold, m.catalog, rows, id) <==> IsNew(fold, c, rows, id) || IsKept(fold, c, rows, id)
  {
    forall key
      ensures Agreed(fold, m.catalog, rows, id, key) <==> Agreed(fold, c, rows, id, key)
      ensures Owns(fold, m.catalog, id, key)
          <==> Owns(fold, c, id, key) || (Unclaimed(fold, c, id) && Agreed(fold, c, rows, id, key))
    {
      AgreedAfter(fold, c, rows, m, id, key);
      OwnedAfter(fold, c, rows, m, id, key);
    }
    hide Agreed, Owns, IsMerge, Normal;
  }

  lemma {:induction false} IdentSetsAfter(fold: Text -> Text, c: Catalog, rows: seq<Row>, m: Merged)
    requires Normal(fold, c) && IsMerge(fold, c, rows, m)
    ensures NewIdents(fold, m.catalog, rows) == {}
    ensures |KeptIdents(fold, m.catalog, rows)| == m.added + m.kept
  {
    forall id
      ensures !IsNew(fold, m.catalog, rows, id)
      ensures IsKept(fold, m.catalog, rows, id) <==> IsNew(fold, c, rows, id) || IsKept(fold, c, rows, id)
      ensures IsNew(fold, c, rows, id) ==> !IsKept(fold, c, rows, id)
    {
      IdentAfter(fold, c, rows, m, id);
    }
    assert m.added == |NewIdents(fold, c, rows)| && m.kept == |KeptIdents(fold, c, rows)|;
    hide IsNew, IsKept, IsMerge, Normal;
    assert KeptIdents(fold, m.catalog, rows) == NewIdents(fold, c, rows) + KeptIdents(fold, c, rows);
    assert NewIdents(fold, c, rows) !! KeptIdents(fold, c, rows);
  }

  lemma {:induction false} NothingToAdd(fold: Text -> Text, c: Catalog, rows: seq<Row>, m: Merged, key: Text, a: Alias)
    requires Normal(fold, c) && IsMerge(fold, c, rows, m)
    ensures !Adds(fold, m.catalog, rows, key, a)
  {
    IdentAfter(fold, c, rows, m, IdentOf(fold, a));
    if Adds(fold, m.catalog, rows, key, a) {
      AddedIsNew(fold, m.catalog, rows, key, a);
    }
  }

  /** Merging the same rows again changes nothing and adds nothing. */
  lemma {:induction false} MergeIsIdempotent(fold: Text -> Text, c: Catalog, rows: seq<Row>, m: Merged, n: Merged)
    requires Normal(fold, c) && IsMerge(fold, c, rows, m) && IsMerge(fold, m.catalog, rows, n)
    ensures n.catalog == m.catalog && n.added == 0 && n.kept == m.added + m.kept
  {
    hide Normal, NewIdents, KeptIdents, IsRowConflict, IsIdentConflict, HasPlayer, HasAlias, Adds;
    IdentSetsAfter(fold, c, rows, m);
    forall key, a
      ensures !Adds(fold, m.catalog, rows, key, a)
    {
      NothingToAdd(fold, c, rows, m, key, a);
    }
    NormalIsUnique(fold, m.catalog, n.catalog);
  }

  lemma {:induction false} AddedIsNew(fold: Text -> Text, c: Catalog, rows: seq<Row>, key: Text, a: Alias)
    requires Adds(fold, c, rows, key, a)
    ensures IsNew(fold, c, rows, IdentOf(fold, a))
  {
  }

  // ----- An import without conflicts is complete -----

  /** With no conflict reported, every row's identity ends up with the row's own player. */
  lemma {:induction false} CleanImportIsComplete(fold: Text -> Text, c: Catalog, rows: seq<Row>, m: Merged, r: Row)
    requires IsMerge(fold, c, rows, m) && m.conflicts == [] && r in rows
    ensures Owns(fold, m.catalog, RowIdent(fold, r), r.key)
  {
    var id := RowIdent(fold, r);
    NoConflict(fold, c, rows, m);
    RowIsEligible(c, rows, r);
    assert Proposes(fold, c, rows, id, r);
    RowsAgree(fold, c, rows, id, r);
    hide IsMerge, Agreed, IsRowConflict, Proposes;
    OwnedAfter(fold, c, rows, m, id, r.key);
    if !Unclaimed(fold, c, id) {
      var key :| Owns(fold, c, id, key);
      assert !IsIdentConflict(fold, c, rows, AliasCollision(id, key, r.key));
    }
  }

  lemma {:induction false} NoConflict(fold: Text -> Text, c: Catalog, rows: seq<Row>, m: Merged)
    requires IsMerge(fold, c, rows, m) && m.conflicts == []
    ensures forall x :: !IsRowConflict(c, rows, x) && !IsIdentConflict(fold, c, rows, x)
  {
    hide Normal, IsRowConflict, IsIdentConflict, HasPlayer, HasAlias, NewIdents, KeptIdents, Adds;
  }

  lemma {:induction false} RowIsEligible(c: Catalog, rows: seq<Row>, r: Row)
    requires r in rows && forall x :: !IsRowConflict(c, rows, x)
    ensures Eligible(c, r)
  {
    hide Known, Eligible;
    assert !IsRowConflict(c, rows, UnknownPlayer(r.number, r.key));
    assert !IsRowConflict(c, rows, DisplayMismatch(r.number, r.key));
  }

  lemma {:induction false} RowsAgree(fold: Text -> Text, c: Catalog, rows: seq<Row>, id: Ident, r: Row)
    requires Proposes(fold, c, rows, id, r) && forall x :: !IsIdentConflict(fold, c, rows, x)
    ensures Agreed(fold, c, rows, id, r.key)
  {
    hide Eligible, RowIdent;
    var targets := set s | s in rows && Proposes(fold, c, rows, id, s) :: s.key;
    forall key
      ensures key in targets <==> IsTarget(fold, c, rows, id, key)
    {
    }
    assert !IsIdentConflict(fold, c, rows, InputCollision(id, targets));
    assert r.key in targets;
    forall s | Proposes(fold, c, rows, id, s)
      ensures s.key == r.key
    {
      assert s.key in targets;
    }
  }

  // ----- One identity -----

  datatype Verdict = Collide(targets: set<Text>) | Clash(existing: Text, imported: Text) | Keep | Add(target: Text, name: Text)

  ghost predicate IsVerdict(fold: Text -> Text, c: Catalog, rows: seq<Row>, id: Ident, v: Verdict) {
    match v
    case Collide(targets) => IsIdentConflict(fold, c, rows, InputCollision(id, targets))
    case Clash(existing, imported) => IsIdentConflict(fold, c, rows, AliasCollision(id, existing, imported))
    case Keep => IsKept(fold, c, rows, id)
    case Add(target, name) => IdentOf(fold, Alias(id.0, name)) == id && Adds(fold, c, rows, target, Alias(id.0, name))
  }

  predicate ConflictOf(x: Conflict, id: Ident) { (x.AliasCollision? || x.InputCollision?) && x.id == id }

  /** The conflict that a verdict reports. */
  predicate Reports(v: Verdict, id: Ident, x: Conflict) {
    (v.Collide? && x == InputCollision(id, v.targets)) || (v.Clash? && x == AliasCollision(id, v.existing, v.imported))
  }

  lemma {:induction false} AgreedIsUnique(fold: Text -> Text, c: Catalog, rows: seq<Row>, id: Ident, key: Text, other: Text)
    requires Agreed(fold, c, rows, id, key) && Agreed(fold, c, rows, id, other)
    ensures key == other
  {
  }

  lemma {:induction false} CollisionDisagrees(fold: Text -> Text, c: Catalog, rows: seq<Row>, id: Ident, targets: set<Text>, key: Text)
    requires IsIdentConflict(fold, c, rows, InputCollision(id, targets))
    ensures !Agreed(fold, c, rows, id, key)
  {
    if Agreed(fold, c, rows, id, key) {
      AgreedTargets(fold, c, rows, id, targets, key);
    }
  }

  lemma {:induction false} AgreedTargets(fold: Text -> Text, c: Catalog, rows: seq<Row>, id: Ident, targets: set<Text>, key: Text)
    requires forall k :: k in targets <==> IsTarget(fold, c, rows, id, k)
    requires Agreed(fold, c, rows, id, key)
    ensures targets == {key}
  {
    hide Proposes;
    var r :| Proposes(fold, c, rows, id, r);
    assert IsTarget(fold, c, rows, id, key);
    forall k
      ensures k in targets <==> k in {key}
    {
      if k in targets {
        assert IsTarget(fold, c, rows, id, k);
      }
    }
  }

  /** What follows from a verdict for the identity: the four cases exclude each other. */
  lemma {:induction false} VerdictDecides(fold: Text -> Text, c: Catalog, rows: seq<Row>, id: Ident, v: Verdict)
    requires Normal(fold, c) && IsVerdict(fold, c, rows, id, v)
    ensures IsNew(fold, c, rows, id) <==> v.Add?
    ensures IsKept(fold, c, rows, id) <==> v.Keep?
  {
    hide Normal, IsChosen, Proposes, Owns;
    forall key, other
      ensures Agreed(fold, c, rows, id, key) && Agreed(fold, c, rows, id, other) ==> key == other
      ensures Owns(fold, c, id, key) && Owns(fold, c, id, other) ==> key == other
    {
      if Agreed(fold, c, rows, id, key) && Agreed(fold, c, rows, id, other) {
        AgreedIsUnique(fold, c, rows, id, key, other);
      }
      if Owns(fold, c, id, key) && Owns(fold, c, id, other) {
        OwnerIsUnique(fold, c, id, key, other);
      }
    }
    if v.Collide? {
      forall key
        ensures !Agreed(fold, c, rows, id, key)
      {
        CollisionDisagrees(fold, c, rows, id, v.targets, key);
      }
    }
    hide Agreed;
  }

  lemma {:induction false} VerdictAdds(fold: Text -> Text, c: Catalog, rows: seq<Row>, id: Ident, v: Verdict, key: Text, a: Alias)
    requires Normal(fold, c) && IsVerdict(fold, c, rows, id, v) && IdentOf(fold, a) == id
    ensures Adds(fold, c, rows, key, a) <==> v.Add? && key == v.target && a == Alias(id.0, v.name)
  {
    VerdictDecides(fold, c, rows, id, v);
    if Adds(fold, c, rows, key, a) {
      AddedIsNew(fold, c, rows, key, a);
      AgreedIsUnique(fold, c, rows, id, key, v.target);
      ChoiceIsUnique(fold, c, rows, id, a.name, v.name);
    }
  }

  lemma {:induction false} ChoiceIsUnique(fold: Text -> Text, c: Catalog, rows: seq<Row>, id: Ident, name: Text, other: Text)
    requires IsChosen(fold, c, rows, id, name) && IsChosen(fold, c, rows, id, other)
    ensures name == other
  {
  }

  lemma {:induction false} VerdictReports(fold: Text -> Text, c: Catalog, rows: seq<Row>, id: Ident, v: Verdict, x: Conflict)
    requires Normal(fold, c) && IsVerdict(fold, c, rows, id, v) && ConflictOf(x, id)
    ensures IsIdentConflict(fold, c, rows, x) <==> Reports(v, id, x)
  {
    if IsIdentConflict(fold, c, rows, x) {
      if x.InputCollision? {
        CollisionExcludes(fold, c, rows, id, v, x.targets);
      } else {
        ClashExcludes(fold, c, rows, id, v, x.existing, x.imported);
      }
    }
  }

  lemma {:induction false} CollisionExcludes(fold: Text -> Text, c: Catalog, rows: seq<Row>, id: Ident, v: Verdict, targets: set<Text>)
    requires IsVerdict(fold, c, rows, id, v) && IsIdentConflict(fold, c, rows, InputCollision(id, targets))
    ensures v == Collide(targets)
  {
    hide IsTarget, Owns, IsChosen, Unclaimed;
    match v
    case Collide(others) =>
      SameTargets(fold, c, rows, id, targets, others);
    case Clash(_, imported) => CollisionDisagrees(fold, c, rows, id, targets, imported);
    case Keep =>
      var key :| Owns(fold, c, id, key) && Agreed(fold, c, rows, id, key);
      CollisionDisagrees(fold, c, rows, id, targets, key);
    case Add(target, _) => CollisionDisagrees(fold, c, rows, id, targets, target);
  }

  lemma {:induction false} SameTargets(fold: Text -> Text, c: Catalog, rows: seq<Row>, id: Ident, targets: set<Text>, others: set<Text>)
    requires forall key :: key in targets <==> IsTarget(fold, c, rows, id, key)
    requires forall key :: key in others <==> IsTarget(fold, c, rows, id, key)
    ensures targets == others
  {
    hide IsTarget;
    forall key
      ensures key in targets <==> key in others
    {
      assert key in targets <==> IsTarget(fold, c, rows, id, key);
    }
  }

  lemma {:induction false} ClashExcludes(fold: Text -> Text, c: Catalog, rows: seq<Row>, id: Ident, v: Verdict, existing: Text, imported: Text)
    requires Normal(fold, c) && IsVerdict(fold, c, rows, id, v)
    requires IsIdentConflict(fold, c, rows, AliasCollision(id, existing, imported))
    ensures v == Clash(existing, imported)
  {
    hide Proposes, IsChosen, Normal;
    match v
    case Collide(targets) => CollisionDisagrees(fold, c, rows, id, targets, imported);
    case Clash(e, i) =>
      OwnerIsUnique(fold, c, id, e, existing);
      AgreedIsUnique(fold, c, rows, id, i, imported);
    case Keep =>
      var key :| Owns(fold, c, id, key) && Agreed(fold, c, rows, id, key);
      OwnerIsUnique(fold, c, id, key, existing);
      AgreedIsUnique(fold, c, rows, id, key, imported);
    case Add(_, _) =>
  }

  predicate RowBefore(r: Row, s: Row) {
    r.key < s.key || (r.key == s.key && (r.alias < s.alias || (r.alias == s.alias && r.number <= s.number)))
  }

  lemma {:induction false} SortedGroup(group: seq<Row>, r: Row)
    requires r in group
    ensures var sorted := Sort(RowBefore, group);
            sorted != [] && sorted[0] in group && RowBefore(sorted[0], r)
  {
    var sorted := Sort(RowBefore, group);
    SortSorts(RowBefore, group);
    SameMember(sorted, group, r);
    HeadIsLeast(RowBefore, sorted, r);
    SameMember(sorted, group, sorted[0]);
  }

  /** The group holds exactly the proposals for the identity. */
  ghost predicate IsGroup(fold: Text -> Text, c: Catalog, rows: seq<Row>, id: Ident, group: seq<Row>) {
    group != [] && forall r :: r in group <==> Proposes(fold, c, rows, id, r)
  }

  /** The dictionary answers for `id` as the catalog does. */
  ghost predicate KnowsOwner(fold: Text -> Text, c: Catalog, existing: map<Ident, Text>, id: Ident) {
    if id in existing then Owns(fold, c, id, existing[id]) else Unclaimed(fold, c, id)
  }

  /** The body of the loop over the groups. */
  method Judge(fold: Text -> Text, c: Catalog, ghost rows: seq<Row>, id: Ident, group: seq<Row>, existing: map<Ident, Text>)
    returns (v: Verdict)
    requires group != [] && IsGroup(fold, c, rows, id, group) && KnowsOwner(fold, c, existing, id)
    ensures IsVerdict(fold, c, rows, id, v)
  {
    hide *;
    var sorted := Sort(RowBefore, group);
    SortedGroup(group, group[0]);
    var chosen := sorted[0];
    var targets := set r | r in group :: r.key;
    assert chosen.key in targets;
    if targets != {chosen.key} {
      CollisionFound(fold, c, rows, id, group, targets, chosen.key);
      return Collide(targets);
    }
    assert forall r :: r in group ==> r.key in targets;
    AgreementFound(fold, c, rows, id, group, chosen);
    OwnerFound(fold, c, rows, id, existing, chosen.key);
    if id in existing {
      v := if existing[id] != chosen.key then Clash(existing[id], chosen.key) else Keep;
    } else {
      LeastAlias(group);
      ChoiceFound(fold, c, rows, id, group, chosen);
      v := Add(chosen.key, chosen.alias);
    }
  }

  lemma {:induction false} OwnerFound(fold: Text -> Text, c: Catalog, rows: seq<Row>, id: Ident, existing: map<Ident, Text>, key: Text)
    requires KnowsOwner(fold, c, existing, id) && Agreed(fold, c, rows, id, key)
    ensures id in existing ==>
              IsVerdict(fold, c, rows, id, if existing[id] != key then Clash(existing[id], key) else Keep)
    ensures id !in existing ==> Unclaimed(fold, c, id)
  {
    hide Agreed, Owns, Unclaimed;
  }

  lemma {:induction false} LeastAlias(group: seq<Row>)
    requires group != [] && forall r :: r in group ==> r.key == Sort(RowBefore, group)[0].key
    ensures forall r :: r in group ==> Sort(RowBefore, group)[0].alias <= r.alias
  {
    forall r | r in group
      ensures Sort(RowBefore, group)[0].alias <= r.alias
    {
      SortedGroup(group, r);
    }
  }

  lemma {:induction false} CollisionFound(fold: Text -> Text, c: Catalog, rows: seq<Row>, id: Ident, group: seq<Row>, targets: set<Text>, key: Text)
    requires IsGroup(fold, c, rows, id, group) && key in targets && targets != {key}
    requires targets == set r | r in group :: r.key
    ensures IsVerdict(fold, c, rows, id, Collide(targets))
  {
    hide Proposes;
    forall k
      ensures k in targets <==> IsTarget(fold, c, rows, id, k)
    {
      if k in targets {
        var r :| r in group && r.key == k;
        assert Proposes(fold, c, rows, id, r);
      }
    }
  }

  lemma {:induction false} AgreementFound(fold: Text -> Text, c: Catalog, rows: seq<Row>, id: Ident, group: seq<Row>, chosen: Row)
    requires IsGroup(fold, c, rows, id, group) && chosen in group && forall r :: r in group ==> r.key == chosen.key
    ensures Agreed(fold, c, rows, id, chosen.key)
  {
    hide Proposes;
    assert Proposes(fold, c, rows, id, chosen);
  }

  lemma {:induction false} ChoiceFound(fold: Text -> Text, c: Catalog, rows: seq<Row>, id: Ident, group: seq<Row>, chosen: Row)
    requires IsGroup(fold, c, rows, id, group) && chosen in group && forall r :: r in group ==> chosen.alias <= r.alias
    requires Agreed(fold, c, rows, id, chosen.key) && Unclaimed(fold, c, id)
    ensures IsVerdict(fold, c, rows, id, Add(chosen.key, chosen.alias))
  {
    assert Proposes(fold, c, rows, id, chosen);
    hide Proposes;
  }

  // ----- Sorting the rows out -----

  predicate RejectsRow(c: Catalog, r: Row, x: Conflict) {
    match x
    case UnknownPlayer(number, key) => r.number == number && r.key == key && !Known(c, key)
    case DisplayMismatch(number, key) => r.number == number && r.key == key && Known(c, key) && !Eligible(c, r)
    case _ => false
  }

  ghost predicate Rejected(c: Catalog, rows: seq<Row>, x: Conflict) { exists r :: r in rows && RejectsRow(c, r, x) }

  lemma {:induction false} RejectedIsRowConflict(c: Catalog, rows: seq<Row>, x: Conflict)
    ensures IsRowConflict(c, rows, x) <==> Rejected(c, rows, x)
  {
    hide Known, Eligible;
  }

  /** What the loop appends for one row. */
  function RejectionOf(c: Catalog, row: Row): seq<Conflict> {
    if !Known(c, row.key) then [UnknownPlayer(row.number, row.key)]
    else if !Eligible(c, row) then [DisplayMismatch(row.number, row.key)]
    else []
  }

  lemma {:induction false} RejectedOneMore(c: Catalog, rows: seq<Row>, row: Row, conflicts: seq<Conflict>)
    requires forall x :: x in conflicts <==> Rejected(c, rows, x)
    ensures forall x :: x in conflicts + RejectionOf(c, row) <==> Rejected(c, rows + [row], x)
  {
    hide Known, Eligible;
    assert row in rows + [row];
    forall x
      ensures x in conflicts + RejectionOf(c, row) <==> Rejected(c, rows + [row], x)
    {
      assert x in RejectionOf(c, row) <==> RejectsRow(c, row, x);
      hide RejectsRow;
      if Rejected(c, rows, x) {
        var r :| r in rows && RejectsRow(c, r, x);
        assert r in rows + [row];
      }
    }
  }

  lemma {:induction false} RejectedOnceMore(c: Catalog, rows: seq<Row>, row: Row, conflicts: seq<Conflict>)
    requires forall x :: multiset(conflicts)[x] == |RowsRejected(c, rows, x)|
    ensures forall x :: multiset(conflicts + RejectionOf(c, row))[x] == |RowsRejected(c, rows + [row], x)|
  {
    hide Known, Eligible, RejectsRow, RejectionOf, RowsRejected;
    forall x
      ensures multiset(conflicts + RejectionOf(c, row))[x] == |RowsRejected(c, rows + [row], x)|
    {
      RejectedSnoc(c, rows, row, x);
      RejectionCounts(c, row, x);
    }
  }

  lemma {:induction false} RejectedSnoc(c: Catalog, rows: seq<Row>, row: Row, x: Conflict)
    ensures |RowsRejected(c, rows + [row], x)| == |RowsRejected(c, rows, x)| + if RejectsRow(c, row, x) then 1 else 0
  {
    hide RejectsRow;
    assert RowsRejected(c, rows + [row], x) == RowsRejected(c, rows, x) + if RejectsRow(c, row, x) then {|rows|} else {};
  }

  lemma {:induction false} RejectionCounts(c: Catalog, row: Row, x: Conflict)
    ensures multiset(RejectionOf(c, row))[x] == if RejectsRow(c, row, x) then 1 else 0
  {
    hide Known, Eligible;
  }

  lemma {:induction false} RowsEachReported(c: Catalog, rows: seq<Row>, conflicts: seq<Conflict>)
    requires forall x :: multiset(conflicts)[x] == |RowsRejected(c, rows, x)|
    ensures EachReported(c, rows, conflicts)
  {
    forall x
      ensures multiset(conflicts)[x] == TimesReported(c, rows, conflicts, x)
    {
      if !x.UnknownPlayer? && !x.DisplayMismatch? {
        assert RowsRejected(c, rows, x) == {};
      }
      hide RowsRejected;
      assert x in conflicts <==> multiset(conflicts)[x] > 0;
    }
  }

  lemma {:induction false} EligibleIsKnown(c: Catalog, r: Row)
    ensures Eligible(c, r) ==> Known(c, r.key)
  {
  }

  /** The loop that sets rows aside for unknown players and mismatched display names. */
  method ClassifyRows(c: Catalog, rows: seq<Row>) returns (eligible: seq<Row>, conflicts: seq<Conflict>)
    ensures forall r :: r in eligible <==> r in rows && Eligible(c, r)
    ensures forall x :: x in conflicts <==> IsRowConflict(c, rows, x)
    ensures EachReported(c, rows, conflicts)
  {
    hide Known, Eligible, IsRowConflict, Rejected, RejectsRow, RowsRejected, EachReported;
    NothingRejected(c);
    eligible, conflicts := [], [];
    for i := 0 to |rows|
      invariant forall r :: r in eligible <==> r in rows[..i] && Eligible(c, r)
      invariant forall x :: x in conflicts <==> Rejected(c, rows[..i], x)
      invariant forall x :: multiset(conflicts)[x] == |RowsRejected(c, rows[..i], x)|
    {
      var row := rows[i];
      EligibleIsKnown(c, row);
      RejectedOneMore(c, rows[..i], row, conflicts);
      RejectedOnceMore(c, rows[..i], row, conflicts);
      assert rows[..i + 1] == rows[..i] + [row];
      if !Known(c, row.key) {
        conflicts := conflicts + [UnknownPlayer(row.number, row.key)];
      } else if !Eligible(c, row) {
        conflicts := conflicts + [DisplayMismatch(row.number, row.key)];
      } else {
        eligible := eligible + [row];
        assert conflicts + [] == conflicts;
      }
    }
    assert rows[..|rows|] == rows;
    RowsEachReported(c, rows, conflicts);
    forall x
      ensures IsRowConflict(c, rows, x) <==> Rejected(c, rows, x)
    {
      RejectedIsRowConflict(c, rows, x);
    }
  }

  lemma {:induction false} NothingRejected(c: Catalog)
    ensures forall x :: !Rejected(c, [], x) && RowsRejected(c, [], x) == {}
  {
  }

  ghost predicate HasRow(fold: Text -> Text, rows: seq<Row>, id: Ident) {
    exists r :: r in rows && RowIdent(fold, r) == id
  }

  /** A dictionary of groups with its insertion order. */
  ghost predicate GroupsAre(fold: Text -> Text, rows: seq<Row>, groups: map<Ident, seq<Row>>, order: seq<Ident>) {
    && (forall id :: id in groups <==> id in order)
    && (forall id :: id in order <==> HasRow(fold, rows, id))
    && (forall i, j :: 0 <= i < j < |order| ==> order[i] != order[j])
    && (forall id, r :: id in groups ==> (r in groups[id] <==> r in rows && RowIdent(fold, r) == id))
  }

  method GroupRows(fold: Text -> Text, rows: seq<Row>) returns (groups: map<Ident, seq<Row>>, order: seq<Ident>)
    ensures GroupsAre(fold, rows, groups, order)
  {
    hide RowIdent, GroupsAre;
    groups, order := map[], [];
    NoGroups(fold);
    for i := 0 to |rows|
      invariant GroupsAre(fold, rows[..i], groups, order)
    {
      var id := RowIdent(fold, rows[i]);
      assert rows[..i + 1] == rows[..i] + [rows[i]];
      GroupOneMore(fold, rows[..i], rows[i], groups, order);
      if id in groups {
        groups := groups[id := groups[id] + [rows[i]]];
      } else {
        groups := groups[id := [rows[i]]];
        order := order + [id];
      }
    }
    assert rows[..|rows|] == rows;
  }

  lemma {:induction false} NoGroups(fold: Text -> Text)
    ensures GroupsAre(fold, [], map[], [])
  {
  }

  lemma {:induction false} GroupOneMore(fold: Text -> Text, rows: seq<Row>, row: Row, groups: map<Ident, seq<Row>>, order: seq<Ident>)
    requires GroupsAre(fold, rows, groups, order)
    ensures var id := RowIdent(fold, row);
            if id in groups then GroupsAre(fold, rows + [row], groups[id := groups[id] + [row]], order)
            else GroupsAre(fold, rows + [row], groups[id := [row]], order + [id])
  {
    hide RowIdent;
    var id := RowIdent(fold, row);
    assert row in rows + [row];
    forall x
      ensures HasRow(fold, rows + [row], x) <==> x == id || HasRow(fold, rows, x)
    {
      if HasRow(fold, rows, x) {
        var r :| r in rows && RowIdent(fold, r) == x;
        assert r in rows + [row];
      }
    }
    hide HasRow;
  }

  /** The dictionary comprehension over the base catalog. */
  method ExistingOwners(fold: Text -> Text, c: Catalog) returns (existing: map<Ident, Text>)
    ensures forall id :: KnowsOwner(fold, c, existing, id)
  {
    hide IdentOf;
    existing := map[];
    for i := 0 to |c|
      invariant forall id :: id in existing ==> Owns(fold, c, id, existing[id])
      invariant forall j, a :: 0 <= j < i && a in c[j].aliases ==> IdentOf(fold, a) in existing
    {
      var aliases := c[i].aliases;
      for k := 0 to |aliases|
        invariant forall id :: id in existing ==> Owns(fold, c, id, existing[id])
        invariant forall j, a :: 0 <= j < i && a in c[j].aliases ==> IdentOf(fold, a) in existing
        invariant forall n :: 0 <= n < k ==> IdentOf(fold, aliases[n]) in existing
      {
        assert aliases[k] in c[i].aliases;
        assert Owns(fold, c, IdentOf(fold, aliases[k]), c[i].key);
        existing := existing[IdentOf(fold, aliases[k]) := c[i].key];
      }
    }
  }

  // ----- Appending an alias -----

  predicate SamePlayers(c: Catalog, d: Catalog) {
    |c| == |d| && forall i :: 0 <= i < |c| ==> c[i].key == d[i].key && c[i].display == d[i].display
  }

  function Append(c: Catalog, i: nat, a: Alias): Catalog
    requires i < |c|
  {
    c[i := c[i].(aliases := c[i].aliases + [a])]
  }

  lemma {:induction false} AppendHas(c: Catalog, i: nat, a: Alias, key: Text, b: Alias)
    requires i < |c|
    ensures HasAlias(Append(c, i, a), key, b) <==> HasAlias(c, key, b) || (key == c[i].key && b == a)
  {
    var d := Append(c, i, a);
    assert forall x :: x in d[i].aliases <==> x in c[i].aliases || x == a;
    assert forall j :: 0 <= j < |c| && j != i ==> d[j] == c[j];
    if HasAlias(c, key, b) {
      var j :| 0 <= j < |c| && c[j].key == key && b in c[j].aliases;
      assert d[j].key == key && b in d[j].aliases;
    }
    if key == c[i].key && b == a {
      assert d[i].key == key && b in d[i].aliases;
    }
  }

  lemma {:induction false} AppendKeepsConsistent(fold: Text -> Text, c: Catalog, i: nat, a: Alias)
    requires i < |c| && Consistent(fold, c)
    requires forall key, b :: HasAlias(c, key, b) ==> IdentOf(fold, b) != IdentOf(fold, a)
    ensures Consistent(fold, Append(c, i, a))
  {
    hide IdentOf;
    var d := Append(c, i, a);
    forall j, b | 0 <= j < |c| && b in c[j].aliases
      ensures OtherAlias(fold, a, b) && OtherAlias(fold, b, a)
    {
      assert HasAlias(c, c[j].key, b);
    }
    assert forall x :: x in d[i].aliases <==> x in c[i].aliases || x == a;
    forall j, k | 0 <= j < k < |d|
      ensures OtherPlayers(fold)(d[j], d[k])
    {
      assert OtherPlayers(fold)(c[j], c[k]);
    }
    hide OtherPlayers;
    forall j | 0 <= j < |d|
      ensures Pairwise(OtherAliases(fold), d[j].aliases)
    {
      if j == i {
        assert forall n :: 0 <= n < |c[i].aliases| ==> c[i].aliases[n] in c[i].aliases;
        SnocPairwise(fold, c[i].aliases, a);
      }
    }
  }

  lemma {:induction false} SnocPairwise(fold: Text -> Text, s: seq<Alias>, a: Alias)
    requires Pairwise(OtherAliases(fold), s) && forall b :: b in s ==> OtherAlias(fold, b, a)
    ensures Pairwise(OtherAliases(fold), s + [a])
  {
    hide OtherAlias;
  }

  // ----- The merge -----

  /** The state of the loop over the groups when the identities in `done` are behind it. */
  ghost predicate Progress(fold: Text -> Text, c: Catalog, rows: seq<Row>, done: set<Ident>, work: Catalog,
                           existing: map<Ident, Text>)
  {
    && SamePlayers(c, work) && Consistent(fold, work)
    && (forall key, a :: HasAlias(work, key, a) <==> HasAlias(c, key, a) || (IdentOf(fold, a) in done && Adds(fold, c, rows, key, a)))
    && (forall id :: id !in done ==> KnowsOwner(fold, c, existing, id))
  }

  ghost predicate Reported(fold: Text -> Text, c: Catalog, rows: seq<Row>, done: set<Ident>, conflicts: seq<Conflict>) {
    && (forall x :: x in conflicts <==> IsRowConflict(c, rows, x) || (IsIdentConflict(fold, c, rows, x) && x.id in done))
    && EachReported(c, rows, conflicts)
  }

  /** `news` and `kepts` are the identities of `done` that were added and found unchanged. */
  ghost predicate Counted(fold: Text -> Text, c: Catalog, rows: seq<Row>, done: set<Ident>, news: set<Ident>, kepts: set<Ident>) {
    && (forall id :: id in news <==> id in done && IsNew(fold, c, rows, id))
    && (forall id :: id in kepts <==> id in done && IsKept(fold, c, rows, id))
  }

  /** The loop invariant. */
  ghost predicate Merging(fold: Text -> Text, c: Catalog, rows: seq<Row>, done: set<Ident>, work: Catalog,
                          existing: map<Ident, Text>, conflicts: seq<Conflict>, news: set<Ident>, kepts: set<Ident>)
  {
    && Progress(fold, c, rows, done, work, existing) && Reported(fold, c, rows, done, conflicts)
    && Counted(fold, c, rows, done, news, kepts) && news <= done && kepts <= done
  }

  function IndexOf(c: Catalog, key: Text, n: nat): (i: nat)
    requires n <= |c| && exists j :: 0 <= j < n && c[j].key == key
    ensures i < n && c[i].key == key
  {
    if c[n - 1].key == key then n - 1 else IndexOf(c, key, n - 1)
  }

  lemma {:induction false} TargetIsKnown(fold: Text -> Text, c: Catalog, rows: seq<Row>, work: Catalog, key: Text, a: Alias)
    requires SamePlayers(c, work) && Adds(fold, c, rows, key, a)
    ensures Known(work, key)
  {
    var r :| Proposes(fold, c, rows, IdentOf(fold, a), r);
    EligibleIsKnown(c, r);
    var i :| 0 <= i < |c| && c[i].key == key;
    assert work[i].key == key;
  }

  lemma {:induction false} FreshIdent(fold: Text -> Text, c: Catalog, rows: seq<Row>, done: set<Ident>, work: Catalog,
                   existing: map<Ident, Text>, id: Ident, key: Text, b: Alias)
    requires Progress(fold, c, rows, done, work, existing) && id !in done && Unclaimed(fold, c, id)
    requires HasAlias(work, key, b)
    ensures IdentOf(fold, b) != id
  {
    hide Consistent, SamePlayers, Adds, KnowsOwner;
    OwnsByAlias(fold, c, IdentOf(fold, b), key);
    hide HasAlias, Owns;
  }

  /** Adding an alias. */
  lemma {:induction false} AddAdvances(fold: Text -> Text, c: Catalog, rows: seq<Row>, done: set<Ident>, work: Catalog,
                    existing: map<Ident, Text>, id: Ident, target: Text, name: Text, i: nat)
    requires Normal(fold, c) && Progress(fold, c, rows, done, work, existing) && id !in done
    requires IsVerdict(fold, c, rows, id, Add(target, name)) && i < |work| && work[i].key == target
    ensures Progress(fold, c, rows, done + {id}, Append(work, i, Alias(id.0, name)), existing[id := target])
  {
    var a, work' := Alias(id.0, name), Append(work, i, Alias(id.0, name));
    forall key, b | HasAlias(work, key, b)
      ensures IdentOf(fold, b) != IdentOf(fold, a)
    {
      FreshIdent(fold, c, rows, done, work, existing, id, key, b);
    }
    hide Consistent, HasAlias;
    AppendKeepsConsistent(fold, work, i, a);
    assert SamePlayers(c, work');
    hide Append;
    forall key, b
      ensures HasAlias(work', key, b)
          <==> HasAlias(c, key, b) || (IdentOf(fold, b) in done + {id} && Adds(fold, c, rows, key, b))
    {
      AppendHas(work, i, a, key, b);
      if IdentOf(fold, b) == id {
        VerdictAdds(fold, c, rows, id, Add(target, name), key, b);
      }
    }
    hide Adds, Normal, IsVerdict;
    forall other | other !in done + {id}
      ensures KnowsOwner(fold, c, existing[id := target], other)
    {
      assert KnowsOwner(fold, c, existing, other);
    }
  }

  /** Any other verdict leaves the catalog alone. */
  lemma {:induction false} OtherAdvances(fold: Text -> Text, c: Catalog, rows: seq<Row>, done: set<Ident>, work: Catalog,
                      existing: map<Ident, Text>, id: Ident, v: Verdict)
    requires Normal(fold, c) && Progress(fold, c, rows, done, work, existing)
    requires IsVerdict(fold, c, rows, id, v) && !v.Add?
    ensures Progress(fold, c, rows, done + {id}, work, existing)
  {
    hide Consistent, HasAlias, SamePlayers, KnowsOwner, Adds;
    forall key, b
      ensures HasAlias(work, key, b)
          <==> HasAlias(c, key, b) || (IdentOf(fold, b) in done + {id} && Adds(fold, c, rows, key, b))
    {
      if IdentOf(fold, b) == id {
        VerdictAdds(fold, c, rows, id, v, key, b);
      }
    }
    hide Normal, IsVerdict;
  }

  function ReportOf(v: Verdict, id: Ident): seq<Conflict> {
    match v
    case Collide(targets) => [InputCollision(id, targets)]
    case Clash(existing, imported) => [AliasCollision(id, existing, imported)]
    case _ => []
  }

  lemma {:induction false} ReportAdvances(fold: Text -> Text, c: Catalog, rows: seq<Row>, done: set<Ident>, conflicts: seq<Conflict>, id: Ident, v: Verdict)
    requires Normal(fold, c) && Reported(fold, c, rows, done, conflicts) && IsVerdict(fold, c, rows, id, v) && id !in done
    ensures Reported(fold, c, rows, done + {id}, conflicts + ReportOf(v, id))
  {
    NewReport(fold, c, rows, done, conflicts, id, v);
    hide Normal, IsVerdict, IsRowConflict, EachReported;
    forall x
      ensures x in conflicts + ReportOf(v, id)
          <==> IsRowConflict(c, rows, x) || (IsIdentConflict(fold, c, rows, x) && x.id in done + {id})
    {
      assert x in ReportOf(v, id) <==> Reports(v, id, x);
      if ConflictOf(x, id) {
        VerdictReports(fold, c, rows, id, v, x);
      }
      IdentConflictShape(fold, c, rows, x);
      hide IsIdentConflict;
      assert Reports(v, id, x) ==> ConflictOf(x, id);
    }
  }

  /** A group's conflict was not reported before. */
  lemma {:induction false} NewReport(fold: Text -> Text, c: Catalog, rows: seq<Row>, done: set<Ident>, conflicts: seq<Conflict>, id: Ident, v: Verdict)
    requires Reported(fold, c, rows, done, conflicts) && id !in done
    ensures EachReported(c, rows, conflicts + ReportOf(v, id))
  {
    hide IsIdentConflict, RowsRejected;
    var all := conflicts + ReportOf(v, id);
    forall x
      ensures multiset(all)[x] == TimesReported(c, rows, all, x)
    {
      assert multiset(conflicts)[x] == TimesReported(c, rows, conflicts, x);
      IdentConflictShape(fold, c, rows, x);
      assert x in conflicts <==> IsRowConflict(c, rows, x) || (IsIdentConflict(fold, c, rows, x) && x.id in done);
      hide Reported, EachReported;
      assert multiset(all)[x] == multiset(conflicts)[x] + multiset(ReportOf(v, id))[x];
    }
  }

  lemma {:induction false} IdentConflictShape(fold: Text -> Text, c: Catalog, rows: seq<Row>, x: Conflict)
    ensures IsIdentConflict(fold, c, rows, x) ==> x.AliasCollision? || x.InputCollision?
  {
  }

  lemma {:induction false} CountAdvances(fold: Text -> Text, c: Catalog, rows: seq<Row>, done: set<Ident>, news: set<Ident>, kepts: set<Ident>,
                      id: Ident, v: Verdict)
    requires Normal(fold, c) && Counted(fold, c, rows, done, news, kepts) && IsVerdict(fold, c, rows, id, v)
    ensures Counted(fold, c, rows, done + {id}, if v.Add? then news + {id} else news, if v.Keep? then kepts + {id} else kepts)
  {
    hide Normal, IsVerdict, IsNew, IsKept;
    VerdictDecides(fold, c, rows, id, v);
  }

  /** By type, then by what the conflict is about. */
  function ConflictKey(x: Conflict): (int, int, int) {
    match x
    case AliasCollision(id, _, _) => (0, id.0, id.1)
    case DisplayMismatch(number, _) => (1, number, 0)
    case InputCollision(id, _) => (2, id.0, id.1)
    case UnknownPlayer(number, _) => (3, number, 0)
  }

  predicate ConflictBefore(x: Conflict, y: Conflict) {
    var a, b := ConflictKey(x), ConflictKey(y);
    a.0 < b.0 || (a.0 == b.0 && (a.1 < b.1 || (a.1 == b.1 && a.2 <= b.2)))
  }

  lemma {:induction false} ConflictsOrdered(conflicts: seq<Conflict>)
    ensures SortedBy(ConflictBefore, Sort(ConflictBefore, conflicts))
  {
    SortSorts(ConflictBefore, conflicts);
  }

  /** The groups in the order in which the loop visits them. */
  ghost predicate Visits(fold: Text -> Text, c: Catalog, rows: seq<Row>, groups: map<Ident, seq<Row>>, ids: seq<Ident>) {
    && (forall i, j :: 0 <= i < j < |ids| ==> ids[i] != ids[j])
    && (forall id :: id in ids ==> id in groups && groups[id] != [] && IsGroup(fold, c, rows, id, groups[id]))
    && (forall id, r :: Proposes(fold, c, rows, id, r) ==> id in ids)
  }

  lemma {:induction false} SortedGroupsVisit(fold: Text -> Text, c: Catalog, rows: seq<Row>, eligible: seq<Row>,
                          groups: map<Ident, seq<Row>>, order: seq<Ident>)
    requires forall r :: r in eligible <==> r in rows && Eligible(c, r)
    requires GroupsAre(fold, eligible, groups, order)
    ensures Visits(fold, c, rows, groups, Sort(IdentBefore, order))
  {
    hide Eligible, RowIdent, Sort, HasRow, IsGroup;
    var ids := Sort(IdentBefore, order);
    DistinctSorted(order);
    forall id | id in ids
      ensures id in groups && groups[id] != [] && IsGroup(fold, c, rows, id, groups[id])
    {
      SameMember(ids, order, id);
      GroupHolds(fold, c, rows, eligible, groups, order, id);
    }
    forall id, r | Proposes(fold, c, rows, id, r)
      ensures id in ids
    {
      ProposalIsEligible(fold, c, rows, eligible, id, r);
      SameMember(ids, order, id);
    }
  }

  lemma {:induction false} DistinctSorted(order: seq<Ident>)
    requires forall i, j :: 0 <= i < j < |order| ==> order[i] != order[j]
    ensures var ids := Sort(IdentBefore, order); forall i, j :: 0 <= i < j < |ids| ==> ids[i] != ids[j]
  {
    hide Sort, IdentBefore;
    var apart := (a: Ident, b: Ident) => a != b;
    SortPairwise(IdentBefore, apart, order);
    var ids := Sort(IdentBefore, order);
    forall i, j | 0 <= i < j < |ids|
      ensures ids[i] != ids[j]
    {
      assert apart(ids[i], ids[j]);
    }
  }

  lemma {:induction false} ProposalIsEligible(fold: Text -> Text, c: Catalog, rows: seq<Row>, eligible: seq<Row>, id: Ident, r: Row)
    requires forall s :: s in eligible <==> s in rows && Eligible(c, s)
    requires Proposes(fold, c, rows, id, r)
    ensures HasRow(fold, eligible, id)
  {
    hide Eligible, RowIdent;
  }

  lemma {:induction false} GroupHolds(fold: Text -> Text, c: Catalog, rows: seq<Row>, eligible: seq<Row>,
                   groups: map<Ident, seq<Row>>, order: seq<Ident>, id: Ident)
    requires forall r :: r in eligible <==> r in rows && Eligible(c, r)
    requires GroupsAre(fold, eligible, groups, order) && id in order
    ensures id in groups && groups[id] != [] && IsGroup(fold, c, rows, id, groups[id])
  {
    hide Eligible, RowIdent;
    assert HasRow(fold, eligible, id);
    var r :| r in eligible && RowIdent(fold, r) == id;
    assert r in groups[id];
  }

  /** Nothing is done yet. */
  lemma {:induction false} MergeStarts(fold: Text -> Text, c: Catalog, rows: seq<Row>, existing: map<Ident, Text>, conflicts: seq<Conflict>)
    requires Normal(fold, c) && forall id :: KnowsOwner(fold, c, existing, id)
    requires (forall x :: x in conflicts <==> IsRowConflict(c, rows, x)) && EachReported(c, rows, conflicts)
    ensures Merging(fold, c, rows, {}, c, existing, conflicts, {}, {})
  {
    hide EachReported, IsRowConflict, IsIdentConflict, HasAlias, Consistent, KnowsOwner;
  }

  /** Everything is done: the normal form of the catalog at hand is the merge. */
  lemma {:induction false} MergeEnds(fold: Text -> Text, c: Catalog, rows: seq<Row>, groups: map<Ident, seq<Row>>, ids: seq<Ident>,
                  done: set<Ident>, work: Catalog, existing: map<Ident, Text>, conflicts: seq<Conflict>,
                  news: set<Ident>, kepts: set<Ident>, sorted: seq<Conflict>)
    requires Normal(fold, c) && Merging(fold, c, rows, done, work, existing, conflicts, news, kepts)
    requires Visits(fold, c, rows, groups, ids) && forall id :: id in done <==> id in ids
    requires multiset(sorted) == multiset(conflicts) && SortedBy(ConflictBefore, sorted)
    ensures Normalize(fold, work).Some?
    ensures IsMerge(fold, c, rows, Merged(Normalize(fold, work).value, |news|, |kepts|, sorted))
  {
    hide Reported, EachReported, SortedBy, Counted, Normal, HasPlayer, HasAlias, IsRowConflict, IsIdentConflict, NewIdents, KeptIdents,
      Normalize, Consistent, Adds, KnowsOwner, SamePlayers, Visits;
    NormalizeIsNormal(fold, work);
    NormalizeAccepts(fold, work);
    AllConflictsReported(fold, c, rows, groups, ids, done, conflicts, sorted);
    CountIsComplete(fold, c, rows, groups, ids, done, news, kepts);
    var r := Normalize(fold, work).value;
    forall key, display
      ensures HasPlayer(r, key, display) <==> HasPlayer(c, key, display)
    {
      NormalizeKeeps(fold, work, key, display, Alias(0, 0));
      SamePlayersHave(c, work, key, display);
    }
    forall key, a
      ensures HasAlias(r, key, a) <==> HasAlias(c, key, a) || Adds(fold, c, rows, key, a)
    {
      NormalizeKeeps(fold, work, key, 0, a);
      AllAdded(fold, c, rows, groups, ids, done, key, a);
    }
  }

  lemma {:induction false} NormalizeAccepts(fold: Text -> Text, c: Catalog)
    requires Consistent(fold, c)
    ensures Normalize(fold, c).Some?
  {
  }

  lemma {:induction false} AllAdded(fold: Text -> Text, c: Catalog, rows: seq<Row>, groups: map<Ident, seq<Row>>, ids: seq<Ident>,
                 done: set<Ident>, key: Text, a: Alias)
    requires Visits(fold, c, rows, groups, ids) && forall id :: id in done <==> id in ids
    ensures Adds(fold, c, rows, key, a) ==> IdentOf(fold, a) in done
  {
    if Adds(fold, c, rows, key, a) {
      AddedIsProposed(fold, c, rows, key, a);
    }
  }

  lemma {:induction false} SamePlayersHave(c: Catalog, d: Catalog, key: Text, display: Text)
    requires SamePlayers(c, d)
    ensures HasPlayer(c, key, display) <==> HasPlayer(d, key, display)
  {
    if HasPlayer(c, key, display) {
      var i :| 0 <= i < |c| && c[i].key == key && c[i].display == display;
      assert d[i].key == key && d[i].display == display;
    }
    if HasPlayer(d, key, display) {
      var i :| 0 <= i < |d| && d[i].key == key && d[i].display == display;
      assert c[i].key == key && c[i].display == display;
    }
  }

  lemma {:induction false} AddedIsProposed(fold: Text -> Text, c: Catalog, rows: seq<Row>, key: Text, a: Alias)
    requires Adds(fold, c, rows, key, a)
    ensures exists r :: Proposes(fold, c, rows, IdentOf(fold, a), r)
  {
    hide Proposes;
  }

  lemma {:induction false} AllConflictsReported(fold: Text -> Text, c: Catalog, rows: seq<Row>, groups: map<Ident, seq<Row>>, ids: seq<Ident>,
                             done: set<Ident>, conflicts: seq<Conflict>, sorted: seq<Conflict>)
    requires Visits(fold, c, rows, groups, ids) && forall id :: id in done <==> id in ids
    requires Reported(fold, c, rows, done, conflicts) && multiset(sorted) == multiset(conflicts)
    ensures forall x :: x in sorted <==> IsRowConflict(c, rows, x) || IsIdentConflict(fold, c, rows, x)
    ensures EachReported(c, rows, sorted)
  {
    hide IsRowConflict, RowsRejected;
    forall x
      ensures multiset(sorted)[x] == TimesReported(c, rows, sorted, x)
    {
      SameMember(sorted, conflicts, x);
      assert multiset(conflicts)[x] == TimesReported(c, rows, conflicts, x);
    }
    hide EachReported;
    forall x
      ensures x in sorted <==> IsRowConflict(c, rows, x) || IsIdentConflict(fold, c, rows, x)
    {
      SameMember(sorted, conflicts, x);
      if IsIdentConflict(fold, c, rows, x) {
        IdentConflictIsProposed(fold, c, rows, x);
      }
      hide IsIdentConflict;
    }
  }

  lemma {:induction false} IdentConflictIsProposed(fold: Text -> Text, c: Catalog, rows: seq<Row>, x: Conflict)
    requires IsIdentConflict(fold, c, rows, x)
    ensures exists r :: Proposes(fold, c, rows, x.id, r)
  {
    hide Proposes;
    if x.InputCollision? {
      var key :| key in x.targets;
      assert IsTarget(fold, c, rows, x.id, key);
    }
  }

  lemma {:induction false} CountIsComplete(fold: Text -> Text, c: Catalog, rows: seq<Row>, groups: map<Ident, seq<Row>>, ids: seq<Ident>,
                        done: set<Ident>, news: set<Ident>, kepts: set<Ident>)
    requires Visits(fold, c, rows, groups, ids) && (forall id :: id in done <==> id in ids)
    requires Counted(fold, c, rows, done, news, kepts)
    ensures news == NewIdents(fold, c, rows) && kepts == KeptIdents(fold, c, rows)
  {
    hide Unclaimed, Owns;
    forall id | IsNew(fold, c, rows, id) || IsKept(fold, c, rows, id)
      ensures id in done && id in Proposed(fold, rows)
    {
      var key :| Agreed(fold, c, rows, id, key);
      var r :| Proposes(fold, c, rows, id, r);
    }
    hide IsNew, IsKept, Proposed;
  }

  lemma {:induction false} TargetFound(fold: Text -> Text, c: Catalog, rows: seq<Row>, done: set<Ident>, work: Catalog,
                    existing: map<Ident, Text>, id: Ident, target: Text, name: Text)
    requires Progress(fold, c, rows, done, work, existing) && IsVerdict(fold, c, rows, id, Add(target, name))
    ensures exists j :: 0 <= j < |work| && work[j].key == target
  {
    hide Consistent, HasAlias, Adds;
    TargetIsKnown(fold, c, rows, work, target, Alias(id.0, name));
  }

  lemma {:induction false} VisitNext(fold: Text -> Text, c: Catalog, rows: seq<Row>, groups: map<Ident, seq<Row>>, ids: seq<Ident>, p: nat,
                  done: set<Ident>, existing: map<Ident, Text>, work: Catalog, conflicts: seq<Conflict>,
                  news: set<Ident>, kepts: set<Ident>)
    requires Visits(fold, c, rows, groups, ids) && p < |ids| && forall id :: id in done <==> id in ids[..p]
    requires Merging(fold, c, rows, done, work, existing, conflicts, news, kepts)
    ensures ids[p] !in done && ids[p] in groups && groups[ids[p]] != [] && IsGroup(fold, c, rows, ids[p], groups[ids[p]])
    ensures ids[p] !in news && ids[p] !in kepts && KnowsOwner(fold, c, existing, ids[p])
    ensures forall id :: id in ids[..p + 1] <==> id in ids[..p] || id == ids[p]
  {
    hide IsGroup, KnowsOwner, Adds, Consistent, HasAlias, SamePlayers, Proposes, Reported, Counted;
    assert ids[p] in ids;
    assert ids[..p + 1] == ids[..p] + [ids[p]];
  }

  lemma {:induction false} Advance(fold: Text -> Text, c: Catalog, rows: seq<Row>, done: set<Ident>, work: Catalog, existing: map<Ident, Text>,
                conflicts: seq<Conflict>, news: set<Ident>, kepts: set<Ident>, id: Ident, v: Verdict)
    requires Normal(fold, c) && Merging(fold, c, rows, done, work, existing, conflicts, news, kepts)
    requires IsVerdict(fold, c, rows, id, v) && id !in done
    ensures v.Collide? || v.Clash? ==>
              Merging(fold, c, rows, done + {id}, work, existing, conflicts + ReportOf(v, id), news, kepts)
    ensures v.Keep? ==> Merging(fold, c, rows, done + {id}, work, existing, conflicts, news, kepts + {id})
    ensures v.Add? ==>
              && (exists j :: 0 <= j < |work| && work[j].key == v.target)
              && var i := IndexOf(work, v.target, |work|);
                 Merging(fold, c, rows, done + {id}, Append(work, i, Alias(id.0, v.name)), existing[id := v.target],
                         conflicts, news + {id}, kepts)
  {
    hide Normal, Progress, Reported, Counted, Append, IndexOf, IsVerdict;
    ReportAdvances(fold, c, rows, done, conflicts, id, v);
    CountAdvances(fold, c, rows, done, news, kepts, id, v);
    if v.Add? {
      TargetFound(fold, c, rows, done, work, existing, id, v.target, v.name);
      AddAdvances(fold, c, rows, done, work, existing, id, v.target, v.name, IndexOf(work, v.target, |work|));
    } else {
      OtherAdvances(fold, c, rows, done, work, existing, id, v);
    }
    assert conflicts + [] == conflicts;
  }

  method MergeGroups(fold: Text -> Text, c: Catalog, ghost rows: seq<Row>, groups: map<Ident, seq<Row>>, ids: seq<Ident>,
                     owners: map<Ident, Text>, rejected: seq<Conflict>)
    returns (work: Catalog, added: nat, kept: nat, conflicts: seq<Conflict>, ghost existing: map<Ident, Text>,
             ghost done: set<Ident>, ghost news: set<Ident>, ghost kepts: set<Ident>)
    requires Normal(fold, c) && Visits(fold, c, rows, groups, ids) && Merging(fold, c, rows, {}, c, owners, rejected, {}, {})
    ensures Merging(fold, c, rows, done, work, existing, conflicts, news, kepts) && added == |news| && kept == |kepts|
    ensures forall id :: id in done <==> id in ids
  {
    hide *;
    work, added, kept, conflicts := c, 0, 0, rejected;
    done, news, kepts := {}, {}, {};
    var known := owners;
    for p := 0 to |ids|
      invariant forall id :: id in done <==> id in ids[..p]
      invariant Merging(fold, c, rows, done, work, known, conflicts, news, kepts) && added == |news| && kept == |kepts|
    {
      var id := ids[p];
      VisitNext(fold, c, rows, groups, ids, p, done, known, work, conflicts, news, kepts);
      var v := Judge(fold, c, rows, id, groups[id], known);
      Advance(fold, c, rows, done, work, known, conflicts, news, kepts, id, v);
      match v {
        case Collide(_) =>
          conflicts := conflicts + ReportOf(v, id);
        case Clash(_, _) =>
          conflicts := conflicts + ReportOf(v, id);
        case Keep =>
          kept, kepts := kept + 1, kepts + {id};
        case Add(target, name) =>
          work := Append(work, IndexOf(work, target, |work|), Alias(id.0, name));
          known := known[id := target];
          added, news := added + 1, news + {id};
      }
      done := done + {id};
    }
    assert ids[..|ids|] == ids;
    existing := known;
  }

  /** `merge_catalog`: an invalid base is an error; otherwise the merge always succeeds. */
  method MergeCatalog(fold: Text -> Text, base: Catalog, rows: seq<Row>) returns (m: Option<Merged>)
    ensures Normalize(fold, base).None? ==> m.None?
    ensures Normalize(fold, base).Some? ==>
              m.Some? && Normal(fold, Normalize(fold, base).value) && IsMerge(fold, Normalize(fold, base).value, rows, m.value)
  {
    hide *;
    var start := NormalizeCatalog(fold, base);
    if start.None? {
      return None;
    }
    NormalizesToNormal(fold, base);
    var c := start.value;
    var owners := ExistingOwners(fold, c);
    var eligible, rejected := ClassifyRows(c, rows);
    var groups, order := GroupRows(fold, eligible);
    var ids := Sort(IdentBefore, order);
    SortedGroupsVisit(fold, c, rows, eligible, groups, order);
    MergeStarts(fold, c, rows, owners, rejected);
    var work, added, kept, conflicts;
    ghost var existing, done, news, kepts;
    work, added, kept, conflicts, existing, done, news, kepts := MergeGroups(fold, c, rows, groups, ids, owners, rejected);
    var merged := NormalizeCatalog(fold, work);
    ConflictsOrdered(conflicts);
    var sorted := Sort(ConflictBefore, conflicts);
    MergeEnds(fold, c, rows, groups, ids, done, work, existing, conflicts, news, kepts, sorted);
    m := Some(Merged(merged.value, added, kept, sorted));
  }

  lemma {:induction false} NormalizesToNormal(fold: Text -> Text, c: Catalog)
    requires Normalize(fold, c).Some?
    ensures Normal(fold, Normalize(fold, c).value)
  {
    NormalizeIsNormal(fold, c);
  }

  // ----- The merge in terms of the rows and players alone -----

  lemma {:induction false} ProposalOnRows(fold: Text -> Text, c: Catalog, rows: seq<Row>, id: Ident, r: Row)
    ensures Proposes(fold, c, rows, id, r)
       <==> && r in rows && r.namespace == id.0 && fold(r.alias) == id.1
            && exists i :: 0 <= i < |c| && c[i].key == r.key && (r.display.None? || r.display.value == c[i].display)
  {
  }

  lemma {:induction false} OwnsOnPlayers(fold: Text -> Text, c: Catalog, id: Ident, key: Text)
    ensures Owns(fold, c, id, key)
       <==> exists i, b :: 0 <= i < |c| && c[i].key == key && b in c[i].aliases && b.namespace == id.0 && fold(b.name) == id.1
  {
    if Owns(fold, c, id, key) {
      var i, a :| 0 <= i < |c| && c[i].key == key && a in c[i].aliases && IdentOf(fold, a) == id;
      assert a.namespace == id.0 && fold(a.name) == id.1;
    }
    if i, b :| 0 <= i < |c| && c[i].key == key && b in c[i].aliases && b.namespace == id.0 && fold(b.name) == id.1 {
      assert IdentOf(fold, b) == id;
    }
  }

  lemma {:induction false} UnclaimedOnPlayers(fold: Text -> Text, c: Catalog, id: Ident)
    ensures Unclaimed(fold, c, id) <==> forall i, b :: 0 <= i < |c| && b in c[i].aliases ==> !(b.namespace == id.0 && fold(b.name) == id.1)
  {
    hide Owns;
    if Unclaimed(fold, c, id) {
      forall i, b | 0 <= i < |c| && b in c[i].aliases
        ensures !(b.namespace == id.0 && fold(b.name) == id.1)
      {
        OwnsOnPlayers(fold, c, id, c[i].key);
      }
    } else {
      var key :| Owns(fold, c, id, key);
      OwnsOnPlayers(fold, c, id, key);
    }
  }

  /** The aliases after the merge: those of the base, and the least spelling of every identity that
      no base player holds and on whose player all rows that fit a player agree. */
  lemma {:induction false} AliasesOnRows(fold: Text -> Text, c: Catalog, rows: seq<Row>, m: Merged, key: Text, a: Alias)
    requires IsMerge(fold, c, rows, m)
    ensures (exists i :: 0 <= i < |m.catalog| && m.catalog[i].key == key && a in m.catalog[i].aliases)
       <==> (exists i :: 0 <= i < |c| && c[i].key == key && a in c[i].aliases)
            || (&& (forall i, b :: 0 <= i < |c| && b in c[i].aliases ==> !(b.namespace == a.namespace && fold(b.name) == fold(a.name)))
                && (exists r :: r in rows && r.namespace == a.namespace && r.alias == a.name
                      && exists i :: 0 <= i < |c| && c[i].key == r.key && (r.display.None? || r.display.value == c[i].display))
                && (forall r ::
                      (&& r in rows && r.namespace == a.namespace && fold(r.alias) == fold(a.name)
                       && exists i :: 0 <= i < |c| && c[i].key == r.key && (r.display.None? || r.display.value == c[i].display)) ==>
                        r.key == key && a.name <= r.alias))
  {
    var id := IdentOf(fold, a);
    AliasesAfter(fold, c, rows, m, key, a);
    UnclaimedOnPlayers(fold, c, id);
    hide IsMerge, Unclaimed, Eligible, Owns;
    forall r
      ensures Proposes(fold, c, rows, id, r)
         <==> && r in rows && r.namespace == a.namespace && fold(r.alias) == fold(a.name)
              && exists i :: 0 <= i < |c| && c[i].key == r.key && (r.display.None? || r.display.value == c[i].display)
    {
      ProposalOnRows(fold, c, rows, id, r);
    }
    AddsOnProposals(fold, c, rows, key, a);
    hide Proposes, Adds;
  }

  lemma {:induction false} AliasesAfter(fold: Text -> Text, c: Catalog, rows: seq<Row>, m: Merged, key: Text, a: Alias)
    requires IsMerge(fold, c, rows, m)
    ensures HasAlias(m.catalog, key, a) <==> HasAlias(c, key, a) || Adds(fold, c, rows, key, a)
  {
    hide Normal, HasAlias, HasPlayer, Adds, NewIdents, KeptIdents, IsRowConflict, IsIdentConflict;
  }

  lemma {:induction false} AddsOnProposals(fold: Text -> Text, c: Catalog, rows: seq<Row>, key: Text, a: Alias)
    ensures Adds(fold, c, rows, key, a)
       <==> && Unclaimed(fold, c, IdentOf(fold, a))
            && (exists r :: Proposes(fold, c, rows, IdentOf(fold, a), r) && r.alias == a.name)
            && (forall r :: Proposes(fold, c, rows, IdentOf(fold, a), r) ==> r.key == key && a.name <= r.alias)
  {
    hide Proposes, Unclaimed;
  }

  /** The rows reported: those for a key that no player has, and those with a display name that the
      player of their key does not have. */
  lemma {:induction false} RowConflictsOnRows(fold: Text -> Text, c: Catalog, rows: seq<Row>, m: Merged, number: nat, key: Text)
    requires IsMerge(fold, c, rows, m)
    ensures UnknownPlayer(number, key) in m.conflicts
       <==> (exists r :: r in rows && r.number == number && r.key == key) && forall i :: 0 <= i < |c| ==> c[i].key != key
    ensures DisplayMismatch(number, key) in m.conflicts
       <==> && (exists i :: 0 <= i < |c| && c[i].key == key)
            && exists r :: r in rows && r.number == number && r.key == key && r.display.Some?
                 && forall i :: 0 <= i < |c| && c[i].key == key ==> c[i].display != r.display.value
  {
    RowConflictIs(fold, c, rows, m, UnknownPlayer(number, key));
    RowConflictIs(fold, c, rows, m, DisplayMismatch(number, key));
    hide IsMerge;
  }

  lemma {:induction false} RowConflictIs(fold: Text -> Text, c: Catalog, rows: seq<Row>, m: Merged, x: Conflict)
    requires IsMerge(fold, c, rows, m) && (x.UnknownPlayer? || x.DisplayMismatch?)
    ensures x in m.conflicts <==> IsRowConflict(c, rows, x)
  {
    hide Normal, HasAlias, HasPlayer, Adds, NewIdents, KeptIdents, IsRowConflict;
  }

  /** The identities reported: those for which fitting rows name several players, and those that a
      base player holds while all fitting rows name another. */
  lemma {:induction false} CollisionsOnRows(fold: Text -> Text, c: Catalog, rows: seq<Row>, m: Merged, id: Ident, targets: set<Text>, existing: Text,
                                            imported: Text)
    requires IsMerge(fold, c, rows, m)
    ensures InputCollision(id, targets) in m.conflicts
       <==> |targets| >= 2 && forall key :: key in targets <==> exists r :: Proposes(fold, c, rows, id, r) && r.key == key
    ensures AliasCollision(id, existing, imported) in m.conflicts
       <==> && existing != imported && (exists r :: Proposes(fold, c, rows, id, r))
            && (forall r :: Proposes(fold, c, rows, id, r) ==> r.key == imported)
            && exists i, b :: 0 <= i < |c| && c[i].key == existing && b in c[i].aliases && b.namespace == id.0 && fold(b.name) == id.1
  {
    DisputesReported(fold, c, rows, m, InputCollision(id, targets));
    DisputesReported(fold, c, rows, m, AliasCollision(id, existing, imported));
    SeveralMembers(targets);
    OwnsOnPlayers(fold, c, id, existing);
    hide IsMerge, Proposes, Owns;
  }

  lemma {:induction false} SeveralMembers(s: set<Text>)
    ensures |s| >= 2 <==> (exists x :: x in s) && !exists x :: s == {x}
  {
    if s != {} {
      var x := Pick(s);
      if |s| == 1 {
        assert |s - {x}| == 0;
        assert s == {x};
      }
      if y :| s == {y} {
        assert |s| == 1;
      }
    }
  }

  /** How often a conflict is reported: once for every row with an unknown player or a different
      display name, and once for an identity, however many rows propose it. */
  lemma {:induction false} ReportsOnRows(fold: Text -> Text, c: Catalog, rows: seq<Row>, m: Merged, number: nat, key: Text, x: Conflict)
    requires IsMerge(fold, c, rows, m)
    ensures var those := set i: nat | && i < |rows| && rows[i].number == number && rows[i].key == key
                                      && forall k :: 0 <= k < |c| ==> c[k].key != key;
            multiset(m.conflicts)[UnknownPlayer(number, key)] == |those|
    ensures var those := set i: nat | && i < |rows| && rows[i].number == number && rows[i].key == key && rows[i].display.Some?
                                      && (exists k :: 0 <= k < |c| && c[k].key == key)
                                      && forall k :: 0 <= k < |c| && c[k].key == key ==> c[k].display != rows[i].display.value;
            multiset(m.conflicts)[DisplayMismatch(number, key)] == |those|
    ensures x.InputCollision? || x.AliasCollision? ==> multiset(m.conflicts)[x] <= 1
  {
    hide Normal, HasPlayer, HasAlias, Adds, IsRowConflict, IsIdentConflict, NewIdents, KeptIdents, SortedBy;
    assert forall y :: multiset(m.conflicts)[y] == TimesReported(c, rows, m.conflicts, y);
    hide IsMerge, EachReported;
    var unknown := set i: nat | && i < |rows| && rows[i].number == number && rows[i].key == key
                                && forall k :: 0 <= k < |c| ==> c[k].key != key;
    assert RowsRejected(c, rows, UnknownPlayer(number, key)) == unknown;
    var different := set i: nat | && i < |rows| && rows[i].number == number && rows[i].key == key && rows[i].display.Some?
                                  && (exists k :: 0 <= k < |c| && c[k].key == key)
                                  && forall k :: 0 <= k < |c| && c[k].key == key ==> c[k].display != rows[i].display.value;
    forall i: nat
      ensures i in RowsRejected(c, rows, DisplayMismatch(number, key)) <==> i in different
    {
    }
    assert RowsRejected(c, rows, DisplayMismatch(number, key)) == different;
  }

  /** The conflicts are listed by kind, and those of a kind by row number or by identity. */
  lemma {:induction false} ReportOrder(fold: Text -> Text, c: Catalog, rows: seq<Row>, m: Merged, i: nat, j: nat)
    requires IsMerge(fold, c, rows, m) && i < j < |m.conflicts|
    ensures var x, y := m.conflicts[i], m.conflicts[j];
            && (y.AliasCollision? ==> x.AliasCollision?)
            && (y.DisplayMismatch? ==> x.AliasCollision? || x.DisplayMismatch?)
            && (x.InputCollision? ==> y.InputCollision? || y.UnknownPlayer?)
            && (x.UnknownPlayer? ==> y.UnknownPlayer?)
            && ((x.UnknownPlayer? && y.UnknownPlayer?) || (x.DisplayMismatch? && y.DisplayMismatch?) ==> x.number <= y.number)
            && ((x.AliasCollision? && y.AliasCollision?) || (x.InputCollision? && y.InputCollision?) ==>
                  x.id.0 < y.id.0 || (x.id.0 == y.id.0 && x.id.1 <= y.id.1))
  {
    assert ConflictBefore(m.conflicts[i], m.conflicts[j]);
  }

  /** The counts: identities that the merged catalog holds and the base does not are added, those
      that the rows confirm are kept. */
  lemma {:induction false} CountsOnCatalogs(fold: Text -> Text, c: Catalog, rows: seq<Row>, m: Merged, id: Ident)
    requires IsMerge(fold, c, rows, m)
    ensures m.added == |NewIdents(fold, c, rows)| && m.kept == |KeptIdents(fold, c, rows)|
    ensures id in NewIdents(fold, c, rows) <==> (exists key :: Owns(fold, m.catalog, id, key)) && forall key :: !Owns(fold, c, id, key)
    ensures id in KeptIdents(fold, c, rows) <==>
              exists key :: Owns(fold, c, id, key) && (exists r :: Proposes(fold, c, rows, id, r))
                            && forall r :: Proposes(fold, c, rows, id, r) ==> r.key == key
  {
    forall key
      ensures Owns(fold, m.catalog, id, key) <==> Owns(fold, c, id, key) || (Unclaimed(fold, c, id) && Agreed(fold, c, rows, id, key))
    {
      OwnedAfter(fold, c, rows, m, id, key);
    }
    if r :| Proposes(fold, c, rows, id, r) {
      ProposedIsListed(fold, c, rows, id, r);
    }
    hide IsMerge, Owns, Proposes, Proposed;
    assert m.added == |NewIdents(fold, c, rows)| && m.kept == |KeptIdents(fold, c, rows)| by {
      CountsOfMerge(fold, c, rows, m);
    }
  }

  lemma {:induction false} CountsOfMerge(fold: Text -> Text, c: Catalog, rows: seq<Row>, m: Merged)
    requires IsMerge(fold, c, rows, m)
    ensures m.added == |NewIdents(fold, c, rows)| && m.kept == |KeptIdents(fold, c, rows)|
  {
    hide Normal, HasAlias, HasPlayer, Adds, NewIdents, KeptIdents, IsRowConflict, IsIdentConflict;
  }

  lemma {:induction false} ProposedIsListed(fold: Text -> Text, c: Catalog, rows: seq<Row>, id: Ident, r: Row)
    requires Proposes(fold, c, rows, id, r)
    ensures id in Proposed(fold, rows)
  {
  }
}
