/** The two compression layers together.  The analyzer (replay_analysis.py) emits a
    composition snapshot only when the dictionary differs from the last one; the importer
    (sparse.py) stores a row only when one unit differs.  `validate` is the source's own
    oracle; here it is proved to accept every import. */
module TimelineStore {
  import opened SparseTables
  import opened CompositionImport
  import Economy = EconomyImport
  import opened Options
  import opened Sorting

  // ----- First layer: the analyzer's change-only emission -----

  /** The snapshots emitted for the first `n` frames of the timeline. */
  function Emitted(dense: seq<Snapshot>, n: nat): (r: seq<Snapshot>)
    requires n <= |dense|
    ensures n > 0 ==> r != [] && r[|r| - 1].counts == dense[n - 1].counts
    ensures n == 0 ==> r == []
  {
    if n == 0 then []
    else
      var r := Emitted(dense, n - 1);
      if n > 1 && dense[n - 1].counts == dense[n - 2].counts then r else r + [dense[n - 1]]
  }

  predicate ChangesAt(dense: seq<Snapshot>, k: nat) { k < |dense| && (k == 0 || dense[k].counts != dense[k - 1].counts) }

  /** `emitted` holds the first `n` frames at which the counts change, in order. */
  ghost predicate HoldsChanges(dense: seq<Snapshot>, n: nat, emitted: seq<Snapshot>, positions: seq<nat>) {
    && n <= |dense| && |positions| == |emitted| && (n == 0 ==> emitted == [])
    && (forall i, j :: 0 <= i < j < |positions| ==> positions[i] < positions[j])
    && (forall i :: 0 <= i < |positions| ==> positions[i] < n && emitted[i] == dense[positions[i]])
    && (forall k: nat :: k in positions <==> k < n && ChangesAt(dense, k))
    && (forall i, j :: 0 <= i && j == i + 1 < |emitted| ==> emitted[i].counts != emitted[j].counts)
    && (n > 0 ==> emitted != [] && emitted[|emitted| - 1].counts == dense[n - 1].counts)
  }

  lemma {:induction false} KeepsChange(dense: seq<Snapshot>, n: nat, emitted: seq<Snapshot>, positions: seq<nat>)
    requires HoldsChanges(dense, n, emitted, positions) && n < |dense| && ChangesAt(dense, n)
    ensures HoldsChanges(dense, n + 1, emitted + [dense[n]], positions + [n])
  {
    var p := positions + [n];
    forall k: nat
      ensures k in p <==> k < n + 1 && ChangesAt(dense, k)
    {
      assert k in p <==> k in positions || k == n;
    }
  }

  lemma {:induction false} SkipsRepeat(dense: seq<Snapshot>, n: nat, emitted: seq<Snapshot>, positions: seq<nat>)
    requires HoldsChanges(dense, n, emitted, positions) && n < |dense| && !ChangesAt(dense, n)
    ensures HoldsChanges(dense, n + 1, emitted, positions)
  {
  }

  /** The loop of `analyze_timeline` for one owner: it compares with the last emitted counts. */
  method EmitChanges(dense: seq<Snapshot>) returns (emitted: seq<Snapshot>, ghost positions: seq<nat>)
    ensures emitted == Emitted(dense, |dense|)
    ensures |positions| == |emitted|
    ensures forall i, j :: 0 <= i < j < |positions| ==> positions[i] < positions[j]
    ensures forall i :: 0 <= i < |positions| ==> positions[i] < |dense| && emitted[i] == dense[positions[i]]
    ensures forall k: nat :: k in positions <==> k < |dense| && (k == 0 || dense[k].counts != dense[k - 1].counts)
    ensures forall i, j :: 0 <= i && j == i + 1 < |emitted| ==> emitted[i].counts != emitted[j].counts
  {
    hide HoldsChanges;
    emitted, positions := [], [];
    NothingHeld(dense);
    var previous: Option<Counts> := None;
    for i := 0 to |dense|
      invariant emitted == Emitted(dense, i)
      invariant previous == if i == 0 then None else Some(dense[i - 1].counts)
      invariant HoldsChanges(dense, i, emitted, positions)
    {
      if previous != Some(dense[i].counts) {
        KeepsChange(dense, i, emitted, positions);
        emitted := emitted + [dense[i]];
        positions := positions + [i];
        previous := Some(dense[i].counts);
      } else {
        SkipsRepeat(dense, i, emitted, positions);
      }
    }
    HeldChanges(dense, emitted, positions);
  }

  lemma {:induction false} NothingHeld(dense: seq<Snapshot>)
    ensures HoldsChanges(dense, 0, [], [])
  {
  }

  lemma {:induction false} HeldChanges(dense: seq<Snapshot>, emitted: seq<Snapshot>, positions: seq<nat>)
    requires HoldsChanges(dense, |dense|, emitted, positions)
    ensures |positions| == |emitted|
    ensures forall i, j :: 0 <= i < j < |positions| ==> positions[i] < positions[j]
    ensures forall i :: 0 <= i < |positions| ==> positions[i] < |dense| && emitted[i] == dense[positions[i]]
    ensures forall k: nat :: k in positions <==> k < |dense| && (k == 0 || dense[k].counts != dense[k - 1].counts)
    ensures forall i, j :: 0 <= i && j == i + 1 < |emitted| ==> emitted[i].counts != emitted[j].counts
  {
    assert forall k: nat :: k in positions <==> ChangesAt(dense, k);
  }

  /** Emission keeps first frames and order, and only ever appends. */
  lemma {:induction false} EmittedIsValid(dense: seq<Snapshot>, n: nat)
    requires ValidSnapshots(dense) && n <= |dense|
    ensures ValidSnapshots(Emitted(dense, n))
    ensures n > 0 ==> Emitted(dense, n)[0] == dense[0]
    ensures n > 0 ==> Emitted(dense, n)[|Emitted(dense, n)| - 1].frame <= dense[n - 1].frame
    ensures |Emitted(dense, n)| <= n
  {
    hide CountsOk;
    if n > 1 {
      EmittedIsValid(dense, n - 1);
      EmittedNext(dense, n);
      FrameOrder(dense, n - 2, n - 1);
      var r := Emitted(dense, n - 1);
      hide Emitted;
      forall i | 0 <= i < |r|
        ensures r[i].frame <= dense[n - 2].frame
      {
        FrameOrder(r, i, |r| - 1);
      }
    }
  }

  lemma {:induction false} EmittedNext(dense: seq<Snapshot>, m: nat)
    requires 0 < m <= |dense|
    ensures Emitted(dense, m) == Emitted(dense, m - 1) || Emitted(dense, m) == Emitted(dense, m - 1) + [dense[m - 1]]
  {
  }

  lemma {:induction false} EmittedGrows(dense: seq<Snapshot>, n: nat, m: nat)
    requires ValidSnapshots(dense) && n <= m <= |dense|
    ensures |Emitted(dense, n)| <= |Emitted(dense, m)|
    ensures Emitted(dense, m)[..|Emitted(dense, n)|] == Emitted(dense, n)
    ensures forall i :: |Emitted(dense, n)| <= i < |Emitted(dense, m)| ==> n < |dense| && Emitted(dense, m)[i].frame >= dense[n].frame
  {
    hide Emitted, CountsOk;
    if n < m {
      EmittedGrows(dense, n, m - 1);
      FrameOrder(dense, n, m - 1);
      EmittedNext(dense, m);
      hide ValidSnapshots;
    }
  }

  /** At every timeline frame the emitted snapshot in effect has that frame's counts. */
  lemma {:induction false} EmissionIsLossless(dense: seq<Snapshot>, k: nat)
    requires ValidSnapshots(dense) && k < |dense|
    ensures var e := Emitted(dense, |dense|); var i := |Emitted(dense, k + 1)| - 1;
            && i >= 0 && InEffect(e, i, dense[k].frame) && e[i].counts == dense[k].counts
  {
    var e, first := Emitted(dense, |dense|), Emitted(dense, k + 1);
    EmittedIsValid(dense, k + 1);
    EmittedGrows(dense, k + 1, |dense|);
    var i := |first| - 1;
    assert e[i] == e[..|first|][i] == first[i];
    if i + 1 < |e| {
      FrameOrder(dense, k, k + 1);
      assert e[i + 1].frame >= dense[k + 1].frame;
    }
  }

  // ----- Both layers -----

  /** The tables hold the emitted snapshots of a timeline, covered to the last of them. */
  ghost predicate StoresTimeline(dense: seq<Snapshot>, t: Tables, domain: set<Name>) {
    && ValidSnapshots(dense) && dense != []
    && Stores(Emitted(dense, |dense|), LastEmitted(dense), t)
    && NamesKnown(dense, |dense|, domain)
  }

  function LastEmitted(dense: seq<Snapshot>): int
    requires dense != []
  {
    var e := Emitted(dense, |dense|);
    e[|e| - 1].frame
  }

  /** For every frame of the dense timeline up to the last emitted snapshot the stored
      composition is exactly the positive counts of that frame, and every single unit,
      present or not, agrees; later frames are reported as after the coverage. */
  lemma {:induction false} TimelineIsPreserved(dense: seq<Snapshot>, t: Tables, domain: set<Name>, k: nat, name: Name)
    requires StoresTimeline(dense, t, domain) && k < |dense|
    ensures dense[k].frame <= LastEmitted(dense) ==>
              && CompositionAt(t, domain, dense[k].frame) == CompositionKnown(Positive(dense[k].counts))
              && (name in domain ==> UnitAt(t, domain, name, dense[k].frame).UnitKnown?
                                     && UnitAt(t, domain, name, dense[k].frame).count == CountIn(dense[k].counts, name))
    ensures dense[k].frame > LastEmitted(dense) ==>
              CompositionAt(t, domain, dense[k].frame) == CompositionUnknown(AfterCoverage)
  {
    var e, i, end := Emitted(dense, |dense|), |Emitted(dense, k + 1)| - 1, LastEmitted(dense);
    EmissionIsLossless(dense, k);
    EmittedIsValid(dense, |dense|);
    FrameOrder(e, 0, |e| - 1);
    hide InEffect, Emitted, Stores, Coverage, ValidSnapshots, Positive;
    if dense[k].frame <= end {
      assert forall n :: n in dense[k].counts ==> n in domain;
      CompositionInEffect(e, end, t, domain, i, dense[k].frame);
      UnitInEffect(e, end, t, domain, i, dense[k].frame, name);
    } else {
      OutsideCoverage(e, end, t, dense[k].frame);
    }
  }

  // ----- The source's own oracle -----

  ghost predicate EconomyMatches(t: Tables, s: seq<Economy.Sample>, n: nat)
    requires n <= |s|
  {
    forall i :: 0 <= i < n ==>
      EconomyAt(t, s[i].frame).EconomyKnown? && EconomyAt(t, s[i].frame).state == s[i].state
  }

  predicate SnapshotMatches(t: Tables, domain: set<Name>, s: seq<Snapshot>, i: nat)
    requires i < |s|
  {
    CompositionAt(t, domain, s[i].frame) == CompositionKnown(Positive(s[i].counts))
  }

  /** A unit that vanished has an explicit zero stored on that very frame. */
  predicate ZeroIsExplicit(t: Tables, domain: set<Name>, s: seq<Snapshot>, i: nat, name: Name)
    requires i < |s|
  {
    var answer := UnitAt(t, domain, name, s[i].frame);
    answer.UnitKnown? && answer.count == 0 && answer.lastChange == Some(s[i].frame)
  }

  ghost predicate CompositionMatches(t: Tables, domain: set<Name>, s: seq<Snapshot>, n: nat)
    requires n <= |s|
  {
    forall i :: 0 <= i < n ==>
      SnapshotMatches(t, domain, s, i) && forall name :: name in Vanished(s, i) ==> ZeroIsExplicit(t, domain, s, i, name)
  }

  /** What a stream's lookup says about a frame: known, or why not. */
  datatype Availability = IsKnown | NotKnown(why: Missing) | Failed

  function EconomyAvailability(t: Tables, frame: int): Availability {
    match EconomyAt(t, frame)
    case EconomyKnown(_, _) => IsKnown
    case EconomyUnknown(why) => NotKnown(why)
    case LacksInitialState => Failed
  }

  function CompositionAvailability(t: Tables, domain: set<Name>, frame: int): Availability {
    match CompositionAt(t, domain, frame)
    case CompositionKnown(_) => IsKnown
    case CompositionUnknown(why) => NotKnown(why)
    case CompositionUnobserved => Failed
  }

  predicate EndsKnown(part: map<int, Segment>, availability: int -> Availability, s: int)
    requires s in part
  {
    availability(s).IsKnown? && availability(part[s].end).IsKnown?
  }

  /** Both ends of every segment are covered, and nothing leaks out before the first or
      after the last. */
  ghost predicate NoLeaks(part: map<int, Segment>, availability: int -> Availability) {
    && (forall s :: s in part ==> EndsKnown(part, availability, s))
    && (part.Keys != {} ==>
          && (Least(part.Keys) > 0 ==> availability(Least(part.Keys) - 1).NotKnown?)
          && availability(part[Greatest(part.Keys)].end + 1) == NotKnown(AfterCoverage))
  }

  ghost predicate OracleAccepts(t: Tables, domain: set<Name>, economy: seq<Economy.Sample>, composition: seq<Snapshot>) {
    && EconomyMatches(t, economy, |economy|)
    && CompositionMatches(t, domain, composition, |composition|)
    && NoLeaks(Part(t, EconomyStream), f => EconomyAvailability(t, f))
    && NoLeaks(Part(t, CompositionStream), f => CompositionAvailability(t, domain, f))
  }

  method CheckVanished(t: Tables, domain: set<Name>, s: seq<Snapshot>, i: nat) returns (ok: bool, zeros: nat)
    requires i < |s|
    ensures ok <==> forall name :: name in Vanished(s, i) ==> ZeroIsExplicit(t, domain, s, i, name)
    ensures ok ==> zeros == |Vanished(s, i)|
  {
    hide ZeroIsExplicit, Vanished, Firsts, SortedKeys;
    var names := SortedKeys(Vanished(s, i));
    AllFirsts(Vanished(s, i));
    zeros := 0;
    for k := 0 to |names|
      invariant zeros == |Firsts(names, k)|
      invariant forall n :: n in Firsts(names, k) ==> ZeroIsExplicit(t, domain, s, i, n)
    {
      OneMoreFirst(names, k);
      if !ZeroIsExplicit(t, domain, s, i, names[k]) {
        ok := false;
        return;
      }
      zeros := zeros + 1;
    }
    ok := true;
  }

  /** The oracle's tests on the sorted starts. */
  ghost predicate EdgesHold(part: map<int, Segment>, starts: seq<int>, availability: int -> Availability)
    requires forall k :: 0 <= k < |starts| ==> starts[k] in part
  {
    && (forall k :: 0 <= k < |starts| ==> EndsKnown(part, availability, starts[k]))
    && (starts != [] ==>
          && (starts[0] > 0 ==> availability(starts[0] - 1).NotKnown?)
          && availability(part[starts[|starts| - 1]].end + 1) == NotKnown(AfterCoverage))
  }

  lemma {:induction false} StartsAreKeys(part: map<int, Segment>)
    ensures forall k :: 0 <= k < |SortedKeys(part.Keys)| ==> SortedKeys(part.Keys)[k] in part
  {
    AllFirsts(part.Keys);
  }

  lemma {:induction false} KnownAtStarts(part: map<int, Segment>, starts: seq<int>, availability: int -> Availability)
    requires forall x :: x in starts <==> x in part
    requires forall k :: 0 <= k < |starts| ==> starts[k] in part
    ensures (forall s :: s in part ==> EndsKnown(part, availability, s))
       <==> forall k :: 0 <= k < |starts| ==> EndsKnown(part, availability, starts[k])
  {
    hide EndsKnown;
    if forall k :: 0 <= k < |starts| ==> EndsKnown(part, availability, starts[k]) {
      forall s | s in part
        ensures EndsKnown(part, availability, s)
      {
        assert s in starts;
        var k :| 0 <= k < |starts| && starts[k] == s;
      }
    }
  }

  lemma {:induction false} LeaksAtEdges(part: map<int, Segment>, availability: int -> Availability)
    requires forall k :: 0 <= k < |SortedKeys(part.Keys)| ==> SortedKeys(part.Keys)[k] in part
    ensures NoLeaks(part, availability) <==> EdgesHold(part, SortedKeys(part.Keys), availability)
  {
    hide SortedKeys, Least, Greatest, EndsKnown;
    var starts := SortedKeys(part.Keys);
    StartsListKeys(part);
    KnownAtStarts(part, starts, availability);
    if starts != [] {
      FirstAndLast(part.Keys, starts);
    }
  }

  lemma {:induction false} StartsListKeys(part: map<int, Segment>)
    ensures forall x :: x in SortedKeys(part.Keys) <==> x in part
    ensures SortedKeys(part.Keys) == [] <==> part.Keys == {}
  {
    var starts := SortedKeys(part.Keys);
    assert forall x :: x in starts <==> x in part.Keys;
    if starts == [] {
      assert part.Keys == {};
    } else {
      assert starts[0] in starts;
    }
  }

  method CheckLeaks(part: map<int, Segment>, availability: int -> Availability) returns (ok: bool)
    ensures ok <==> NoLeaks(part, availability)
  {
    hide NoLeaks, SortedKeys;
    var starts := SortedKeys(part.Keys);
    StartsAreKeys(part);
    LeaksAtEdges(part, availability);
    for i := 0 to |starts|
      invariant forall k :: 0 <= k < i ==> EndsKnown(part, availability, starts[k])
    {
      if !availability(starts[i]).IsKnown? || !availability(part[starts[i]].end).IsKnown? {
        return false;
      }
    }
    if |starts| > 0 {
      var first, last := starts[0], starts[|starts| - 1];
      if first > 0 && !availability(first - 1).NotKnown? {
        return false;
      }
      if availability(part[last].end + 1) != NotKnown(AfterCoverage) {
        return false;
      }
    }
    ok := true;
  }

  lemma {:induction false} FirstAndLast(keys: set<int>, sorted: seq<int>)
    requires Ascending(sorted) && sorted != [] && forall x :: x in sorted <==> x in keys
    ensures keys != {} && Least(keys) == sorted[0] && Greatest(keys) == sorted[|sorted| - 1]
  {
    assert sorted[0] in keys && sorted[|sorted| - 1] in keys;
    assert Least(keys) in sorted && Greatest(keys) in sorted;
  }

  datatype Validation = Accepted(economySamples: nat, snapshots: nat, zeroTransitions: nat) | Rejected

  /** `validate`: the point queries executed at every source frame. */
  method Validate(t: Tables, domain: set<Name>, economy: seq<Economy.Sample>, composition: seq<Snapshot>) returns (r: Validation)
    ensures r.Accepted? <==> OracleAccepts(t, domain, economy, composition)
    ensures r.Accepted? ==> r == Accepted(|economy|, |composition|, ZeroTransitions(composition, |composition|))
  {
    hide EconomyAt, SnapshotMatches, ZeroIsExplicit, NoLeaks, Vanished;
    for i := 0 to |economy|
      invariant EconomyMatches(t, economy, i)
    {
      var answer := EconomyAt(t, economy[i].frame);
      if !(answer.EconomyKnown? && answer.state == economy[i].state) {
        return Rejected;
      }
    }
    var zeros := 0;
    for i := 0 to |composition|
      invariant CompositionMatches(t, domain, composition, i)
      invariant zeros == ZeroTransitions(composition, i)
    {
      var explicit, more := CheckVanished(t, domain, composition, i);
      if !SnapshotMatches(t, domain, composition, i) || !explicit {
        return Rejected;
      }
      zeros := zeros + more;
    }
    var ok := CheckLeaks(Part(t, EconomyStream), f => EconomyAvailability(t, f));
    if ok {
      ok := CheckLeaks(Part(t, CompositionStream), f => CompositionAvailability(t, domain, f));
    }
    r := if ok then Accepted(|economy|, |composition|, zeros) else Rejected;
  }

  // ----- The oracle accepts every import -----

  lemma {:induction false} EconomyPasses(t: Tables, s: seq<Economy.Sample>)
    requires Economy.ValidSamples(s) && Economy.Stores(s, t)
    ensures EconomyMatches(t, s, |s|)
    ensures NoLeaks(Part(t, EconomyStream), f => EconomyAvailability(t, f))
  {
    hide EconomyAt, Economy.ValidSamples, Economy.LastRow, Economy.RowsOf, Economy.IsRow, Economy.NewSegment;
    var part := Part(t, EconomyStream);
    forall i | 0 <= i < |s|
      ensures EconomyAt(t, s[i].frame).EconomyKnown? && EconomyAt(t, s[i].frame).state == s[i].state
    {
      Economy.EconomyAtSample(s, t, i);
    }
    forall x | x in part
      ensures EconomyAvailability(t, x).IsKnown? && EconomyAvailability(t, part[x].end).IsKnown?
    {
      var i := Economy.CoverageFrom(s, |s|, x);
      assert x == s[Economy.RunStart(s, i)].frame;
    }
    if part.Keys != {} {
      EconomyEdges(t, s);
    }
  }

  lemma {:induction false} EconomyEdges(t: Tables, s: seq<Economy.Sample>)
    requires Economy.ValidSamples(s) && Economy.Stores(s, t) && Part(t, EconomyStream).Keys != {}
    ensures var part := Part(t, EconomyStream);
            && EconomyAvailability(t, Least(part.Keys) - 1).NotKnown?
            && EconomyAvailability(t, part[Greatest(part.Keys)].end + 1) == NotKnown(AfterCoverage)
  {
    hide EconomyAt, Economy.RowsOf, Economy.CoverageOf, Economy.RunStart, Economy.NewSegment;
    var part := Part(t, EconomyStream);
    var n := |s|;
    var i := Economy.CoverageFrom(s, n, Least(part.Keys));
    var j := Economy.CoverageFrom(s, n, Greatest(part.Keys));
    Economy.CoverageHas(s, n, 0);
    Economy.CoverageHas(s, n, n - 1);
    Economy.FrameOrder(s, 0, Economy.RunStart(s, i));
    Economy.FrameOrder(s, 0, Economy.RunStart(s, 0));
    assert Least(part.Keys) == s[0].frame;
    forall k | 0 <= k < n
      ensures s[k].frame != s[0].frame - 1 && s[k].frame != s[n - 1].frame + 1
    {
      Economy.FrameOrder(s, 0, k);
      Economy.FrameOrder(s, k, n - 1);
    }
    Economy.EconomyOffSample(s, t, s[0].frame - 1);
    Economy.EconomyOffSample(s, t, s[n - 1].frame + 1);
    var last := Economy.RunStart(s, n - 1);
    Economy.RunStartIsLatest(s, n - 1, Economy.RunStart(s, j));
    Economy.FrameOrder(s, Economy.RunStart(s, j), last);
    assert Economy.RunStart(s, j) == last;
    assert part[Greatest(part.Keys)].end == s[n - 1].frame by {
      Economy.FrameOrder(s, j, n - 1);
    }
  }

  lemma {:induction false} CompositionPasses(t: Tables, domain: set<Name>, s: seq<Snapshot>)
    requires ValidSnapshots(s) && NamesKnown(s, |s|, domain)
    requires s != [] && Stores(s, s[|s| - 1].frame, t)
    ensures CompositionMatches(t, domain, s, |s|)
    ensures NoLeaks(Part(t, CompositionStream), f => CompositionAvailability(t, domain, f))
  {
    hide SnapshotMatches, ZeroIsExplicit, Stores, NamesKnown, ValidSnapshots, Vanished, NoLeaks;
    forall i | 0 <= i < |s|
      ensures SnapshotMatches(t, domain, s, i)
      ensures forall name :: name in Vanished(s, i) ==> ZeroIsExplicit(t, domain, s, i, name)
    {
      SnapshotPasses(t, domain, s, i);
    }
    CompositionEdges(t, domain, s);
  }

  lemma {:induction false} CompositionEdges(t: Tables, domain: set<Name>, s: seq<Snapshot>)
    requires ValidSnapshots(s) && s != [] && Stores(s, s[|s| - 1].frame, t)
    requires SnapshotMatches(t, domain, s, 0) && SnapshotMatches(t, domain, s, |s| - 1)
    ensures NoLeaks(Part(t, CompositionStream), f => CompositionAvailability(t, domain, f))
  {
    hide *;
    var availability := f => CompositionAvailability(t, domain, f);
    EndsAreKnown(t, domain, s);
    OutsideIsNotKnown(t, domain, s);
    OneStoredSegment(t, s);
    assert availability(s[0].frame) == availability(s[|s| - 1].frame) == IsKnown;
    assert availability(s[0].frame - 1) == NotKnown(BeforeCoverage) && availability(s[|s| - 1].frame + 1) == NotKnown(AfterCoverage);
    OneSegmentEdges(s[0].frame, Segment(s[|s| - 1].frame, LegacyInferred), availability);
  }

  lemma {:induction false} OneStoredSegment(t: Tables, s: seq<Snapshot>)
    requires s != [] && Stores(s, s[|s| - 1].frame, t)
    ensures Part(t, CompositionStream) == map[s[0].frame := Segment(s[|s| - 1].frame, LegacyInferred)]
  {
    hide Part, UnitsOf;
  }

  lemma {:induction false} EndsAreKnown(t: Tables, domain: set<Name>, s: seq<Snapshot>)
    requires s != [] && SnapshotMatches(t, domain, s, 0) && SnapshotMatches(t, domain, s, |s| - 1)
    ensures CompositionAvailability(t, domain, s[0].frame) == IsKnown
    ensures CompositionAvailability(t, domain, s[|s| - 1].frame) == IsKnown
  {
    hide CompositionAt, Positive;
  }

  lemma {:induction false} OutsideIsNotKnown(t: Tables, domain: set<Name>, s: seq<Snapshot>)
    requires ValidSnapshots(s) && s != [] && Stores(s, s[|s| - 1].frame, t)
    ensures CompositionAvailability(t, domain, s[0].frame - 1) == NotKnown(BeforeCoverage)
    ensures CompositionAvailability(t, domain, s[|s| - 1].frame + 1) == NotKnown(AfterCoverage)
  {
    var end := s[|s| - 1].frame;
    FrameOrder(s, 0, |s| - 1);
    OutsideCoverage(s, end, t, s[0].frame - 1);
    OutsideCoverage(s, end, t, end + 1);
    hide Coverage, Stores, CountUpTo, ValidSnapshots;
  }

  lemma {:induction false} OneSegmentEdges(start: int, segment: Segment, availability: int -> Availability)
    requires availability(start).IsKnown? && availability(segment.end).IsKnown?
    requires availability(start - 1).NotKnown? && availability(segment.end + 1) == NotKnown(AfterCoverage)
    ensures NoLeaks(map[start := segment], availability)
  {
    var part := map[start := segment];
    assert part.Keys == {start};
    assert Least(part.Keys) == Greatest(part.Keys) == start;
  }

  lemma {:induction false} SnapshotPasses(t: Tables, domain: set<Name>, s: seq<Snapshot>, i: nat)
    requires ValidSnapshots(s) && NamesKnown(s, |s|, domain) && i < |s|
    requires Stores(s, s[|s| - 1].frame, t)
    ensures SnapshotMatches(t, domain, s, i)
    ensures forall name :: name in Vanished(s, i) ==> ZeroIsExplicit(t, domain, s, i, name)
  {
    var end := s[|s| - 1].frame;
    FrameOrder(s, i, |s| - 1);
    if i + 1 < |s| {
      FrameOrder(s, i, i + 1);
    }
    assert InEffect(s, i, s[i].frame);
    assert s[i].counts.Keys <= domain && (i > 0 ==> s[i - 1].counts.Keys <= domain);
    assert forall n :: n in s[i].counts ==> n in domain;
    forall name | name in Vanished(s, i)
      ensures name in domain && Changes(s, i, name) && CountIn(s[i].counts, name) == 0
    {
    }
    hide UnitsOf, InEffect, CompositionAt, UnitAt, Vanished;
    CompositionInEffect(s, end, t, domain, i, s[i].frame);
    forall name | name in Vanished(s, i)
      ensures ZeroIsExplicit(t, domain, s, i, name)
    {
      UnitInEffect(s, end, t, domain, i, s[i].frame, name);
      assert LastChange(s, i, name) == Some(i);
    }
  }

  /** The oracle never rejects what the two importers stored. */
  lemma {:induction false} ImportsPassOracle(t: Tables, domain: set<Name>, economy: seq<Economy.Sample>, composition: seq<Snapshot>)
    requires Economy.ValidSamples(economy) && Economy.Stores(economy, t)
    requires ValidSnapshots(composition) && NamesKnown(composition, |composition|, domain)
    requires if composition == [] then NoComposition(t) else Stores(composition, composition[|composition| - 1].frame, t)
    ensures OracleAccepts(t, domain, economy, composition)
  {
    hide NoLeaks, EconomyMatches, CompositionMatches, Economy.Stores, Stores;
    EconomyPasses(t, economy);
    if composition != [] {
      CompositionPasses(t, domain, composition);
    } else {
      NothingPasses(t, domain);
    }
  }

  lemma {:induction false} NothingPasses(t: Tables, domain: set<Name>)
    requires NoComposition(t)
    ensures CompositionMatches(t, domain, [], 0)
    ensures NoLeaks(Part(t, CompositionStream), f => CompositionAvailability(t, domain, f))
  {
  }
}
