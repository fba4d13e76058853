/** Importing unit compositions: the analyzer emits a snapshot only when the counts change,
    the importer stores a row only when one unit's count changes, and yet every point query
    inside the coverage answers with the dense timeline's counts. */
module CompositionImport {
  import opened SparseTables
  import opened Options
  import opened Sorting

  type Counts = map<Name, int>

  datatype Snapshot = Snapshot(frame: int, counts: Counts)

  function CountIn(c: Counts, name: Name): int { if name in c then c[name] else 0 }

  function Positive(c: Counts): Counts { map n | n in c && c[n] > 0 :: c[n] }

  ghost predicate FramesIncrease(s: seq<Snapshot>) {
    forall i, j :: 0 <= i < j < |s| ==> s[i].frame < s[j].frame
  }

  predicate CountsOk(c: Counts) { forall n :: n in c ==> c[n] >= 0 }

  ghost predicate ValidSnapshots(s: seq<Snapshot>) {
    FramesIncrease(s) && forall i :: 0 <= i < |s| ==> 0 <= s[i].frame && CountsOk(s[i].counts)
  }

  /** `check_samples` for compositions. */
  method CheckSnapshots(s: seq<Snapshot>) returns (ok: bool)
    ensures ok <==> ValidSnapshots(s)
  {
    var previous := -1;
    for i := 0 to |s|
      invariant -1 <= previous && previous == if i == 0 then -1 else s[i - 1].frame
      invariant forall k :: 0 <= k < i ==> 0 <= s[k].frame <= previous && CountsOk(s[k].counts)
      invariant forall k, l :: 0 <= k < l < i ==> s[k].frame < s[l].frame
    {
      if s[i].frame <= previous {
        assert i > 0 ==> s[i - 1].frame >= s[i].frame;
        return false;
      }
      if !CountsOk(s[i].counts) {
        return false;
      }
      previous := s[i].frame;
    }
    ok := true;
  }

  lemma {:induction false} FrameOrder(s: seq<Snapshot>, i: nat, j: nat)
    requires FramesIncrease(s) && i < |s| && j < |s|
    ensures i < j <==> s[i].frame < s[j].frame
    ensures i == j <==> s[i].frame == s[j].frame
  {
    if i < j {
      assert s[i].frame < s[j].frame;
    } else if j < i {
      assert s[j].frame < s[i].frame;
    }
  }

  // ----- Rows per unit -----

  function Before(s: seq<Snapshot>, i: nat): Counts
    requires i < |s|
  {
    if i == 0 then map[] else s[i - 1].counts
  }

  predicate Changes(s: seq<Snapshot>, i: nat, name: Name)
    requires i < |s|
  {
    CountIn(s[i].counts, name) != CountIn(Before(s, i), name)
  }

  /** The units whose count changes at snapshot `i`, each with its new count. */
  function RowsAt(s: seq<Snapshot>, i: nat): map<(Name, int), int>
    requires i < |s|
  {
    RowsFor(s, i, s[i].counts.Keys + Before(s, i).Keys)
  }

  function RowsFor(s: seq<Snapshot>, i: nat, names: set<Name>): map<(Name, int), int>
    requires i < |s|
  {
    map n | n in names && Changes(s, i, n) :: (n, s[i].frame) := CountIn(s[i].counts, n)
  }

  function UnitsOf(s: seq<Snapshot>, n: nat): map<(Name, int), int>
    requires n <= |s|
  {
    if n == 0 then map[] else UnitsOf(s, n - 1) + RowsAt(s, n - 1)
  }

  /** The units that go from some to none at snapshot `i`. */
  function Vanished(s: seq<Snapshot>, i: nat): set<Name>
    requires i < |s|
  {
    set n | n in Before(s, i) && Before(s, i)[n] > 0 && CountIn(s[i].counts, n) == 0
  }

  ghost function ZeroTransitions(s: seq<Snapshot>, n: nat): nat
    requires n <= |s|
  {
    if n == 0 then 0 else ZeroTransitions(s, n - 1) + |Vanished(s, n - 1)|
  }

  /** The tables hold exactly the snapshots, covered up to frame `end`. */
  ghost predicate Stores(s: seq<Snapshot>, end: int, t: Tables)
    requires s != []
  {
    && Part(t, CompositionStream) == map[s[0].frame := Segment(end, LegacyInferred)]
    && t.units == UnitsOf(s, |s|)
  }

  predicate NoComposition(t: Tables) {
    Part(t, CompositionStream) == map[] && t.units == map[]
  }

  lemma {:induction false} UnitsHave(s: seq<Snapshot>, n: nat, i: nat, name: Name)
    requires FramesIncrease(s) && i < n <= |s| && Changes(s, i, name)
    ensures (name, s[i].frame) in UnitsOf(s, n) && UnitsOf(s, n)[(name, s[i].frame)] == CountIn(s[i].counts, name)
  {
    if i == n - 1 {
      assert name in s[i].counts.Keys + Before(s, i).Keys;
      assert (name, s[i].frame) in RowsAt(s, i);
    } else {
      hide Changes;
      UnitsHave(s, n - 1, i, name);
      FrameOrder(s, i, n - 1);
      assert (name, s[i].frame) !in RowsAt(s, n - 1);
    }
  }

  lemma {:induction false} UnitsFrom(s: seq<Snapshot>, n: nat, k: (Name, int)) returns (i: nat)
    requires n <= |s| && k in UnitsOf(s, n)
    ensures i < n && Changes(s, i, k.0) && s[i].frame == k.1
  {
    if k in RowsAt(s, n - 1) {
      i := n - 1;
    } else {
      i := UnitsFrom(s, n - 1, k);
    }
  }

  /** The newest snapshot up to `i` that changes this unit's count. */
  function LastChange(s: seq<Snapshot>, i: nat, name: Name): (r: Option<nat>)
    requires i < |s|
    ensures r.Some? ==> r.value <= i && Changes(s, r.value, name)
                        && CountIn(s[r.value].counts, name) == CountIn(s[i].counts, name)
    ensures r.None? ==> CountIn(s[i].counts, name) == 0
    ensures forall k :: (r.Some? ==> r.value < k) && 0 <= k <= i ==> !Changes(s, k, name)
  {
    if Changes(s, i, name) then Some(i) else if i == 0 then None else LastChange(s, i - 1, name)
  }

  /** Snapshot `i` is the one in effect at `frame`. */
  predicate InEffect(s: seq<Snapshot>, i: nat, frame: int) {
    i < |s| && s[i].frame <= frame && (i + 1 < |s| ==> frame < s[i + 1].frame)
  }

  lemma {:induction false} InEffectOrder(s: seq<Snapshot>, i: nat, frame: int, k: nat)
    requires FramesIncrease(s) && InEffect(s, i, frame) && k < |s|
    ensures s[k].frame <= frame <==> k <= i
  {
    FrameOrder(s, k, i);
    if i + 1 < |s| {
      FrameOrder(s, k, i + 1);
    }
  }

  lemma {:induction false} CountAtFrame(s: seq<Snapshot>, t: Tables, i: nat, frame: int, name: Name)
    requires ValidSnapshots(s) && s != [] && t.units == UnitsOf(s, |s|) && InEffect(s, i, frame)
    ensures CountUpTo(t, name, s[0].frame, frame) == CountIn(s[i].counts, name)
    ensures var frames := UnitFrames(t, name, s[0].frame, frame);
            var last := LastChange(s, i, name);
            if last.None? then frames == {} else frames != {} && Greatest(frames) == s[last.value].frame
  {
    hide Changes, UnitsOf, InEffect, Before;
    InEffectIndex(s, i, frame);
    var frames, last := UnitFrames(t, name, s[0].frame, frame), LastChange(s, i, name);
    forall f | f in frames
      ensures last.Some? && f <= s[last.value].frame
    {
      var k := UnitsFrom(s, |s|, (name, f));
      InEffectOrder(s, i, frame, k);
      FrameOrder(s, last.value, k);
    }
    if last.Some? {
      UnitsHave(s, |s|, last.value, name);
      InEffectOrder(s, i, frame, last.value);
      FrameOrder(s, 0, last.value);
      assert s[last.value].frame in frames;
    }
  }

  lemma {:induction false} InEffectIndex(s: seq<Snapshot>, i: nat, frame: int)
    requires InEffect(s, i, frame)
    ensures i < |s|
  {
  }

  /** Inside the coverage, the composition is that of the snapshot in effect. */
  lemma {:induction false} CompositionInEffect(s: seq<Snapshot>, end: int, t: Tables, domain: set<Name>, i: nat, frame: int)
    requires ValidSnapshots(s) && s != [] && Stores(s, end, t) && InEffect(s, i, frame) && frame <= end
    requires forall n :: n in s[i].counts ==> n in domain
    ensures CompositionAt(t, domain, frame) == CompositionKnown(Positive(s[i].counts))
  {
    CoveredByOneSegment(s, end, t, frame, i);
    assert t.units == UnitsOf(s, |s|);
    hide Coverage, CountUpTo, UnitsOf, Positive, CountIn, Stores, ValidSnapshots, InEffect;
    forall n | n in domain
      ensures CountUpTo(t, n, s[0].frame, frame) == CountIn(s[i].counts, n)
    {
      CountAtFrame(s, t, i, frame, n);
    }
    PositiveCounts(t, domain, s[0].frame, frame, s[i].counts);
  }

  lemma {:induction false} PositiveCounts(t: Tables, domain: set<Name>, start: int, frame: int, counts: Counts)
    requires forall n :: n in counts ==> n in domain
    requires forall n :: n in domain ==> CountUpTo(t, n, start, frame) == CountIn(counts, n)
    ensures Positive(counts) == map n | n in domain && CountUpTo(t, n, start, frame) > 0 :: CountUpTo(t, n, start, frame)
  {
    hide CountUpTo;
  }

  /** The per-unit query agrees with it for every name of the domain, zero counts included,
      and reports the frame of the last change. */
  lemma {:induction false} UnitInEffect(s: seq<Snapshot>, end: int, t: Tables, domain: set<Name>, i: nat, frame: int, name: Name)
    requires ValidSnapshots(s) && s != [] && Stores(s, end, t) && InEffect(s, i, frame) && frame <= end
    ensures UnitAt(t, domain, name, frame)
         == if name !in domain then UnitUnobserved
            else UnitKnown(CountIn(s[i].counts, name),
                           if LastChange(s, i, name).Some? then Some(s[LastChange(s, i, name).value].frame) else None)
  {
    CoveredByOneSegment(s, end, t, frame, i);
    CountAtFrame(s, t, i, frame, name);
    hide Coverage, CountUpTo, InEffect, UnitsOf;
  }

  lemma {:induction false} CoveredByOneSegment(s: seq<Snapshot>, end: int, t: Tables, frame: int, i: nat)
    requires FramesIncrease(s) && s != [] && Stores(s, end, t) && InEffect(s, i, frame) && frame <= end
    ensures Coverage(t, CompositionStream, frame) == InSegment(s[0].frame, Segment(end, LegacyInferred))
  {
    FrameOrder(s, 0, i);
    var starts := StartsUpTo(Part(t, CompositionStream), frame);
    assert s[0].frame in starts;
    assert Greatest(starts) == s[0].frame;
  }

  lemma {:induction false} OutsideCoverage(s: seq<Snapshot>, end: int, t: Tables, frame: int)
    requires s != [] && Stores(s, end, t) && s[0].frame <= end
    ensures frame < s[0].frame ==> Coverage(t, CompositionStream, frame) == NotCovered(BeforeCoverage)
    ensures frame > end ==> Coverage(t, CompositionStream, frame) == NotCovered(AfterCoverage)
  {
    var starts := StartsUpTo(Part(t, CompositionStream), frame);
    if frame > end {
      assert s[0].frame in starts;
    } else if frame < s[0].frame {
      assert starts == {};
    }
  }

  // ----- No row can be dropped -----

  function WithoutRow(t: Tables, name: Name, f: int): Tables { t.(units := t.units - {(name, f)}) }

  lemma {:induction false} RowComesBefore(s: seq<Snapshot>, t: Tables, i: nat, name: Name, x: int)
    requires ValidSnapshots(s) && i < |s| && t.units == UnitsOf(s, |s|) && (name, x) in t.units
    ensures s[0].frame <= x
    ensures x < s[i].frame <==> i > 0 && x <= s[i - 1].frame
  {
    hide Changes, UnitsOf, CountsOk;
    var j := UnitsFrom(s, |s|, (name, x));
    FrameOrder(s, 0, j);
    FrameOrder(s, j, i);
    if i > 0 {
      FrameOrder(s, j, i - 1);
    }
  }

  lemma {:induction false} FramesWithoutRow(s: seq<Snapshot>, t: Tables, i: nat, name: Name)
    requires ValidSnapshots(s) && i < |s| && t.units == UnitsOf(s, |s|)
    ensures var f := s[i].frame;
            UnitFrames(WithoutRow(t, name, f), name, s[0].frame, f)
            == if i == 0 then {} else UnitFrames(t, name, s[0].frame, s[i - 1].frame)
  {
    hide ValidSnapshots, UnitsOf;
    var f := s[i].frame;
    var t' := WithoutRow(t, name, f);
    var frames := UnitFrames(t', name, s[0].frame, f);
    forall x
      ensures x in frames <==> i > 0 && x in UnitFrames(t, name, s[0].frame, s[i - 1].frame)
    {
      assert x in frames <==> (name, x) in t.units && x != f && s[0].frame <= x <= f;
      assert i > 0 ==> (x in UnitFrames(t, name, s[0].frame, s[i - 1].frame)
                        <==> (name, x) in t.units && s[0].frame <= x <= s[i - 1].frame);
      if (name, x) in t.units {
        RowComesBefore(s, t, i, name, x);
      }
    }
  }

  /** Without its row, a unit's count at the row's frame is the previous one. */
  lemma {:induction false} CountWithoutRow(s: seq<Snapshot>, t: Tables, i: nat, name: Name)
    requires ValidSnapshots(s) && i < |s| && t.units == UnitsOf(s, |s|)
    ensures var f := s[i].frame;
            CountUpTo(WithoutRow(t, name, f), name, s[0].frame, f) == CountIn(Before(s, i), name)
  {
    FramesWithoutRow(s, t, i, name);
    if i > 0 {
      EffectAtOwnFrame(s, i - 1);
      CountAtFrame(s, t, i - 1, s[i - 1].frame, name);
      FrameOrder(s, i - 1, i);
      hide ValidSnapshots, UnitsOf, UnitFrames, Changes;
      SameCount(t, name, s[0].frame, s[i - 1].frame, s[i].frame);
    }
  }

  lemma {:induction false} SameCount(t: Tables, name: Name, start: int, g: int, f: int)
    requires g < f && UnitFrames(WithoutRow(t, name, f), name, start, f) == UnitFrames(t, name, start, g)
    ensures CountUpTo(WithoutRow(t, name, f), name, start, f) == CountUpTo(t, name, start, g)
  {
    var frames := UnitFrames(t, name, start, g);
    if frames != {} {
      assert Greatest(frames) in frames;
    }
  }

  lemma {:induction false} ChangedIsNamed(s: seq<Snapshot>, i: nat, name: Name, domain: set<Name>)
    requires i < |s| && Changes(s, i, name) && NamesKnown(s, |s|, domain)
    ensures name in domain
  {
    assert name in s[i].counts.Keys || (i > 0 && name in s[i - 1].counts.Keys);
  }

  /** Different counts of one unit make different compositions. */
  lemma {:induction false} CountsShow(t: Tables, t': Tables, domain: set<Name>, start: int, frame: int, name: Name)
    requires name in domain && CountUpTo(t, name, start, frame) != CountUpTo(t', name, start, frame)
    requires CountUpTo(t, name, start, frame) >= 0 && CountUpTo(t', name, start, frame) >= 0
    ensures (map n | n in domain && CountUpTo(t, n, start, frame) > 0 :: CountUpTo(t, n, start, frame))
         != (map n | n in domain && CountUpTo(t', n, start, frame) > 0 :: CountUpTo(t', n, start, frame))
  {
    hide CountUpTo;
    var m := map n | n in domain && CountUpTo(t, n, start, frame) > 0 :: CountUpTo(t, n, start, frame);
    var m' := map n | n in domain && CountUpTo(t', n, start, frame) > 0 :: CountUpTo(t', n, start, frame);
    if CountUpTo(t, name, start, frame) > 0 {
      assert name in m && m[name] == CountUpTo(t, name, start, frame);
      assert name in m' ==> m'[name] != m[name];
    } else {
      assert name !in m && name in m';
    }
  }

  /** Dropping any stored row changes, at its own frame, both the unit's and the whole answer. */
  lemma {:induction false} UnitRowsAreMinimal(s: seq<Snapshot>, end: int, t: Tables, domain: set<Name>, name: Name, f: int)
    requires ValidSnapshots(s) && s != [] && Stores(s, end, t) && s[|s| - 1].frame <= end
    requires NamesKnown(s, |s|, domain) && (name, f) in t.units
    ensures UnitAt(WithoutRow(t, name, f), domain, name, f) != UnitAt(t, domain, name, f)
    ensures CompositionAt(WithoutRow(t, name, f), domain, f) != CompositionAt(t, domain, f)
  {
    var i := UnitsFrom(s, |s|, (name, f));
    assert Changes(s, i, name);
    assert t.units == UnitsOf(s, |s|);
    hide *;
    SameCoverage(t, name, f);
    RowIsCovered(s, end, t, i);
    ChangedIsNamed(s, i, name, domain);
    CountsDiffer(s, t, i, name);
    AnswersFollowCounts(t, WithoutRow(t, name, f), domain, s[0].frame, Segment(end, LegacyInferred), f, name);
  }

  lemma {:induction false} SameCoverage(t: Tables, name: Name, f: int)
    ensures Coverage(WithoutRow(t, name, f), CompositionStream, f) == Coverage(t, CompositionStream, f)
  {
  }

  lemma {:induction false} RowIsCovered(s: seq<Snapshot>, end: int, t: Tables, i: nat)
    requires ValidSnapshots(s) && i < |s| && Stores(s, end, t) && s[|s| - 1].frame <= end
    ensures Coverage(t, CompositionStream, s[i].frame) == InSegment(s[0].frame, Segment(end, LegacyInferred))
  {
    FrameOrder(s, i, |s| - 1);
    EffectAtOwnFrame(s, i);
    hide Coverage, Stores;
    CoveredByOneSegment(s, end, t, s[i].frame, i);
  }

  lemma {:induction false} CountsDiffer(s: seq<Snapshot>, t: Tables, i: nat, name: Name)
    requires ValidSnapshots(s) && i < |s| && t.units == UnitsOf(s, |s|) && Changes(s, i, name)
    ensures var now, was := CountUpTo(t, name, s[0].frame, s[i].frame),
                CountUpTo(WithoutRow(t, name, s[i].frame), name, s[0].frame, s[i].frame);
            now >= 0 && was >= 0 && now != was
  {
    EffectAtOwnFrame(s, i);
    CountsAreNatural(s, i, name);
    hide ValidSnapshots, UnitsOf, CountUpTo, CountIn, Before;
    CountWithoutRow(s, t, i, name);
    CountAtFrame(s, t, i, s[i].frame, name);
  }

  lemma {:induction false} AnswersFollowCounts(t: Tables, t': Tables, domain: set<Name>, start: int, segment: Segment, f: int, name: Name)
    requires Coverage(t, CompositionStream, f) == Coverage(t', CompositionStream, f) == InSegment(start, segment)
    requires segment.basis != ObservationsOnly && name in domain
    requires CountUpTo(t, name, start, f) != CountUpTo(t', name, start, f)
    requires CountUpTo(t, name, start, f) >= 0 && CountUpTo(t', name, start, f) >= 0
    ensures UnitAt(t, domain, name, f) != UnitAt(t', domain, name, f)
    ensures CompositionAt(t, domain, f) != CompositionAt(t', domain, f)
  {
    hide Coverage, CountUpTo, UnitFrames;
    CountsShow(t, t', domain, start, f, name);
  }

  lemma {:induction false} EffectAtOwnFrame(s: seq<Snapshot>, i: nat)
    requires FramesIncrease(s) && i < |s|
    ensures InEffect(s, i, s[i].frame)
  {
  }

  lemma {:induction false} CountsAreNatural(s: seq<Snapshot>, i: nat, name: Name)
    requires ValidSnapshots(s) && i < |s|
    ensures CountIn(s[i].counts, name) >= 0 && CountIn(Before(s, i), name) >= 0
  {
  }

  // ----- The import -----

  ghost predicate NamesKnown(s: seq<Snapshot>, n: nat, domain: set<Name>)
    requires n <= |s|
  {
    forall i :: 0 <= i < n ==> s[i].counts.Keys <= domain
  }

  /** The units of `names` whose count becomes zero at snapshot `i`. */
  function GoneFrom(s: seq<Snapshot>, i: nat, names: set<Name>): set<Name>
    requires i < |s|
  {
    set n | n in names && Changes(s, i, n) && CountIn(s[i].counts, n) == 0
  }

  lemma {:induction false} OneMoreName(s: seq<Snapshot>, i: nat, names: set<Name>, name: Name)
    requires i < |s| && name !in names
    ensures RowsFor(s, i, names + {name})
         == if Changes(s, i, name) then RowsFor(s, i, names)[(name, s[i].frame) := CountIn(s[i].counts, name)]
            else RowsFor(s, i, names)
    ensures |GoneFrom(s, i, names + {name})|
         == |GoneFrom(s, i, names)| + if Changes(s, i, name) && CountIn(s[i].counts, name) == 0 then 1 else 0
  {
    hide Changes, CountIn;
    if Changes(s, i, name) && CountIn(s[i].counts, name) == 0 {
      assert GoneFrom(s, i, names + {name}) == GoneFrom(s, i, names) + {name};
    } else {
      assert GoneFrom(s, i, names + {name}) == GoneFrom(s, i, names);
    }
  }

  lemma {:induction false} NoName(s: seq<Snapshot>, i: nat)
    requires i < |s|
    ensures RowsFor(s, i, {}) == map[] && GoneFrom(s, i, {}) == {}
  {
  }

  lemma {:induction false} GoneIsVanished(s: seq<Snapshot>, i: nat)
    requires i < |s| && CountsOk(Before(s, i))
    ensures GoneFrom(s, i, s[i].counts.Keys + Before(s, i).Keys) == Vanished(s, i)
  {
  }

  /** One snapshot's rows: every unit of this or the previous snapshot is checked against
      the declared names and stored when its count changed. */
  method ImportSnapshot(s: seq<Snapshot>, i: nat, domain: set<Name>)
    returns (ok: bool, rows: map<(Name, int), int>, zeroes: nat)
    requires i < |s|
    ensures ok <==> s[i].counts.Keys + Before(s, i).Keys <= domain
    ensures ok ==> rows == RowsAt(s, i)
    ensures ok && CountsOk(Before(s, i)) ==> zeroes == |Vanished(s, i)|
  {
    hide RowsFor, GoneFrom, Changes, CountIn, CountsOk, Vanished, Before, Firsts, SortedKeys;
    var all := s[i].counts.Keys + Before(s, i).Keys;
    var names := SortedKeys(all);
    AllFirsts(all);
    rows, zeroes := map[], 0;
    NoName(s, i);
    if CountsOk(Before(s, i)) {
      GoneIsVanished(s, i);
    }
    for k := 0 to |names|
      invariant Firsts(names, k) <= domain
      invariant rows == RowsFor(s, i, Firsts(names, k)) && zeroes == |GoneFrom(s, i, Firsts(names, k))|
    {
      var name := names[k];
      OneMoreFirst(names, k);
      if name !in domain {
        ok := false;
        return;
      }
      OneMoreName(s, i, Firsts(names, k), name);
      if Changes(s, i, name) {
        rows := rows[(name, s[i].frame) := CountIn(s[i].counts, name)];
        zeroes := zeroes + if CountIn(s[i].counts, name) == 0 then 1 else 0;
      }
    }
    ok := true;
  }

  lemma {:induction false} SnapshotsBefore(s: seq<Snapshot>, i: nat)
    requires ValidSnapshots(s) && i < |s|
    ensures CountsOk(Before(s, i))
  {
  }

  lemma {:induction false} NamesKnownNext(s: seq<Snapshot>, i: nat, domain: set<Name>)
    requires i < |s| && NamesKnown(s, i, domain)
    ensures s[i].counts.Keys + Before(s, i).Keys <= domain <==> NamesKnown(s, i + 1, domain)
    ensures !NamesKnown(s, i + 1, domain) ==> !NamesKnown(s, |s|, domain)
  {
    if i > 0 {
      assert s[i - 1].counts.Keys <= domain;
    }
  }

  /** The rows of all snapshots, and how often a unit vanished. */
  method ImportRows(s: seq<Snapshot>, domain: set<Name>) returns (ok: bool, rows: map<(Name, int), int>, zeroes: nat)
    requires ValidSnapshots(s)
    ensures ok <==> NamesKnown(s, |s|, domain)
    ensures ok ==> rows == UnitsOf(s, |s|) && zeroes == ZeroTransitions(s, |s|)
  {
    hide RowsAt, Vanished, NamesKnown, ValidSnapshots, Before, CountsOk;
    ok, rows, zeroes := true, map[], 0;
    NoNames(s, domain);
    for i := 0 to |s|
      invariant ok && rows == UnitsOf(s, i) && zeroes == ZeroTransitions(s, i)
      invariant NamesKnown(s, i, domain)
    {
      var more, gone;
      ok, more, gone := ImportSnapshot(s, i, domain);
      NamesKnownNext(s, i, domain);
      SnapshotsBefore(s, i);
      if !ok {
        return;
      }
      rows, zeroes := rows + more, zeroes + gone;
    }
  }

  /** `import_composition_segment`.  Into an observation without composition rows it accepts
      exactly the valid lists over declared names whose end is not before the last snapshot,
      and reports how often a unit vanished. */
  method ImportComposition(t: Tables, s: seq<Snapshot>, domain: set<Name>, end: Option<int>)
    returns (ok: bool, r: Tables, zeroes: nat)
    ensures NoComposition(t) ==>
              (ok <==> ValidSnapshots(s) && NamesKnown(s, |s|, domain)
                       && (s != [] && end.Some? ==> end.value >= s[|s| - 1].frame))
    ensures NoComposition(t) && ok && s != [] ==> Stores(s, if end.Some? then end.value else s[|s| - 1].frame, r)
    ensures NoComposition(t) && ok ==> zeroes == ZeroTransitions(s, |s|)
    ensures ok ==> OnlyChanges(CompositionStream, t, r)
    ensures s == [] ==> r == t
  {
    hide UnitsOf, ZeroTransitions, NamesKnown, Overlaps, ValidSnapshots, CountsOk;
    r, zeroes := t, 0;
    NoTransitions(s);
    ok := CheckSnapshots(s);
    NoNames(s, domain);
    if !ok || s == [] {
      return;
    }
    var last := if end.Some? then end.value else s[|s| - 1].frame;
    if last < s[|s| - 1].frame {
      ok := false;
      return;
    }
    FirstIsLeast(s);
    NothingOverlaps(s[0].frame, last);
    ok, r := AddCoverage(t, CompositionStream, s[0].frame, last, LegacyInferred);
    if !ok {
      return;
    }
    var rows;
    ok, rows, zeroes := ImportRows(s, domain);
    if !ok {
      return;
    }
    ok := rows.Keys !! r.units.Keys;
    r := r.(units := r.units + rows);
  }

  lemma {:induction false} NoNames(s: seq<Snapshot>, domain: set<Name>)
    ensures NamesKnown(s, 0, domain)
  {
  }

  lemma {:induction false} NoTransitions(s: seq<Snapshot>)
    ensures ZeroTransitions(s, 0) == 0
  {
  }

  lemma {:induction false} FirstIsLeast(s: seq<Snapshot>)
    requires ValidSnapshots(s) && s != []
    ensures 0 <= s[0].frame <= s[|s| - 1].frame
  {
    FrameOrder(s, 0, |s| - 1);
  }

  lemma {:induction false} NothingOverlaps(start: int, end: int)
    ensures !Overlaps(map[], start, end)
  {
  }
}
