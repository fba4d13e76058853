/** What the sparse tables of packages/corpus-store/python/sparse.py hold and answer, in terms of
    the imported samples alone: which rows are stored, which segments are covered, and what
    the queries return. */
module StoredRows {
  import opened SparseTables
  import opened CompositionImport
  import opened TimelineStore
  import Economy = EconomyImport
  import opened Options
  import opened Sorting

  predicate InFrames(lo: int, hi: int, frame: int) { lo <= frame <= hi }

  // ----- Coverage -----

  /** A new segment is refused exactly when it shares a frame with a stored one; a segment that
      begins right after another is not. */
  lemma {:induction false} OverlapIsSharedFrame(part: map<int, Segment>, start: int, end: int)
    requires start <= end && forall s :: s in part ==> s <= part[s].end
    ensures Overlaps(part, start, end)
       <==> exists s, f :: s in part && InFrames(s, part[s].end, f) && InFrames(start, end, f)
  {
    if Overlaps(part, start, end) {
      var s :| s in part && s <= end && part[s].end >= start;
      var f := if s < start then start else s;
      assert InFrames(s, part[s].end, f) && InFrames(start, end, f);
    }
  }

  /** Over disjoint segments a frame is covered by the one that contains it; otherwise the answer
      says on which side of the segments it lies. */
  lemma {:induction false} CoverageOnRows(t: Tables, stream: Stream, frame: int)
    requires SegmentsDisjoint(Part(t, stream)) && forall s :: s in Part(t, stream) ==> s <= Part(t, stream)[s].end
    ensures var part, r := Part(t, stream), Coverage(t, stream, frame);
            && (r.InSegment? ==> r.start in part && part[r.start] == r.segment && r.start <= frame <= r.segment.end)
            && (r.InSegment? <==> exists s :: s in part && InFrames(s, part[s].end, frame))
            && (r == NotCovered(BeforeCoverage) <==> forall s :: s in part ==> frame < s)
            && (r == NotCovered(AfterCoverage) <==> part.Keys != {} && forall s :: s in part ==> part[s].end < frame)
  {
    var part := Part(t, stream);
    var starts := StartsUpTo(part, frame);
    if starts == {} {
      forall s | s in part
        ensures frame < s
      {
        assert s !in starts;
      }
      if s :| s in part {
        assert part[s].end >= frame;
      }
    } else {
      var start := Greatest(starts);
      assert start in part && start <= frame;
      forall s | s in part && s != start
        ensures s <= frame ==> part[s].end < start
      {
        assert s <= frame ==> s in starts;
      }
    }
  }

  // ----- Economy -----

  /** A sample is stored exactly when it begins a run of consecutive frames or differs from the
      sample before; every stored row is such a sample. */
  lemma {:induction false} EconomyRowsStored(s: seq<Economy.Sample>, t: Tables)
    requires Economy.ValidSamples(s) && Economy.Stores(s, t)
    ensures forall i :: 0 <= i < |s| ==>
              (s[i].frame in t.economy <==> i == 0 || s[i].frame != s[i - 1].frame + 1 || s[i].state != s[i - 1].state)
    ensures forall i :: 0 <= i < |s| && s[i].frame in t.economy ==> t.economy[s[i].frame] == s[i].state
    ensures forall f :: f in t.economy ==> exists i :: 0 <= i < |s| && s[i].frame == f
  {
    hide Economy.RowsOf, Economy.CoverageOf, Economy.StateOk;
    forall i | 0 <= i < |s|
      ensures s[i].frame in t.economy <==> i == 0 || s[i].frame != s[i - 1].frame + 1 || s[i].state != s[i - 1].state
      ensures s[i].frame in t.economy ==> t.economy[s[i].frame] == s[i].state
    {
      if Economy.IsRow(s, i) {
        Economy.RowsHave(s, |s|, i);
      }
      if s[i].frame in t.economy {
        StoredIsRow(s, t, i);
      }
    }
    forall f | f in t.economy
      ensures exists i :: 0 <= i < |s| && s[i].frame == f
    {
      var k := Economy.RowsFrom(s, |s|, f);
    }
  }

  lemma {:induction false} StoredIsRow(s: seq<Economy.Sample>, t: Tables, i: nat)
    requires Economy.ValidSamples(s) && Economy.Stores(s, t) && i < |s| && s[i].frame in t.economy
    ensures Economy.IsRow(s, i)
  {
    hide Economy.RowsOf, Economy.CoverageOf, Economy.IsRow;
    var k := Economy.RowsFrom(s, |s|, s[i].frame);
    Economy.FrameOrder(s, i, k);
  }

  /** A segment begins at a sample exactly when the frame before was not sampled. */
  lemma {:induction false} SegmentStarts(s: seq<Economy.Sample>, t: Tables, i: nat)
    requires Economy.ValidSamples(s) && Economy.Stores(s, t) && i < |s|
    ensures s[i].frame in Part(t, EconomyStream) <==> i == 0 || s[i].frame != s[i - 1].frame + 1
  {
    hide Economy.RowsOf, Economy.CoverageOf, Economy.StateOk;
    if Economy.NewSegment(s, i) {
      Economy.CoverageHas(s, |s|, i);
    }
    if s[i].frame in Part(t, EconomyStream) {
      var k := Economy.CoverageFrom(s, |s|, s[i].frame);
      Economy.FrameOrder(s, i, Economy.RunStart(s, k));
    }
  }

  /** The samples from the start of a run on have consecutive frames. */
  lemma {:induction false} RunIsConsecutive(s: seq<Economy.Sample>, i: nat, k: nat)
    requires i < |s| && Economy.RunStart(s, i) <= k <= i
    ensures s[k].frame == s[Economy.RunStart(s, i)].frame + (k - Economy.RunStart(s, i))
  {
    if Economy.NewSegment(s, i) {
    } else if k < i {
      RunIsConsecutive(s, i - 1, k);
    } else {
      RunIsConsecutive(s, i - 1, i - 1);
    }
  }

  /** Every segment is verified and runs from a sample to the last one of consecutive frames. */
  lemma {:induction false} SegmentIsRun(s: seq<Economy.Sample>, t: Tables, f: int)
    requires Economy.ValidSamples(s) && Economy.Stores(s, t) && f in Part(t, EconomyStream)
    ensures var segment := Part(t, EconomyStream)[f];
            && segment.basis == Verified
            && (exists i :: 0 <= i < |s| && s[i].frame == f)
            && (exists i :: 0 <= i < |s| && s[i].frame == segment.end && (i == |s| - 1 || s[i + 1].frame != s[i].frame + 1))
            && f <= segment.end
            && forall g :: InFrames(f, segment.end, g) ==> exists i :: 0 <= i < |s| && s[i].frame == g
  {
    hide Economy.RowsOf, Economy.CoverageOf, Economy.StateOk;
    var segment := Part(t, EconomyStream)[f];
    var i := Economy.CoverageFrom(s, |s|, f);
    var r := Economy.RunStart(s, i);
    Economy.CoverageHas(s, |s|, i);
    LastOfRun(s, t, i, f);
    RunIsConsecutive(s, i, i);
    forall g | InFrames(f, segment.end, g)
      ensures exists k :: 0 <= k < |s| && s[k].frame == g
    {
      RunIsConsecutive(s, i, r + (g - f));
    }
  }

  /** No sample continues a run past the end of its segment. */
  lemma {:induction false} LastOfRun(s: seq<Economy.Sample>, t: Tables, i: nat, f: int)
    requires Economy.ValidSamples(s) && Economy.Stores(s, t) && i < |s| && f == s[Economy.RunStart(s, i)].frame
    requires f in Part(t, EconomyStream) && Part(t, EconomyStream)[f].end == s[i].frame
    ensures i == |s| - 1 || s[i + 1].frame != s[i].frame + 1
  {
    hide Economy.RowsOf, Economy.CoverageOf, Economy.StateOk;
    if i + 1 < |s| && s[i + 1].frame == s[i].frame + 1 {
      assert Economy.RunStart(s, i + 1) == Economy.RunStart(s, i);
      Economy.CoverageHas(s, |s|, i + 1);
      assert false;
    }
  }

  /** On a sampled frame the query returns the sample's state and the frame from which on the
      samples are consecutive and equal. */
  lemma {:induction false} EconomyQueried(s: seq<Economy.Sample>, t: Tables, i: nat) returns (r: nat)
    requires Economy.ValidSamples(s) && Economy.Stores(s, t) && i < |s|
    ensures r <= i && EconomyAt(t, s[i].frame) == EconomyKnown(s[i].state, s[r].frame)
    ensures r == 0 || s[r].frame != s[r - 1].frame + 1 || s[r].state != s[r - 1].state
    ensures forall k :: r < k <= i ==> s[k].frame == s[k - 1].frame + 1 && s[k].state == s[k - 1].state
  {
    Economy.EconomyAtSample(s, t, i);
    r := Economy.LastRow(s, i);
    hide Economy.ValidSamples, Economy.Stores, Economy.RunStart, EconomyAt;
    forall k | r < k <= i
      ensures s[k].frame == s[k - 1].frame + 1 && s[k].state == s[k - 1].state
    {
      assert !Economy.IsRow(s, k);
    }
  }

  /** On any other frame the answer is before, after or gap, by the frames that were sampled. */
  lemma {:induction false} EconomyNotQueried(s: seq<Economy.Sample>, t: Tables, frame: int)
    requires Economy.ValidSamples(s) && Economy.Stores(s, t)
    requires forall i :: 0 <= i < |s| ==> s[i].frame != frame
    ensures EconomyAt(t, frame)
         == EconomyUnknown(if forall i :: 0 <= i < |s| ==> frame < s[i].frame then BeforeCoverage
                           else if forall i :: 0 <= i < |s| ==> s[i].frame < frame then AfterCoverage else Gap)
  {
    Economy.EconomyOffSample(s, t, frame);
    var n := Economy.Preceding(s, frame);
    hide Economy.Stores, Economy.Preceding, EconomyAt, Economy.StateOk;
    assert n > 0 ==> s[0].frame < frame;
    assert n < |s| ==> !(s[n].frame < frame);
  }

  // ----- Composition -----

  /** Row (name, f) is stored exactly when `f` is the frame of a snapshot in which the unit's count
      differs from the snapshot before; it holds the new count. */
  lemma {:induction false} UnitRowsStored(s: seq<Snapshot>, t: Tables, name: Name, i: nat)
    requires ValidSnapshots(s) && t.units == UnitsOf(s, |s|) && i < |s|
    ensures var now := if name in s[i].counts then s[i].counts[name] else 0;
            var was := if i > 0 && name in s[i - 1].counts then s[i - 1].counts[name] else 0;
            && ((name, s[i].frame) in t.units <==> now != was)
            && ((name, s[i].frame) in t.units ==> t.units[(name, s[i].frame)] == now)
  {
    if Changes(s, i, name) {
      UnitsHave(s, |s|, i, name);
    } else if (name, s[i].frame) in t.units {
      var k := UnitsFrom(s, |s|, (name, s[i].frame));
      FrameOrder(s, i, k);
    }
  }

  lemma {:induction false} UnitRowsAreSnapshots(s: seq<Snapshot>, t: Tables, name: Name, f: int)
    requires t.units == UnitsOf(s, |s|) && (name, f) in t.units
    ensures exists i :: 0 <= i < |s| && s[i].frame == f
  {
    var i := UnitsFrom(s, |s|, (name, f));
  }

  /** From one snapshot to the next, and up to the end of the coverage, the query returns the
      units that the snapshot counts at least once, with their counts. */
  lemma {:induction false} CompositionQueried(s: seq<Snapshot>, end: int, t: Tables, domain: set<Name>, i: nat, frame: int)
    requires ValidSnapshots(s) && i < |s| && Stores(s, end, t) && NamesKnown(s, |s|, domain)
    requires s[i].frame <= frame <= end && (i + 1 < |s| ==> frame < s[i + 1].frame)
    ensures CompositionAt(t, domain, frame).CompositionKnown?
    ensures var m := CompositionAt(t, domain, frame).counts;
            && (forall n :: n in m <==> n in s[i].counts && s[i].counts[n] > 0)
            && (forall n :: n in m ==> m[n] == s[i].counts[n])
  {
    assert s[i].counts.Keys <= domain;
    hide ValidSnapshots, Stores, NamesKnown, CompositionAt;
    CompositionInEffect(s, end, t, domain, i, frame);
  }

  /** A declared unit's count, and the frame of its last change. */
  lemma {:induction false} UnitQueried(s: seq<Snapshot>, end: int, t: Tables, domain: set<Name>, i: nat, frame: int, name: Name)
    returns (last: Option<nat>)
    requires ValidSnapshots(s) && i < |s| && Stores(s, end, t) && name in domain
    requires s[i].frame <= frame <= end && (i + 1 < |s| ==> frame < s[i + 1].frame)
    ensures last.Some? ==> last.value <= i && (name, s[last.value].frame) in t.units
    ensures forall k: nat :: k <= i && (last.Some? ==> last.value < k) ==> (name, s[k].frame) !in t.units
    ensures UnitAt(t, domain, name, frame)
         == UnitKnown(if name in s[i].counts then s[i].counts[name] else 0,
                      if last.Some? then Some(s[last.value].frame) else None)
  {
    UnitInEffect(s, end, t, domain, i, frame, name);
    last := LastChange(s, i, name);
    assert t.units == UnitsOf(s, |s|);
    hide ValidSnapshots, Stores, UnitAt, UnitsOf, LastChange;
    forall k: nat | k <= i
      ensures (name, s[k].frame) in t.units <==> Changes(s, k, name)
    {
      UnitRowsStored(s, t, name, k);
    }
    hide Changes;
  }

  // ----- The timeline -----

  /** A timeline stored through both layers: frames up to the last change answer with their own
      positive counts, later ones are after the coverage. */
  lemma {:induction false} TimelineQueried(dense: seq<Snapshot>, t: Tables, domain: set<Name>, last: nat, k: nat)
    requires StoresTimeline(dense, t, domain) && k < |dense|
    requires last < |dense| && (last == 0 || dense[last].counts != dense[last - 1].counts)
    requires forall j :: last < j < |dense| ==> dense[j].counts == dense[j - 1].counts
    ensures k > last ==> CompositionAt(t, domain, dense[k].frame) == CompositionUnknown(AfterCoverage)
    ensures k <= last ==> CompositionAt(t, domain, dense[k].frame).CompositionKnown?
    ensures k <= last ==>
              var m := CompositionAt(t, domain, dense[k].frame).counts;
              && (forall n :: n in m <==> n in dense[k].counts && dense[k].counts[n] > 0)
              && (forall n :: n in m ==> m[n] == dense[k].counts[n])
  {
    hide CompositionAt, Stores, Emitted;
    LastChangeIsEmitted(dense, |dense|, last);
    FrameOrder(dense, k, last);
    TimelineIsPreserved(dense, t, domain, k, 0);
  }

  lemma {:induction false} LastChangeIsEmitted(dense: seq<Snapshot>, n: nat, last: nat)
    requires last < n <= |dense| && (last == 0 || dense[last].counts != dense[last - 1].counts)
    requires forall j :: last < j < n ==> dense[j].counts == dense[j - 1].counts
    ensures Emitted(dense, n) != [] && Emitted(dense, n)[|Emitted(dense, n)| - 1] == dense[last]
  {
    if last < n - 1 {
      LastChangeIsEmitted(dense, n - 1, last);
    }
  }

  // ----- What is imported, and what the oracle asks -----

  /** The economy samples that are accepted: frames from zero on and increasing, minerals and gas
      present, and no negative number. */
  lemma {:induction false} AcceptedSamples(s: seq<Economy.Sample>)
    ensures Economy.ValidSamples(s)
       <==> && (forall i, j :: 0 <= i < j < |s| ==> s[i].frame < s[j].frame) && (forall i :: 0 <= i < |s| ==> s[i].frame >= 0)
            && (forall i :: 0 <= i < |s| ==> s[i].state.minerals.Some? && s[i].state.gas.Some?)
            && (forall i :: 0 <= i < |s| ==> NoneNegative(s[i].state))
  {
    if Economy.ValidSamples(s) {
      forall i | 0 <= i < |s|
        ensures s[i].state.minerals.Some? && s[i].state.gas.Some? && NoneNegative(s[i].state)
      {
        assert Economy.StateOk(s[i].state);
      }
    }
  }

  predicate NoneNegative(e: EconomyState) {
    forall v :: v in [e.minerals, e.gas, e.workers, e.gatheredMinerals, e.gatheredGas] && v.Some? ==> v.value >= 0
  }

  /** The composition snapshots that are accepted: frames from zero on and increasing, and no
      negative count. */
  lemma {:induction false} AcceptedSnapshots(s: seq<Snapshot>)
    ensures ValidSnapshots(s)
       <==> && (forall i, j :: 0 <= i < j < |s| ==> s[i].frame < s[j].frame) && (forall i :: 0 <= i < |s| ==> s[i].frame >= 0)
            && (forall i, n :: 0 <= i < |s| && n in s[i].counts ==> s[i].counts[n] >= 0)
  {
    if ValidSnapshots(s) {
      forall i, n | 0 <= i < |s| && n in s[i].counts
        ensures s[i].counts[n] >= 0
      {
        assert CountsOk(s[i].counts);
      }
    }
  }

  /** What the oracle demands of one sampled frame... */
  lemma {:induction false} OracleOnSample(t: Tables, domain: set<Name>, economy: seq<Economy.Sample>, composition: seq<Snapshot>, i: nat)
    requires OracleAccepts(t, domain, economy, composition) && i < |economy|
    ensures EconomyAt(t, economy[i].frame).EconomyKnown? && EconomyAt(t, economy[i].frame).state == economy[i].state
  {
    hide EconomyAt, NoLeaks, CompositionMatches;
  }

  /** ... of one snapshot and of a unit that was there before and is gone... */
  lemma {:induction false} OracleOnSnapshot(t: Tables, domain: set<Name>, economy: seq<Economy.Sample>, composition: seq<Snapshot>, i: nat, name: Name)
    requires OracleAccepts(t, domain, economy, composition) && i < |composition|
    ensures CompositionAt(t, domain, composition[i].frame) == CompositionKnown(Positive(composition[i].counts))
    ensures i > 0 && name in composition[i - 1].counts && composition[i - 1].counts[name] > 0
            && !(name in composition[i].counts && composition[i].counts[name] != 0) ==>
              UnitAt(t, domain, name, composition[i].frame) == UnitKnown(0, Some(composition[i].frame))
  {
    AcceptedSnapshot(t, domain, economy, composition, i);
    IsGone(composition, i, name);
    hide OracleAccepts, CompositionAt, UnitAt, Positive, Vanished;
    if name in Vanished(composition, i) {
      assert ZeroIsExplicit(t, domain, composition, i, name);
    }
  }

  lemma {:induction false} AcceptedSnapshot(t: Tables, domain: set<Name>, economy: seq<Economy.Sample>, composition: seq<Snapshot>, i: nat)
    requires OracleAccepts(t, domain, economy, composition) && i < |composition|
    ensures SnapshotMatches(t, domain, composition, i)
    ensures forall name :: name in Vanished(composition, i) ==> ZeroIsExplicit(t, domain, composition, i, name)
  {
    hide SnapshotMatches, ZeroIsExplicit, Vanished, NoLeaks, EconomyMatches;
  }

  lemma {:induction false} IsGone(s: seq<Snapshot>, i: nat, name: Name)
    requires i < |s|
    ensures name in Vanished(s, i)
       <==> i > 0 && name in s[i - 1].counts && s[i - 1].counts[name] > 0 && !(name in s[i].counts && s[i].counts[name] != 0)
  {
  }

  /** ... and of the ends of one segment. */
  lemma {:induction false} OracleOnSegment(t: Tables, domain: set<Name>, economy: seq<Economy.Sample>, composition: seq<Snapshot>, s: int)
    requires OracleAccepts(t, domain, economy, composition)
    ensures s in Part(t, EconomyStream) ==>
              EconomyAt(t, s).EconomyKnown? && EconomyAt(t, Part(t, EconomyStream)[s].end).EconomyKnown?
    ensures s in Part(t, CompositionStream) ==>
              CompositionAt(t, domain, s).CompositionKnown? && CompositionAt(t, domain, Part(t, CompositionStream)[s].end).CompositionKnown?
  {
    hide EconomyAt, CompositionAt, Part, Least, Greatest, EconomyMatches, CompositionMatches;
    if s in Part(t, EconomyStream) {
      assert EndsKnown(Part(t, EconomyStream), f => EconomyAvailability(t, f), s);
    }
    if s in Part(t, CompositionStream) {
      assert EndsKnown(Part(t, CompositionStream), f => CompositionAvailability(t, domain, f), s);
    }
  }
}
