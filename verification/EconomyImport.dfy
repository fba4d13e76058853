/** Importing the per-frame economy: missing frames split the coverage, equal consecutive
    states are stored once, and every point query answers as the dense samples would. */
module EconomyImport {
  import opened SparseTables
  import opened Options
  import opened Sorting

  datatype Sample = Sample(frame: int, state: EconomyState)

  predicate OptionalCount(v: Option<int>) { v.Some? ==> v.value >= 0 }

  predicate StateOk(s: EconomyState) {
    && s.minerals.Some? && s.gas.Some?
    && OptionalCount(s.minerals) && OptionalCount(s.gas) && OptionalCount(s.workers)
    && OptionalCount(s.gatheredMinerals) && OptionalCount(s.gatheredGas)
  }

  ghost predicate FramesIncrease(s: seq<Sample>) {
    forall i, j :: 0 <= i < j < |s| ==> s[i].frame < s[j].frame
  }

  ghost predicate ValidSamples(s: seq<Sample>) {
    && FramesIncrease(s)
    && (forall i :: 0 <= i < |s| ==> 0 <= s[i].frame && StateOk(s[i].state))
  }

  /** `check_samples`: remembering only the previous frame accepts exactly the valid lists. */
  method CheckSamples(s: seq<Sample>) returns (ok: bool)
    ensures ok <==> ValidSamples(s)
  {
    var previous := -1;
    for i := 0 to |s|
      invariant -1 <= previous && previous == if i == 0 then -1 else s[i - 1].frame
      invariant forall k :: 0 <= k < i ==> 0 <= s[k].frame <= previous && StateOk(s[k].state)
      invariant forall k, l :: 0 <= k < l < i ==> s[k].frame < s[l].frame
    {
      if s[i].frame <= previous {
        assert i > 0 ==> s[i - 1].frame >= s[i].frame;
        return false;
      }
      if !StateOk(s[i].state) {
        return false;
      }
      previous := s[i].frame;
    }
    ok := true;
  }

  // ----- What the import stores -----

  /** Sample `i` starts a coverage segment: its predecessor is not the frame before. */
  predicate NewSegment(s: seq<Sample>, i: nat)
    requires i < |s|
  {
    i == 0 || s[i].frame != s[i - 1].frame + 1
  }

  /** Sample `i` is stored. */
  predicate IsRow(s: seq<Sample>, i: nat)
    requires i < |s|
  {
    NewSegment(s, i) || s[i].state != s[i - 1].state
  }

  /** The sample that starts the segment of sample `i`. */
  function RunStart(s: seq<Sample>, i: nat): (r: nat)
    requires i < |s|
    ensures r <= i && NewSegment(s, r)
  {
    if NewSegment(s, i) then i else RunStart(s, i - 1)
  }

  /** The newest stored sample up to `i`, in the segment of `i`. */
  function LastRow(s: seq<Sample>, i: nat): (r: nat)
    requires i < |s|
    ensures RunStart(s, i) <= r <= i && IsRow(s, r) && s[r].state == s[i].state
    ensures forall k :: r < k <= i ==> !IsRow(s, k)
  {
    if IsRow(s, i) then i else LastRow(s, i - 1)
  }

  lemma {:induction false} RunStartIsLatest(s: seq<Sample>, i: nat, k: nat)
    requires k <= i < |s| && NewSegment(s, k)
    ensures k <= RunStart(s, i)
  {
    if !NewSegment(s, i) {
      RunStartIsLatest(s, i - 1, k);
    }
  }

  /** The coverage of the first `n` samples: each sample extends its run's segment. */
  function CoverageOf(s: seq<Sample>, n: nat): map<int, Segment>
    requires n <= |s|
  {
    if n == 0 then map[]
    else CoverageOf(s, n - 1)[s[RunStart(s, n - 1)].frame := Segment(s[n - 1].frame, Verified)]
  }

  function RowsOf(s: seq<Sample>, n: nat): map<int, EconomyState>
    requires n <= |s|
  {
    if n == 0 then map[]
    else if IsRow(s, n - 1) then RowsOf(s, n - 1)[s[n - 1].frame := s[n - 1].state]
    else RowsOf(s, n - 1)
  }

  /** The economy part of the tables is what the samples call for. */
  predicate Stores(s: seq<Sample>, t: Tables) {
    Part(t, EconomyStream) == CoverageOf(s, |s|) && t.economy == RowsOf(s, |s|)
  }

  predicate NoEconomy(t: Tables) {
    Part(t, EconomyStream) == map[] && t.economy == map[]
  }

  // ----- What the stored rows say -----

  lemma {:induction false} FrameOrder(s: seq<Sample>, i: nat, j: nat)
    requires FramesIncrease(s) && i < |s| && j < |s|
    ensures i < j <==> s[i].frame < s[j].frame
    ensures i == j <==> s[i].frame == s[j].frame
  {
    if i < j {
      assert s[i].frame < s[j].frame;
    } else if j < i {
      assert s[j].frame < s[i].frame;
    }
  }

  lemma {:induction false} CoverageHas(s: seq<Sample>, n: nat, i: nat)
    requires FramesIncrease(s) && i < n <= |s|
    ensures s[RunStart(s, i)].frame in CoverageOf(s, n)
    ensures s[i].frame <= CoverageOf(s, n)[s[RunStart(s, i)].frame].end
    ensures CoverageOf(s, n)[s[RunStart(s, i)].frame].basis == Verified
  {
    hide NewSegment, RunStart;
    if i < n - 1 {
      CoverageHas(s, n - 1, i);
      FrameOrder(s, i, n - 1);
    }
  }

  /** The run a coverage row comes from. */
  lemma {:induction false} CoverageFrom(s: seq<Sample>, n: nat, start: int) returns (i: nat)
    requires n <= |s| && start in CoverageOf(s, n)
    ensures i < n && start == s[RunStart(s, i)].frame && CoverageOf(s, n)[start].end == s[i].frame
  {
    hide NewSegment, RunStart;
    if start == s[RunStart(s, n - 1)].frame {
      i := n - 1;
    } else {
      i := CoverageFrom(s, n - 1, start);
    }
  }

  lemma {:induction false} RowsHave(s: seq<Sample>, n: nat, i: nat)
    requires FramesIncrease(s) && i < n <= |s| && IsRow(s, i)
    ensures s[i].frame in RowsOf(s, n) && RowsOf(s, n)[s[i].frame] == s[i].state
  {
    hide NewSegment, IsRow;
    if i < n - 1 {
      RowsHave(s, n - 1, i);
      FrameOrder(s, i, n - 1);
    }
  }

  lemma {:induction false} RowsFrom(s: seq<Sample>, n: nat, f: int) returns (i: nat)
    requires n <= |s| && f in RowsOf(s, n)
    ensures i < n && IsRow(s, i) && s[i].frame == f
  {
    hide NewSegment, IsRow;
    if IsRow(s, n - 1) && f == s[n - 1].frame {
      i := n - 1;
    } else {
      i := RowsFrom(s, n - 1, f);
    }
  }

  // ----- Lookups over the stored samples -----

  lemma {:induction false} CoverageAtSample(s: seq<Sample>, t: Tables, i: nat)
    requires ValidSamples(s) && Stores(s, t) && i < |s|
    ensures Coverage(t, EconomyStream, s[i].frame).InSegment?
    ensures Coverage(t, EconomyStream, s[i].frame).start == s[RunStart(s, i)].frame
  {
    hide NewSegment, RunStart, CoverageOf, RowsOf;
    var frame, start := s[i].frame, s[RunStart(s, i)].frame;
    var starts := StartsUpTo(Part(t, EconomyStream), frame);
    CoverageHas(s, |s|, i);
    FrameOrder(s, RunStart(s, i), i);
    assert start in starts;
    var j := CoverageFrom(s, |s|, Greatest(starts));
    var k := RunStart(s, j);
    FrameOrder(s, i, k);
    RunStartIsLatest(s, i, k);
    FrameOrder(s, RunStart(s, i), k);
    assert Greatest(starts) == start;
  }

  /** On a source frame the query returns that sample's exact state, and the frame since
      which it has not changed. */
  lemma {:induction false} EconomyAtSample(s: seq<Sample>, t: Tables, i: nat)
    requires ValidSamples(s) && Stores(s, t) && i < |s|
    ensures EconomyAt(t, s[i].frame) == EconomyKnown(s[i].state, s[LastRow(s, i)].frame)
  {
    hide NewSegment, IsRow, RunStart, LastRow, CoverageOf, RowsOf, Coverage;
    CoverageAtSample(s, t, i);
    var r, frames := LastRow(s, i), EconomyFrames(t, s[RunStart(s, i)].frame, s[i].frame);
    FrameOrder(s, r, i);
    FrameOrder(s, RunStart(s, i), r);
    RowsHave(s, |s|, r);
    assert s[r].frame in frames;
    var k := RowsFrom(s, |s|, Greatest(frames));
    FrameOrder(s, i, k);
    FrameOrder(s, k, r);
    assert k <= r;
    assert Greatest(frames) == s[r].frame;
  }

  /** The number of samples before `frame`. */
  ghost function Preceding(s: seq<Sample>, frame: int): (n: nat)
    ensures n <= |s|
    ensures FramesIncrease(s) ==> forall i :: 0 <= i < |s| ==> (i < n <==> s[i].frame < frame)
  {
    if s == [] || s[|s| - 1].frame < frame then |s| else Preceding(s[..|s| - 1], frame)
  }

  /** A run that reaches past an unsampled frame also starts past it. */
  lemma {:induction false} RunStartsAfter(s: seq<Sample>, j: nat, frame: int)
    requires FramesIncrease(s) && j < |s| && frame < s[j].frame
    requires forall i :: 0 <= i < |s| ==> s[i].frame != frame
    ensures frame < s[RunStart(s, j)].frame
  {
    if !NewSegment(s, j) {
      RunStartsAfter(s, j - 1, frame);
    }
  }

  /** Off the source frames the answer says why: before the first sample, after the last,
      or in between; it is never interpolated. */
  lemma {:induction false} EconomyOffSample(s: seq<Sample>, t: Tables, frame: int)
    requires ValidSamples(s) && Stores(s, t)
    requires forall i :: 0 <= i < |s| ==> s[i].frame != frame
    ensures EconomyAt(t, frame)
         == EconomyUnknown(if Preceding(s, frame) == 0 then BeforeCoverage
                           else if Preceding(s, frame) < |s| then Gap else AfterCoverage)
  {
    hide NewSegment, RunStart, CoverageOf, RowsOf, Preceding;
    var n, part := Preceding(s, frame), Part(t, EconomyStream);
    forall x | x in part
      ensures n == 0 ==> x > frame
      ensures x <= frame ==> part[x].end < frame
      ensures n == |s| ==> x <= frame
    {
      var j := CoverageFrom(s, |s|, x);
      FrameOrder(s, RunStart(s, j), j);
      if frame < s[j].frame {
        RunStartsAfter(s, j, frame);
      }
    }
    if n > 0 {
      CoverageHas(s, |s|, n - 1);
      FrameOrder(s, RunStart(s, n - 1), n - 1);
      assert s[RunStart(s, n - 1)].frame in StartsUpTo(part, frame);
    }
    if n < |s| {
      CoverageHas(s, |s|, n);
      RunStartsAfter(s, n, frame);
    }
  }

  /** Every stored row is needed: without it, the query on its own frame answers otherwise. */
  lemma {:induction false} RowsAreMinimal(s: seq<Sample>, t: Tables, f: int)
    requires ValidSamples(s) && Stores(s, t) && f in t.economy
    ensures EconomyAt(t.(economy := t.economy - {f}), f) != EconomyAt(t, f)
  {
    hide NewSegment, IsRow, RunStart, LastRow, CoverageOf, RowsOf;
    var i := RowsFrom(s, |s|, f);
    EconomyAtSample(s, t, i);
    var t' := t.(economy := t.economy - {f});
    assert Part(t', EconomyStream) == Part(t, EconomyStream);
    hide Coverage;
    assert LastRow(s, i) == i;
    assert EconomyAt(t, f) == EconomyKnown(s[i].state, f);
  }

  // ----- The import -----

  /** The loop's state after `n` samples: rows collected, and every run stored except the
      open one, which starts at frame `start`. */
  ghost predicate Importing(s: seq<Sample>, n: nat, start: int, t: Tables, rows: map<int, EconomyState>)
    requires n <= |s|
  {
    && rows == RowsOf(s, n) && t.economy == map[]
    && Part(t, EconomyStream) == CoverageOf(s, n) - {start}
    && (n > 0 ==> start == s[RunStart(s, n - 1)].frame)
  }

  lemma {:induction false} EarlierStarts(s: seq<Sample>, n: nat, x: int)
    requires FramesIncrease(s) && n <= |s| && x in CoverageOf(s, n)
    ensures forall i :: n <= i < |s| ==> x < s[i].frame
    ensures n > 0 && x != s[RunStart(s, n - 1)].frame ==> CoverageOf(s, n)[x].end < s[RunStart(s, n - 1)].frame
  {
    hide NewSegment, RunStart, CoverageOf;
    var i := CoverageFrom(s, n, x);
    FrameOrder(s, RunStart(s, i), i);
    if n > 0 {
      var r := RunStart(s, n - 1);
      FrameOrder(s, i, r);
      if i >= r {
        RunStartIsLatest(s, i, r);
        RunStartIsLatest(s, n - 1, RunStart(s, i));
      }
    }
  }

  /** Closing the open run is accepted, and completes the coverage. */
  lemma {:induction false} CloseRun(s: seq<Sample>, n: nat, start: int, t: Tables, rows: map<int, EconomyState>)
    requires ValidSamples(s) && 0 < n <= |s| && Importing(s, n, start, t, rows)
    ensures 0 <= start <= s[n - 1].frame && !Overlaps(Part(t, EconomyStream), start, s[n - 1].frame)
    ensures Part(t, EconomyStream)[start := Segment(s[n - 1].frame, Verified)] == CoverageOf(s, n)
  {
    FrameOrder(s, RunStart(s, n - 1), n - 1);
    assert CoverageOf(s, n)[start] == Segment(s[n - 1].frame, Verified);
    hide NewSegment, RunStart, CoverageOf, RowsOf;
    forall x | x in Part(t, EconomyStream)
      ensures Part(t, EconomyStream)[x].end < start
    {
      EarlierStarts(s, n, x);
    }
  }

  /** Sample `n` starts a run, or continues the open one. */
  lemma {:induction false} NextSample(s: seq<Sample>, n: nat, start: int, t: Tables, rows: map<int, EconomyState>)
    requires ValidSamples(s) && n < |s| && rows == RowsOf(s, n) && t.economy == map[]
    requires if NewSegment(s, n) then start == s[n].frame && Part(t, EconomyStream) == CoverageOf(s, n)
             else Importing(s, n, start, t, rows)
    ensures Importing(s, n + 1, start, t, if IsRow(s, n) then rows[s[n].frame := s[n].state] else rows)
  {
    hide IsRow;
    assert RunStart(s, n) == if NewSegment(s, n) then n else RunStart(s, n - 1);
    if start in CoverageOf(s, n) && NewSegment(s, n) {
      EarlierStarts(s, n, start);
      assert false;
    }
    assert CoverageOf(s, n + 1) - {start} == CoverageOf(s, n) - {start};
  }

  lemma {:induction false} StartImport(s: seq<Sample>, t: Tables)
    requires NoEconomy(t)
    ensures Importing(s, 0, 0, t, map[])
  {
  }

  /** Close the open run, if there is one: its coverage row is added. */
  method Close(s: seq<Sample>, n: nat, start: int, t: Tables, ghost rows: map<int, EconomyState>, ghost empty: bool)
    returns (ok: bool, r: Tables)
    requires ValidSamples(s) && n <= |s| && (empty ==> Importing(s, n, start, t, rows))
    ensures ok ==> OnlyChanges(EconomyStream, t, r)
    ensures empty ==> ok && r.economy == map[] && rows == RowsOf(s, n) && Part(r, EconomyStream) == CoverageOf(s, n)
  {
    hide ValidSamples, RunStart, Overlaps;
    ok, r := true, t;
    if n > 0 {
      if empty {
        CloseRun(s, n, start, t, rows);
      }
      ok, r := AddCoverage(t, EconomyStream, start, s[n - 1].frame, Verified);
    }
  }

  /** `import_economy`.  Into an observation without economy rows it accepts exactly the
      valid sample lists, so neither the overlap check nor the row key ever refuses one;
      the tables then store the samples and nothing else has changed. */
  method ImportEconomy(t: Tables, s: seq<Sample>) returns (ok: bool, r: Tables)
    ensures NoEconomy(t) ==> (ok <==> ValidSamples(s))
    ensures NoEconomy(t) && ok ==> Stores(s, r)
    ensures ok ==> ValidSamples(s) && OnlyChanges(EconomyStream, t, r)
  {
    hide ValidSamples, CoverageOf, RowsOf, RunStart, NewSegment, IsRow, Overlaps, Importing, Part;
    r := t;
    ok := CheckSamples(s);
    if !ok {
      return;
    }
    var start := 0;
    var rows: map<int, EconomyState> := map[];
    ghost var empty := NoEconomy(t);
    if empty { StartImport(s, t); }
    for i := 0 to |s|
      invariant ok && OnlyChanges(EconomyStream, t, r)
      invariant empty ==> Importing(s, i, start, r, rows)
    {
      if NewSegment(s, i) {
        ok, r := Close(s, i, start, r, rows, empty);
        if !ok {
          return;
        }
        start := s[i].frame;
      }
      if empty {
        RowsSoFar(s, i, start, r, rows);
        NextSample(s, i, start, r, rows);
      }
      if IsRow(s, i) {
        rows := rows[s[i].frame := s[i].state];
      }
    }
    ok, r := Close(s, |s|, start, r, rows, empty);
    if ok {
      ok := rows.Keys !! r.economy.Keys;
      r := InsertRows(r, rows);
    }
  }

  function InsertRows(t: Tables, rows: map<int, EconomyState>): (r: Tables)
    ensures OnlyChanges(EconomyStream, t, r)
    ensures Part(r, EconomyStream) == Part(t, EconomyStream)
    ensures t.economy == map[] ==> r.economy == rows
  {
    t.(economy := t.economy + rows)
  }

  lemma {:induction false} RowsSoFar(s: seq<Sample>, n: nat, start: int, t: Tables, rows: map<int, EconomyState>)
    requires n <= |s|
    ensures Importing(s, n, start, t, rows) ==> rows == RowsOf(s, n) && t.economy == map[]
  {
  }
}
