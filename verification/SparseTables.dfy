/** The sparse tables of packages/corpus-store/python/sparse.py for one observation, and the
    point queries over them.  Every query in the source names one observation, so one value
    of `Tables` is the part of the database that belongs to it. */
module SparseTables {
  import opened Options
  import opened Sorting

  type Name = int

  datatype Stream = EconomyStream | CompositionStream | SupplyStream | DeathsStream

  datatype Basis = Verified | LegacyInferred | ObservationsOnly

  datatype Segment = Segment(end: int, basis: Basis)

  datatype EconomyState = EconomyState(minerals: Option<int>, gas: Option<int>, workers: Option<int>,
                                       gatheredMinerals: Option<int>, gatheredGas: Option<int>)

  /** stream_coverage (by stream, then start frame), economy_changes and unit_count_changes. */
  datatype Tables = Tables(coverage: map<Stream, map<int, Segment>>,
                           economy: map<int, EconomyState>,
                           units: map<(Name, int), int>)

  datatype Missing = BeforeCoverage | Gap | AfterCoverage

  // ----- Point queries -----

  /** The coverage rows of one stream, by start frame. */
  function Part(t: Tables, stream: Stream): map<int, Segment> {
    if stream in t.coverage then t.coverage[stream] else map[]
  }

  function StartsUpTo(part: map<int, Segment>, frame: int): set<int> {
    set s | s in part && s <= frame
  }

  predicate HasLaterStart(part: map<int, Segment>, frame: int) {
    exists s :: s in part && s > frame
  }

  datatype Covered = InSegment(start: int, segment: Segment) | NotCovered(why: Missing)

  /** `coverage`: the latest segment that starts by `frame` decides. */
  function Coverage(t: Tables, stream: Stream, frame: int): Covered {
    var part := Part(t, stream);
    var starts := StartsUpTo(part, frame);
    if starts == {} then NotCovered(BeforeCoverage)
    else
      var start := Greatest(starts);
      if frame <= part[start].end then InSegment(start, part[start])
      else if HasLaterStart(part, frame) then NotCovered(Gap)
      else NotCovered(AfterCoverage)
  }

  datatype EconomyAnswer =
    | EconomyKnown(state: EconomyState, lastChange: int)
    | EconomyUnknown(why: Missing)
    | LacksInitialState

  function EconomyFrames(t: Tables, start: int, frame: int): set<int> {
    set f | f in t.economy && start <= f <= frame
  }

  function EconomyAt(t: Tables, frame: int): EconomyAnswer {
    match Coverage(t, EconomyStream, frame)
    case NotCovered(why) => EconomyUnknown(why)
    case InSegment(start, _) =>
      var frames := EconomyFrames(t, start, frame);
      if frames == {} then LacksInitialState
      else EconomyKnown(t.economy[Greatest(frames)], Greatest(frames))
  }

  function UnitFrames(t: Tables, name: Name, start: int, frame: int): set<int> {
    set k | k in t.units && k.0 == name && start <= k.1 <= frame :: k.1
  }

  /** The newest stored count in the segment, or zero when there is none. */
  function CountUpTo(t: Tables, name: Name, start: int, frame: int): int {
    var frames := UnitFrames(t, name, start, frame);
    if frames == {} then 0 else t.units[(name, Greatest(frames))]
  }

  datatype UnitAnswer =
    | UnitKnown(count: int, lastChange: Option<int>)
    | UnitUnobserved
    | UnitUnknown(why: Missing)

  function UnitAt(t: Tables, domain: set<Name>, name: Name, frame: int): UnitAnswer {
    match Coverage(t, CompositionStream, frame)
    case NotCovered(why) => UnitUnknown(why)
    case InSegment(start, segment) =>
      if name !in domain || segment.basis == ObservationsOnly then UnitUnobserved
      else
        var frames := UnitFrames(t, name, start, frame);
        UnitKnown(CountUpTo(t, name, start, frame), if frames == {} then None else Some(Greatest(frames)))
  }

  datatype CompositionAnswer =
    | CompositionKnown(counts: map<Name, int>)
    | CompositionUnobserved
    | CompositionUnknown(why: Missing)

  function CompositionAt(t: Tables, domain: set<Name>, frame: int): CompositionAnswer {
    match Coverage(t, CompositionStream, frame)
    case NotCovered(why) => CompositionUnknown(why)
    case InSegment(start, segment) =>
      if segment.basis == ObservationsOnly then CompositionUnobserved
      else CompositionKnown(map n | n in domain && CountUpTo(t, n, start, frame) > 0 :: CountUpTo(t, n, start, frame))
  }

  // ----- Adding coverage -----

  predicate Overlaps(part: map<int, Segment>, start: int, end: int) {
    exists s :: s in part && s <= end && part[s].end >= start
  }

  /** No frame lies in two segments. */
  ghost predicate SegmentsDisjoint(part: map<int, Segment>) {
    forall a, b :: a in part && b in part && a < b ==> part[a].end < b
  }

  /** `add_coverage` accepts a range exactly when it is well-formed and shares no frame with
      the stream's segments; it keeps them disjoint and leaves every other stream alone. */
  method AddCoverage(t: Tables, stream: Stream, start: int, end: int, basis: Basis) returns (ok: bool, r: Tables)
    ensures ok <==> 0 <= start <= end && !Overlaps(Part(t, stream), start, end)
    ensures ok ==> r == t.(coverage := t.coverage[stream := Part(t, stream)[start := Segment(end, basis)]])
    ensures !ok ==> r == t
    ensures ok && SegmentsDisjoint(Part(t, stream)) && (forall s :: s in Part(t, stream) ==> s <= Part(t, stream)[s].end) ==>
              start !in Part(t, stream) && SegmentsDisjoint(Part(r, stream))
  {
    ok, r := false, t;
    if !(0 <= start <= end) || Overlaps(Part(t, stream), start, end) {
      return;
    }
    ok, r := true, t.(coverage := t.coverage[stream := Part(t, stream)[start := Segment(end, basis)]]);
  }

  /** Only rows of `stream` (and of its own table) may differ. */
  ghost predicate OnlyChanges(stream: Stream, t: Tables, t': Tables) {
    && (forall other: Stream :: other != stream ==> Part(t', other) == Part(t, other))
    && (stream != EconomyStream ==> t'.economy == t.economy)
    && (stream != CompositionStream ==> t'.units == t.units)
  }
}
