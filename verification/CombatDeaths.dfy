/** Separating combat deaths from the drones that Zerg buildings consume
    (apps/sc-forge/build-order.override.js).  Each building start takes the first unclaimed
    drone death of the next 1.5 seconds; no other assignment explains more deaths. */
module CombatDeaths {
  import opened Options
  import opened Sorting

  const MATCH_WINDOW_SECS: real := 1.5
  const TERMINAL_WINDOW_SECS: real := 5.0
  const TERMINAL_MIN_COUNT: int := 8
  const TERMINAL_MIN_FRACTION: real := 0.2

  datatype Category = Worker | Unit | Air | BuildingDeath | OtherCategory

  datatype Lane = Workers | Units | Buildings | NoLane

  datatype Death = Death(time: real, frame: int, order: int, category: Category, isDrone: bool)

  /** A timeline item; `consumesDrone` is the test `isDroneBuiltZergStructure`. */
  datatype Building = Building(id: int, start: real, consumesDrone: bool)

  function LaneOf(c: Category): Lane {
    match c
    case Worker => Workers
    case Unit => Units
    case Air => Units
    case BuildingDeath => Buildings
    case OtherCategory => NoLane
  }

  // ----- Candidates and building starts, in the order the loop visits them -----

  predicate DeathBefore(raw: seq<Death>, i: nat, j: nat) {
    i < |raw| && j < |raw| &&
    (raw[i].time < raw[j].time
     || (raw[i].time == raw[j].time
         && (raw[i].frame < raw[j].frame || (raw[i].frame == raw[j].frame && raw[i].order <= raw[j].order))))
  }

  function DroneDeaths(raw: seq<Death>, n: nat): (r: seq<nat>)
    requires n <= |raw|
    ensures forall i: nat :: i in r <==> i < n && raw[i].category == Worker && raw[i].isDrone
  {
    if n == 0 then []
    else DroneDeaths(raw, n - 1) + if raw[n - 1].category == Worker && raw[n - 1].isDrone then [n - 1] else []
  }

  /** Indexes of the worker drone deaths by time, frame and original order. */
  function Candidates(raw: seq<Death>): seq<nat> {
    Sort((i: nat, j: nat) => DeathBefore(raw, i, j), DroneDeaths(raw, |raw|))
  }

  predicate StartsBefore(a: Building, b: Building) {
    a.start < b.start || (a.start == b.start && a.id <= b.id)
  }

  function Consumers(items: seq<Building>): seq<Building> {
    if items == [] then [] else (if items[0].consumesDrone then [items[0]] else []) + Consumers(items[1..])
  }

  function BuildingStarts(items: seq<Building>): seq<Building> { Sort(StartsBefore, Consumers(items)) }

  predicate IsCandidate(raw: seq<Death>, d: nat) { d < |raw| && raw[d].category == Worker && raw[d].isDrone }

  predicate Explains(raw: seq<Death>, b: Building, d: nat) {
    d < |raw| && b.start <= raw[d].time < b.start + MATCH_WINDOW_SECS
  }

  lemma {:induction false} CandidatesSorted(raw: seq<Death>)
    ensures forall d :: d in Candidates(raw) <==> IsCandidate(raw, d)
    ensures forall i, j :: 0 <= i < j < |Candidates(raw)| ==>
              Candidates(raw)[i] < |raw| && Candidates(raw)[j] < |raw| && raw[Candidates(raw)[i]].time <= raw[Candidates(raw)[j]].time
  {
    hide Sort, DroneDeaths;
    var le, s := (i: nat, j: nat) => DeathBefore(raw, i, j), DroneDeaths(raw, |raw|);
    SortSorts(le, s);
    var c := Candidates(raw);
    assert c == Sort(le, s);
    forall d: nat
      ensures d in c <==> IsCandidate(raw, d)
    {
      SameMember(c, s, d);
    }
    forall i, j | 0 <= i < j < |c|
      ensures c[i] < |raw| && c[j] < |raw| && raw[c[i]].time <= raw[c[j]].time
    {
      assert le(c[i], c[j]);
    }
  }

  lemma {:induction false} StartsSorted(items: seq<Building>)
    ensures forall i, j :: 0 <= i < j < |BuildingStarts(items)| ==> BuildingStarts(items)[i].start <= BuildingStarts(items)[j].start
  {
    SortSorts(StartsBefore, Consumers(items));
    var b := BuildingStarts(items);
    forall i, j | 0 <= i < j < |b|
      ensures b[i].start <= b[j].start
    {
      assert StartsBefore(b[i], b[j]);
    }
  }

  // ----- Greedy suppression -----

  /** The position of the first candidate, from `from` on, that is unclaimed and in the window. */
  function FindDeath(raw: seq<Death>, candidates: seq<nat>, used: set<nat>, b: Building, from: nat): (r: Option<nat>)
    requires from <= |candidates|
    ensures r.Some? ==> from <= r.value < |candidates|
                        && candidates[r.value] !in used && Explains(raw, b, candidates[r.value])
    ensures forall i :: from <= i < |candidates| && (r.Some? ==> i < r.value) ==>
              candidates[i] in used || !Explains(raw, b, candidates[i])
    decreases |candidates| - from
  {
    if from == |candidates| then None
    else if candidates[from] !in used && Explains(raw, b, candidates[from]) then Some(from)
    else FindDeath(raw, candidates, used, b, from + 1)
  }

  /** The assignment made by buildings `n`, `n + 1`, ... when `used` deaths are claimed. */
  function Greedy(raw: seq<Death>, candidates: seq<nat>, starts: seq<Building>, n: nat, used: set<nat>): map<nat, nat>
    requires n <= |starts|
    decreases |starts| - n
  {
    if n == |starts| then map[]
    else
      var found := FindDeath(raw, candidates, used, starts[n], 0);
      if found.None? then Greedy(raw, candidates, starts, n + 1, used)
      else Greedy(raw, candidates, starts, n + 1, used + {candidates[found.value]})[n := candidates[found.value]]
  }

  /** An injective assignment of candidate deaths to buildings whose windows contain them. */
  ghost predicate IsMatching(raw: seq<Death>, starts: seq<Building>, m: map<nat, nat>) {
    && (forall b :: b in m ==> b < |starts| && IsCandidate(raw, m[b]) && Explains(raw, starts[b], m[b]))
    && (forall b, c :: b in m && c in m && m[b] == m[c] ==> b == c)
  }

  /** `m` uses only buildings from `n` on and deaths outside `used`. */
  ghost predicate Available(n: nat, used: set<nat>, m: map<nat, nat>) {
    forall b :: b in m ==> n <= b && m[b] !in used
  }

  lemma {:induction false} GreedyIsMatching(raw: seq<Death>, starts: seq<Building>, n: nat, used: set<nat>)
    requires n <= |starts|
    ensures IsMatching(raw, starts, Greedy(raw, Candidates(raw), starts, n, used))
    ensures Available(n, used, Greedy(raw, Candidates(raw), starts, n, used))
    decreases |starts| - n
  {
    CandidatesSorted(raw);
    hide Candidates, Explains, IsCandidate;
    if n < |starts| {
      var found := FindDeath(raw, Candidates(raw), used, starts[n], 0);
      hide FindDeath;
      if found.None? {
        GreedyIsMatching(raw, starts, n + 1, used);
      } else {
        var d := Candidates(raw)[found.value];
        GreedyIsMatching(raw, starts, n + 1, used + {d});
        MatchOneMore(raw, starts, n, d, used, Greedy(raw, Candidates(raw), starts, n + 1, used + {d}));
      }
    }
  }

  lemma {:induction false} MatchOneMore(raw: seq<Death>, starts: seq<Building>, n: nat, d: nat, used: set<nat>, rest: map<nat, nat>)
    requires n < |starts| && IsCandidate(raw, d) && d !in used && Explains(raw, starts[n], d)
    requires IsMatching(raw, starts, rest) && Available(n + 1, used + {d}, rest)
    ensures IsMatching(raw, starts, rest[n := d]) && Available(n, used, rest[n := d])
  {
    hide Explains, IsCandidate;
  }

  /** Removing the building `n` and the death `d` from a matching costs it at most one edge:
      a later building that lost `d` can take the death that `n` gives up. */
  lemma {:induction false} Exchange(raw: seq<Death>, starts: seq<Building>, n: nat, d: nat, used: set<nat>, m: map<nat, nat>) returns (m': map<nat, nat>)
    requires n < |starts| && forall i, j :: 0 <= i < j < |starts| ==> starts[i].start <= starts[j].start
    requires Explains(raw, starts[n], d) && IsMatching(raw, starts, m) && Available(n, used, m)
    requires n in m ==> raw[d].time <= raw[m[n]].time
    ensures IsMatching(raw, starts, m') && Available(n + 1, used + {d}, m') && |m| <= |m'| + 1
  {
    hide Explains, IsMatching, Available;
    var c := OwnerOf(raw, starts, m, d);
    if c in m && n in m && c != n && m[c] == d {
      m' := Reassign(raw, starts, n, d, c, used, m);
    } else {
      m' := Drop(raw, starts, n, d, if n in m then n else c, used, m);
    }
  }

  /** The building that claims `d`, if one does. */
  lemma {:induction false} OwnerOf(raw: seq<Death>, starts: seq<Building>, m: map<nat, nat>, d: nat) returns (c: nat)
    requires IsMatching(raw, starts, m)
    ensures forall b :: b in m && m[b] == d ==> b == c
    ensures c in m ==> m[c] == d || forall b :: b in m ==> m[b] != d
  {
    hide Explains, IsCandidate;
    if b: nat :| b in m && m[b] == d {
      c := b;
    } else {
      c := 0;
    }
  }

  /** Dropping one building that keeps either the first building or the death. */
  lemma {:induction false} Drop(raw: seq<Death>, starts: seq<Building>, n: nat, d: nat, b: nat, used: set<nat>, m: map<nat, nat>)
    returns (m': map<nat, nat>)
    requires IsMatching(raw, starts, m) && Available(n, used, m)
    requires n in m ==> b == n
    requires forall c :: c in m && m[c] == d ==> c == b
    ensures IsMatching(raw, starts, m') && Available(n + 1, used + {d}, m') && |m| <= |m'| + 1
  {
    hide *;
    m' := m - {b};
    Part(raw, starts, m, b);
    PartAvailable(n, d, b, used, m);
    DropSize(m, b);
  }

  lemma {:induction false} Part(raw: seq<Death>, starts: seq<Building>, m: map<nat, nat>, b: nat)
    requires IsMatching(raw, starts, m)
    ensures IsMatching(raw, starts, m - {b})
  {
    hide Explains, IsCandidate;
  }

  lemma {:induction false} PartAvailable(n: nat, d: nat, b: nat, used: set<nat>, m: map<nat, nat>)
    requires Available(n, used, m) && (n in m ==> b == n) && forall c :: c in m && m[c] == d ==> c == b
    ensures Available(n + 1, used + {d}, m - {b})
  {
  }

  lemma {:induction false} DropSize(m: map<nat, nat>, b: nat)
    ensures |m| <= |m - {b}| + 1
  {
    assert (m - {b}).Keys == m.Keys - {b};
  }

  lemma {:induction false} Reassign(raw: seq<Death>, starts: seq<Building>, n: nat, d: nat, c: nat, used: set<nat>, m: map<nat, nat>)
    returns (m': map<nat, nat>)
    requires n < |starts| && forall i, j :: 0 <= i < j < |starts| ==> starts[i].start <= starts[j].start
    requires Explains(raw, starts[n], d) && IsMatching(raw, starts, m) && Available(n, used, m)
    requires n in m && raw[d].time <= raw[m[n]].time
    requires c in m && m[c] == d && c != n
    ensures IsMatching(raw, starts, m') && Available(n + 1, used + {d}, m') && |m| <= |m'| + 1
  {
    LaterStill(raw, starts, n, d, c, used, m);
    Part(raw, starts, m, n);
    DropSize(m, n);
    OthersDiffer(raw, starts, n, c, m);
    SwappedAvailable(raw, starts, n, d, c, used, m);
    hide *;
    Recast(raw, starts, m - {n}, c, m[n]);
    m' := (m - {n})[c := m[n]];
  }

  /** The death that explains the first building explains the later one that had `d`. */
  lemma {:induction false} LaterStill(raw: seq<Death>, starts: seq<Building>, n: nat, d: nat, c: nat, used: set<nat>, m: map<nat, nat>)
    requires n < |starts| && forall i, j :: 0 <= i < j < |starts| ==> starts[i].start <= starts[j].start
    requires Explains(raw, starts[n], d) && IsMatching(raw, starts, m) && Available(n, used, m)
    requires n in m && raw[d].time <= raw[m[n]].time && c in m && m[c] == d && c != n
    ensures c < |starts| && Explains(raw, starts[c], m[n]) && IsCandidate(raw, m[n])
  {
    assert n < c < |starts| && starts[n].start <= starts[c].start;
    assert Explains(raw, starts[n], m[n]) && Explains(raw, starts[c], d);
  }

  lemma {:induction false} OthersDiffer(raw: seq<Death>, starts: seq<Building>, n: nat, c: nat, m: map<nat, nat>)
    requires IsMatching(raw, starts, m) && n in m && c in m && c != n
    ensures c in m - {n} && forall b :: b in m - {n} ==> (m - {n})[b] != m[n]
  {
    hide Explains, IsCandidate;
  }

  lemma {:induction false} SwappedAvailable(raw: seq<Death>, starts: seq<Building>, n: nat, d: nat, c: nat, used: set<nat>, m: map<nat, nat>)
    requires IsMatching(raw, starts, m) && Available(n, used, m) && n in m && c in m && m[c] == d && c != n
    ensures Available(n + 1, used + {d}, (m - {n})[c := m[n]])
  {
    hide Explains, IsCandidate;
    var m' := (m - {n})[c := m[n]];
    forall b | b in m'
      ensures n + 1 <= b && m'[b] !in used + {d}
    {
      assert b in m && b != n;
    }
  }

  lemma {:induction false} Recast(raw: seq<Death>, starts: seq<Building>, m: map<nat, nat>, c: nat, e: nat)
    requires IsMatching(raw, starts, m) && c in m && (forall b :: b in m ==> m[b] != e)
    requires c < |starts| && Explains(raw, starts[c], e) && IsCandidate(raw, e)
    ensures IsMatching(raw, starts, m[c := e]) && |m[c := e]| == |m|
  {
    hide Explains, IsCandidate;
    assert m[c := e].Keys == m.Keys;
  }

  /** No matching of the remaining buildings and deaths beats the greedy one. */
  lemma {:induction false} GreedyIsBest(raw: seq<Death>, starts: seq<Building>, n: nat, used: set<nat>, m: map<nat, nat>)
    requires n <= |starts| && forall i, j :: 0 <= i < j < |starts| ==> starts[i].start <= starts[j].start
    requires IsMatching(raw, starts, m) && Available(n, used, m)
    ensures |m| <= |Greedy(raw, Candidates(raw), starts, n, used)|
    decreases |starts| - n
  {
    CandidatesSorted(raw);
    var candidates := Candidates(raw);
    hide Candidates;
    if n == |starts| {
      assert m.Keys == {};
    } else {
      var found := FindDeath(raw, candidates, used, starts[n], 0);
      assert n in m ==> m[n] in candidates;
      if found.None? {
        GreedyIsBest(raw, starts, n + 1, used, m);
      } else {
        var d := candidates[found.value];
        if n in m {
          var j :| 0 <= j < |candidates| && candidates[j] == m[n];
          assert found.value <= j;
        }
        var m' := Exchange(raw, starts, n, d, used, m);
        GreedyIsBest(raw, starts, n + 1, used + {d}, m');
        GreedyIsMatching(raw, starts, n + 1, used + {d});
        assert n !in Greedy(raw, candidates, starts, n + 1, used + {d});
      }
    }
  }

  /** The suppression is a maximum matching. */
  lemma {:induction false} SuppressionIsMaximum(raw: seq<Death>, items: seq<Building>, m: map<nat, nat>)
    requires IsMatching(raw, BuildingStarts(items), m)
    ensures var greedy := Greedy(raw, Candidates(raw), BuildingStarts(items), 0, {});
            IsMatching(raw, BuildingStarts(items), greedy) && |m| <= |greedy| == |greedy.Values|
  {
    StartsSorted(items);
    hide BuildingStarts, Candidates;
    var starts := BuildingStarts(items);
    GreedyIsMatching(raw, starts, 0, {});
    GreedyIsBest(raw, starts, 0, {}, m);
    ValuesOfInjective(Greedy(raw, Candidates(raw), starts, 0, {}));
  }

  lemma {:induction false} ValuesOfInjective(m: map<nat, nat>)
    requires forall b, c :: b in m && c in m && m[b] == m[c] ==> b == c
    ensures |m.Values| == |m|
    decreases |m|
  {
    if m.Keys == {} {
      assert m.Values == {};
    } else {
      var b := Pick(m.Keys);
      var rest := m - {b};
      assert rest.Keys == m.Keys - {b};
      ValuesOfInjective(rest);
      forall v
        ensures v in m.Values <==> v in rest.Values + {m[b]}
      {
        if v in m.Values {
          var c :| c in m && m[c] == v;
          assert c != b ==> c in rest && rest[c] == v;
        }
        if v in rest.Values {
          var c :| c in rest && rest[c] == v;
          assert c in m && m[c] == v;
        }
      }
      assert m.Values == rest.Values + {m[b]};
      assert m[b] !in rest.Values;
      assert |m| == |rest| + 1;
    }
  }

  /** The loop over the building starts: the claimed indexes are exactly those of the
      greedy assignment. */
  method Suppress(raw: seq<Death>, items: seq<Building>) returns (suppressed: set<nat>)
    ensures suppressed == Greedy(raw, Candidates(raw), BuildingStarts(items), 0, {}).Values
  {
    hide *;
    var starts, candidates := BuildingStarts(items), Candidates(raw);
    suppressed := {};
    ghost var all := Greedy(raw, candidates, starts, 0, {});
    for n := 0 to |starts|
      invariant all.Values == suppressed + Greedy(raw, candidates, starts, n, suppressed).Values
    {
      GreedyValues(raw, candidates, starts, n, suppressed);
      var found := FindDeath(raw, candidates, suppressed, starts[n], 0);
      if found.Some? {
        suppressed := suppressed + {candidates[found.value]};
      }
    }
    GreedyEnds(raw, candidates, starts, suppressed);
  }

  lemma {:induction false} GreedyEnds(raw: seq<Death>, candidates: seq<nat>, starts: seq<Building>, used: set<nat>)
    ensures Greedy(raw, candidates, starts, |starts|, used).Values == {}
  {
  }

  lemma {:induction false} GreedyKeys(raw: seq<Death>, candidates: seq<nat>, starts: seq<Building>, n: nat, used: set<nat>)
    requires n <= |starts|
    ensures forall b :: b in Greedy(raw, candidates, starts, n, used) ==> n <= b
    decreases |starts| - n
  {
    if n < |starts| {
      var found := FindDeath(raw, candidates, used, starts[n], 0);
      GreedyKeys(raw, candidates, starts, n + 1, if found.None? then used else used + {candidates[found.value]});
    }
  }

  lemma {:induction false} GreedyValues(raw: seq<Death>, candidates: seq<nat>, starts: seq<Building>, n: nat, used: set<nat>)
    requires n < |starts|
    ensures var found := FindDeath(raw, candidates, used, starts[n], 0);
            if found.None? then
              Greedy(raw, candidates, starts, n, used) == Greedy(raw, candidates, starts, n + 1, used)
            else
              found.value < |candidates| &&
              Greedy(raw, candidates, starts, n, used).Values
              == {candidates[found.value]} + Greedy(raw, candidates, starts, n + 1, used + {candidates[found.value]}).Values
  {
    var found := FindDeath(raw, candidates, used, starts[n], 0);
    if found.Some? {
      var d := candidates[found.value];
      var rest := Greedy(raw, candidates, starts, n + 1, used + {d});
      GreedyKeys(raw, candidates, starts, n + 1, used + {d});
      assert n !in rest;
      ValuesOfUpdate(rest, n, d);
    }
  }

  lemma {:induction false} ValuesOfUpdate(m: map<nat, nat>, k: nat, v: nat)
    requires k !in m
    ensures m[k := v].Values == {v} + m.Values
  {
    var m' := m[k := v];
    forall x
      ensures x in m'.Values <==> x in {v} + m.Values
    {
      if x in m.Values {
        var c :| c in m && m[c] == x;
        assert c in m' && m'[c] == x;
      }
      if x in m'.Values {
        var c :| c in m' && m'[c] == x;
        assert c != k ==> c in m && m[c] == x;
      }
      assert k in m' && m'[k] == v;
    }
  }

  // ----- The terminal tail -----

  predicate TimesAscend(s: seq<Death>) {
    forall i, j :: 0 <= i < j < |s| ==> s[i].time <= s[j].time
  }

  function LaneCount(s: seq<Death>): nat {
    if s == [] then 0 else LaneCount(s[..|s| - 1]) + if LaneOf(s[|s| - 1].category) != NoLane then 1 else 0
  }

  predicate HasLane(s: seq<Death>, lane: Lane) {
    exists i :: 0 <= i < |s| && LaneOf(s[i].category) == lane
  }

  /** `start` is where the last five seconds of a time-ordered list begin. */
  ghost predicate IsTail(s: seq<Death>, start: nat)
    requires s != []
  {
    start < |s| && forall i :: 0 <= i < |s| ==> (start <= i <==> s[|s| - 1].time - s[i].time <= TERMINAL_WINDOW_SECS)
  }

  /** The tail looks like a mass deletion at the end of a game. */
  predicate IsTerminal(s: seq<Death>, start: nat)
    requires s != [] && start <= |s|
  {
    && LaneCount(s[start..]) >= TERMINAL_MIN_COUNT
    && LaneCount(s[start..]) as real / |s| as real >= TERMINAL_MIN_FRACTION
    && HasLane(s[start..], Workers) && HasLane(s[start..], Buildings) && HasLane(s[start..], Units)
  }

  /** `filteredTerminalCombatDeaths`: a prefix is kept; only a terminal tail, the whole last
      five seconds, is ever dropped. */
  method FilterTerminal(s: seq<Death>) returns (kept: seq<Death>, ghost start: nat)
    requires TimesAscend(s)
    ensures |s| < TERMINAL_MIN_COUNT ==> kept == s
    ensures |s| >= TERMINAL_MIN_COUNT ==> IsTail(s, start) && kept == if IsTerminal(s, start) then s[..start] else s
  {
    start := 0;
    if |s| < TERMINAL_MIN_COUNT {
      return s, start;
    }
    var endTime := s[|s| - 1].time;
    var startIndex := |s| - 1;
    while startIndex > 0 && endTime - s[startIndex - 1].time <= TERMINAL_WINDOW_SECS
      invariant 0 <= startIndex < |s|
      invariant endTime - s[startIndex].time <= TERMINAL_WINDOW_SECS
    {
      startIndex := startIndex - 1;
    }
    start := startIndex;
    assert IsTail(s, start);
    var tail := s[startIndex..];
    if LaneCount(tail) < TERMINAL_MIN_COUNT {
      return s, start;
    }
    if LaneCount(tail) as real / |s| as real < TERMINAL_MIN_FRACTION {
      return s, start;
    }
    if !(HasLane(tail, Workers) && HasLane(tail, Buildings) && HasLane(tail, Units)) {
      return s, start;
    }
    kept := s[..startIndex];
  }

  // ----- Classification -----

  /** The samples whose index is in `chosen`, in order. */
  function Chosen(raw: seq<Death>, chosen: set<nat>, n: nat): seq<Death>
    requires n <= |raw|
  {
    if n == 0 then []
    else if n - 1 in chosen then Chosen(raw, chosen, n - 1) + [raw[n - 1]]
    else Chosen(raw, chosen, n - 1)
  }

  /** The samples whose index is not in `chosen`, in order. */
  function Omit(raw: seq<Death>, chosen: set<nat>, n: nat): seq<Death>
    requires n <= |raw|
  {
    if n == 0 then []
    else if n - 1 in chosen then Omit(raw, chosen, n - 1)
    else Omit(raw, chosen, n - 1) + [raw[n - 1]]
  }

  /** Every sample is in exactly one of the two selections, as often as it was recorded. */
  lemma {:induction false} SelectionsPartition(raw: seq<Death>, chosen: set<nat>, n: nat)
    requires n <= |raw|
    ensures multiset(Chosen(raw, chosen, n)) + multiset(Omit(raw, chosen, n)) == multiset(raw[..n])
    ensures |Chosen(raw, chosen, n)| + |Omit(raw, chosen, n)| == n
  {
    if n > 0 {
      SelectionsPartition(raw, chosen, n - 1);
      assert raw[..n] == raw[..n - 1] + [raw[n - 1]];
      if n - 1 in chosen {
        Deal(Chosen(raw, chosen, n - 1), Omit(raw, chosen, n - 1), raw[..n - 1], raw[n - 1]);
      } else {
        Deal(Omit(raw, chosen, n - 1), Chosen(raw, chosen, n - 1), raw[..n - 1], raw[n - 1]);
      }
    } else {
      assert raw[..0] == [];
    }
  }

  lemma {:induction false} Deal(s: seq<Death>, t: seq<Death>, all: seq<Death>, x: Death)
    requires multiset(s) + multiset(t) == multiset(all)
    ensures multiset(s + [x]) + multiset(t) == multiset(all + [x])
  {
  }

  /** Every time in `s` is at most `limit`. */
  predicate UpTo(s: seq<Death>, limit: real) { forall i :: 0 <= i < |s| ==> s[i].time <= limit }

  lemma {:induction false} AscendingSnoc(s: seq<Death>, x: Death)
    requires TimesAscend(s) && UpTo(s, x.time)
    ensures TimesAscend(s + [x]) && UpTo(s + [x], x.time)
  {
  }

  /** Both selections keep the order of the samples. */
  lemma {:induction false} SelectionsKeepOrder(raw: seq<Death>, chosen: set<nat>, n: nat, limit: real)
    requires n <= |raw| && TimesAscend(raw) && UpTo(raw[..n], limit)
    ensures TimesAscend(Chosen(raw, chosen, n)) && UpTo(Chosen(raw, chosen, n), limit)
    ensures TimesAscend(Omit(raw, chosen, n)) && UpTo(Omit(raw, chosen, n), limit)
  {
    if n > 0 {
      var x := raw[n - 1];
      assert UpTo(raw[..n - 1], x.time);
      SelectionsKeepOrder(raw, chosen, n - 1, x.time);
      AscendingSnoc(Chosen(raw, chosen, n - 1), x);
      AscendingSnoc(Omit(raw, chosen, n - 1), x);
      assert x == raw[..n][n - 1];
      hide TimesAscend;
    }
  }

  datatype Classified = Classified(suppressed: seq<Death>, combat: seq<Death>)

  /** What the classification must return: the suppressed deaths are those of the greedy
      assignment, and the combat samples are the others without a terminal tail. */
  ghost predicate IsClassification(raw: seq<Death>, chosen: set<nat>, c: Classified) {
    && c.suppressed == Chosen(raw, chosen, |raw|)
    && IsFiltered(Omit(raw, chosen, |raw|), c.combat)
  }

  /** `kept` is `s` without its terminal tail, if it has one. */
  ghost predicate IsFiltered(s: seq<Death>, kept: seq<Death>) {
    if |s| < TERMINAL_MIN_COUNT then kept == s
    else exists start: nat :: start < |s| && IsTail(s, start) && kept == if IsTerminal(s, start) then s[..start] else s
  }

  lemma {:induction false} NothingChosen(raw: seq<Death>, n: nat)
    requires n <= |raw|
    ensures Chosen(raw, {}, n) == [] && Omit(raw, {}, n) == raw[..n]
  {
    if n > 0 {
      NothingChosen(raw, n - 1);
      assert raw[..n] == raw[..n - 1] + [raw[n - 1]];
    }
  }

  /** The deaths that the set's own buildings account for: none unless the player is Zerg. */
  function Accounted(raw: seq<Death>, isZerg: bool, items: seq<Building>): set<nat> {
    if isZerg then Greedy(raw, Candidates(raw), BuildingStarts(items), 0, {}).Values else {}
  }

  // ----- The matching in terms of the items and samples alone -----

  lemma {:induction false} ConsumersCount(items: seq<Building>, x: Building)
    ensures multiset(Consumers(items))[x] == if x.consumesDrone then multiset(items)[x] else 0
  {
    if items != [] {
      ConsumersCount(items[1..], x);
      ConsumersUnfold(items);
      hide Consumers;
      assert items == [items[0]] + items[1..];
    }
  }

  lemma {:induction false} ConsumersUnfold(items: seq<Building>)
    requires items != []
    ensures Consumers(items) == (if items[0].consumesDrone then [items[0]] else []) + Consumers(items[1..])
  {
  }

  /** The building starts are the items that consume a drone, each as often as it occurs, by
      start time and id. */
  lemma {:induction false} StartsOfItems(items: seq<Building>)
    ensures forall x :: multiset(BuildingStarts(items))[x] == if x.consumesDrone then multiset(items)[x] else 0
    ensures forall i, j :: 0 <= i < j < |BuildingStarts(items)| ==>
              BuildingStarts(items)[i].start < BuildingStarts(items)[j].start
              || (BuildingStarts(items)[i].start == BuildingStarts(items)[j].start
                  && BuildingStarts(items)[i].id <= BuildingStarts(items)[j].id)
  {
    hide Consumers;
    forall x
      ensures multiset(BuildingStarts(items))[x] == if x.consumesDrone then multiset(items)[x] else 0
    {
      ConsumersCount(items, x);
    }
    StartOrders(Consumers(items));
    SortSorts(StartsBefore, Consumers(items));
    hide BuildingStarts, Sort, Orders;
    forall i, j | 0 <= i < j < |BuildingStarts(items)|
      ensures StartsBefore(BuildingStarts(items)[i], BuildingStarts(items)[j])
    {
    }
  }

  lemma {:induction false} StartOrders(s: seq<Building>)
    ensures Orders(StartsBefore, s)
  {
  }

  /** The candidates are the worker drone deaths by time, frame and original order. */
  lemma {:induction false} CandidatesInOrder(raw: seq<Death>, i: nat, j: nat)
    requires i < j < |Candidates(raw)|
    ensures forall d: nat :: d in Candidates(raw) <==> d < |raw| && raw[d].category == Worker && raw[d].isDrone
    ensures Candidates(raw)[i] < |raw| && Candidates(raw)[j] < |raw|
    ensures var x, y := raw[Candidates(raw)[i]], raw[Candidates(raw)[j]];
            x.time < y.time || (x.time == y.time && (x.frame < y.frame || (x.frame == y.frame && x.order <= y.order)))
  {
    CandidatesSorted(raw);
    CandidatesOrdered(raw);
    hide Candidates;
    assert forall d: nat :: d in Candidates(raw) <==> IsCandidate(raw, d);
    assert DeathBefore(raw, Candidates(raw)[i], Candidates(raw)[j]);
  }

  lemma {:induction false} CandidatesOrdered(raw: seq<Death>)
    ensures forall i, j :: 0 <= i < j < |Candidates(raw)| ==> DeathBefore(raw, Candidates(raw)[i], Candidates(raw)[j])
  {
    hide Sort, DroneDeaths;
    var le, s := (i: nat, j: nat) => DeathBefore(raw, i, j), DroneDeaths(raw, |raw|);
    SortSorts(le, s);
    var c := Candidates(raw);
    assert c == Sort(le, s);
    hide DeathBefore;
    forall i, j | 0 <= i < j < |c|
      ensures DeathBefore(raw, c[i], c[j])
    {
      assert le(c[i], c[j]);
    }
  }

  /** An assignment of deaths to positions of `items`: each to a building that consumed a drone and
      started at most 1.5 seconds before, no death twice. */
  ghost predicate Assigns(raw: seq<Death>, items: seq<Building>, m: map<nat, nat>) {
    && (forall k :: k in m ==>
          && k < |items| && items[k].consumesDrone
          && m[k] < |raw| && raw[m[k]].category == Worker && raw[m[k]].isDrone
          && items[k].start <= raw[m[k]].time < items[k].start + 1.5)
    && (forall k, l :: k in m && l in m && m[k] == m[l] ==> k == l)
  }

  ghost predicate Injective(p: seq<nat>) { forall i, j :: 0 <= i < j < |p| ==> p[i] != p[j] }

  lemma {:induction false} Shorter<T>(a: seq<T>, b: seq<T>, n: nat, j: nat)
    requires multiset(a) <= multiset(b) && |a| == n + 1 && j < |b| && b[j] == a[n]
    ensures multiset(a[..n]) <= multiset(b[..j] + b[j + 1..])
  {
    var front, before, after, x := a[..n], b[..j], b[j + 1..], a[n];
    assert a == front + [x];
    assert b == before + ([x] + after);
    assert multiset(a) == multiset(front) + multiset{x};
    assert multiset(b) == multiset(before) + multiset(after) + multiset{x};
    assert multiset(before + after) == multiset(before) + multiset(after);
    forall y
      ensures multiset(front)[y] <= multiset(before + after)[y]
    {
      assert multiset(a)[y] <= multiset(b)[y];
    }
  }

  function Shift(i: nat, j: nat): nat { if i < j then i else i + 1 }

  /** Where the elements of one list stand in another that holds them all. */
  lemma {:induction false} Embed<T>(a: seq<T>, b: seq<T>) returns (p: seq<nat>)
    requires multiset(a) <= multiset(b)
    ensures |p| == |a| && Injective(p) && forall i :: 0 <= i < |p| ==> p[i] < |b| && b[p[i]] == a[i]
  {
    if a == [] {
      p := [];
    } else {
      var n := |a| - 1;
      assert a[n] in multiset(a);
      SameMember(b, b, a[n]);
      var j :| 0 <= j < |b| && b[j] == a[n];
      Shorter(a, b, n, j);
      var q := Embed(a[..n], b[..j] + b[j + 1..]);
      p := Shifted(a[..n], b, j, q);
      p := p + [j];
    }
  }

  lemma {:induction false} Shifted<T>(a: seq<T>, b: seq<T>, j: nat, q: seq<nat>) returns (p: seq<nat>)
    requires j < |b| && |q| == |a| && Injective(q)
    requires forall i :: 0 <= i < |q| ==> q[i] < |b| - 1 && (b[..j] + b[j + 1..])[q[i]] == a[i]
    ensures |p| == |a| && Injective(p) && forall i :: 0 <= i < |p| ==> p[i] < |b| && b[p[i]] == a[i] && p[i] != j
  {
    p := seq(|q|, i requires 0 <= i < |q| => Shift(q[i], j));
    forall i | 0 <= i < |p|
      ensures p[i] < |b| && b[p[i]] == a[i] && p[i] != j
    {
      assert (b[..j] + b[j + 1..])[q[i]] == b[Shift(q[i], j)];
    }
  }

  function Members(p: seq<nat>): set<nat> { set k | k in p }

  lemma {:induction false} MembersSize(p: seq<nat>)
    requires Injective(p)
    ensures |Members(p)| == |p|
  {
    if p != [] {
      var front, last := p[..|p| - 1], p[|p| - 1];
      MembersSize(front);
      assert p == front + [last];
      assert Members(p) == Members(front) + {last};
      assert last !in front;
    }
  }

  lemma {:induction false} ConsumersSnoc(s: seq<Building>, x: Building)
    ensures |Consumers(s + [x])| == |Consumers(s)| + if x.consumesDrone then 1 else 0
  {
    ConsumersUnfold(s + [x]);
    if s == [] {
      assert (s + [x])[1..] == [];
    } else {
      ConsumersSnoc(s[1..], x);
      ConsumersUnfold(s);
      assert (s + [x])[1..] == s[1..] + [x];
    }
  }

  function ConsumerPositions(items: seq<Building>, n: nat): set<nat>
    requires n <= |items|
  {
    set k: nat | 0 <= k < n && items[k].consumesDrone
  }

  lemma {:induction false} ConsumerPositionsSize(items: seq<Building>, n: nat)
    requires n <= |items|
    ensures |ConsumerPositions(items, n)| == |Consumers(items[..n])|
  {
    if n > 0 {
      ConsumerPositionsSize(items, n - 1);
      assert ConsumerPositions(items, n)
          == if items[n - 1].consumesDrone then ConsumerPositions(items, n - 1) + {n - 1} else ConsumerPositions(items, n - 1);
      ConsumersSnoc(items[..n - 1], items[n - 1]);
      hide Consumers;
      assert items[..n] == items[..n - 1] + [items[n - 1]];
    }
  }

  /** The positions of the building starts among the items: all that consume a drone, once each. */
  lemma {:induction false} StartPositions(items: seq<Building>) returns (p: seq<nat>)
    ensures |p| == |BuildingStarts(items)| && Injective(p)
    ensures forall i :: 0 <= i < |p| ==> p[i] < |items| && items[p[i]] == BuildingStarts(items)[i]
    ensures forall k: nat :: k in p <==> k < |items| && items[k].consumesDrone
  {
    var starts := BuildingStarts(items);
    assert |starts| == |Consumers(items)|;
    StartsOfItems(items);
    hide BuildingStarts, Consumers;
    p := Embed(starts, items);
    forall i | 0 <= i < |p|
      ensures items[p[i]].consumesDrone
    {
      assert starts[i] in multiset(starts);
    }
    EveryConsumer(items, p);
  }

  lemma {:induction false} EveryConsumer(items: seq<Building>, p: seq<nat>)
    requires Injective(p) && |p| == |Consumers(items)|
    requires forall i :: 0 <= i < |p| ==> p[i] < |items| && items[p[i]].consumesDrone
    ensures forall k: nat :: k in p <==> k < |items| && items[k].consumesDrone
  {
    hide Consumers, Injective;
    ConsumerPositionsSize(items, |items|);
    assert items[..|items|] == items;
    MembersSize(p);
    SubsetOfSameSize(Members(p), ConsumerPositions(items, |items|));
    forall k: nat
      ensures k in p <==> k < |items| && items[k].consumesDrone
    {
      assert k in Members(p) <==> k in ConsumerPositions(items, |items|);
    }
  }

  lemma {:induction false} SubsetOfSameSize(a: set<nat>, b: set<nat>)
    requires a <= b && |a| == |b|
    ensures a == b
  {
    assert |b - a| == 0;
  }

  /** Two sets that `p` maps onto one another have the same size. */
  lemma {:induction false} SameSize(a: set<nat>, b: set<nat>, p: seq<nat>)
    requires Injective(p) && forall i :: i in a ==> i < |p| && p[i] in b
    requires forall k :: k in b ==> exists i :: i in a && i < |p| && p[i] == k
    ensures |a| == |b|
    decreases |a|
  {
    if a == {} {
      assert b == {};
    } else {
      var i := Pick(a);
      SameSize(a - {i}, b - {p[i]}, p);
    }
  }

  /** A matching of building starts as an assignment to items... */
  function ToItems(g: map<nat, nat>, p: seq<nat>): map<nat, nat>
    requires Injective(p) && forall i :: i in g ==> i < |p|
  {
    map i | i in g :: p[i] := g[i]
  }

  lemma {:induction false} ToItemsHas(g: map<nat, nat>, p: seq<nat>, i: nat)
    requires Injective(p) && (forall i :: i in g ==> i < |p|) && i in g
    ensures p[i] in ToItems(g, p) && ToItems(g, p)[p[i]] == g[i]
  {
  }

  lemma {:induction false} ToItemsFrom(g: map<nat, nat>, p: seq<nat>, k: nat) returns (i: nat)
    requires Injective(p) && (forall i :: i in g ==> i < |p|) && k in ToItems(g, p)
    ensures i in g && i < |p| && p[i] == k && g[i] == ToItems(g, p)[k]
  {
    i :| i in g && p[i] == k && g[i] == ToItems(g, p)[k];
  }

  lemma {:induction false} ToItemsSize(g: map<nat, nat>, p: seq<nat>)
    requires Injective(p) && forall i :: i in g ==> i < |p|
    ensures |ToItems(g, p)| == |g|
  {
    hide ToItems, Injective;
    var m := ToItems(g, p);
    forall i | i in g.Keys
      ensures i < |p| && p[i] in m.Keys
    {
      ToItemsHas(g, p, i);
    }
    forall k | k in m.Keys
      ensures exists i :: i in g.Keys && i < |p| && p[i] == k
    {
      var i := ToItemsFrom(g, p, k);
    }
    SameSize(g.Keys, m.Keys, p);
  }

  lemma {:induction false} ToItemsValues(g: map<nat, nat>, p: seq<nat>)
    requires Injective(p) && forall i :: i in g ==> i < |p|
    ensures ToItems(g, p).Values == g.Values
  {
    hide ToItems, Injective;
    var m := ToItems(g, p);
    forall v
      ensures v in m.Values <==> v in g.Values
    {
      if v in g.Values {
        var i :| i in g && g[i] == v;
        ToItemsHas(g, p, i);
      }
      if v in m.Values {
        var k :| k in m && m[k] == v;
        var i := ToItemsFrom(g, p, k);
      }
    }
  }

  lemma {:induction false} ToItemsAssigns(raw: seq<Death>, items: seq<Building>, p: seq<nat>, g: map<nat, nat>)
    requires |p| == |BuildingStarts(items)| && Injective(p)
    requires forall i :: 0 <= i < |p| ==> p[i] < |items| && items[p[i]] == BuildingStarts(items)[i]
    requires forall k: nat :: k in p <==> k < |items| && items[k].consumesDrone
    requires IsMatching(raw, BuildingStarts(items), g)
    ensures (forall i :: i in g ==> i < |p|) && Assigns(raw, items, ToItems(g, p))
  {
    hide BuildingStarts, ToItems, Injective, Explains, IsCandidate;
    var m := ToItems(g, p);
    forall k | k in m
      ensures && k < |items| && items[k].consumesDrone
              && m[k] < |raw| && raw[m[k]].category == Worker && raw[m[k]].isDrone
              && items[k].start <= raw[m[k]].time < items[k].start + 1.5
    {
      var i := ToItemsFrom(g, p, k);
      assert p[i] in p;
      assert Explains(raw, BuildingStarts(items)[i], g[i]) && IsCandidate(raw, g[i]);
      MatchOnSamples(raw, BuildingStarts(items)[i], g[i]);
    }
    forall k, l | k in m && l in m && m[k] == m[l]
      ensures k == l
    {
      var i := ToItemsFrom(g, p, k);
      var j := ToItemsFrom(g, p, l);
    }
  }

  lemma {:induction false} MatchOnSamples(raw: seq<Death>, b: Building, d: nat)
    ensures Explains(raw, b, d) && IsCandidate(raw, d)
       <==> d < |raw| && raw[d].category == Worker && raw[d].isDrone && b.start <= raw[d].time < b.start + 1.5
  {
  }

  /** ... and back. */
  function ToStarts(m: map<nat, nat>, p: seq<nat>): map<nat, nat> {
    map i: nat | 0 <= i < |p| && p[i] in m :: m[p[i]]
  }

  lemma {:induction false} ToStartsMatches(raw: seq<Death>, items: seq<Building>, p: seq<nat>, m: map<nat, nat>)
    requires |p| == |BuildingStarts(items)| && Injective(p)
    requires forall i :: 0 <= i < |p| ==> p[i] < |items| && items[p[i]] == BuildingStarts(items)[i]
    requires forall k: nat :: k in p <==> k < |items| && items[k].consumesDrone
    requires Assigns(raw, items, m)
    ensures IsMatching(raw, BuildingStarts(items), ToStarts(m, p)) && |ToStarts(m, p)| == |m|
  {
    hide BuildingStarts, Explains, IsCandidate, Assigns, Injective;
    var g := ToStarts(m, p);
    SameNumber(raw, items, p, m);
    forall i | i in g
      ensures i < |BuildingStarts(items)| && IsCandidate(raw, g[i]) && Explains(raw, BuildingStarts(items)[i], g[i])
    {
      AssignedOnItems(raw, items, m, p[i]);
      MatchOnSamples(raw, BuildingStarts(items)[i], g[i]);
    }
    forall i, j | i in g && j in g && g[i] == g[j]
      ensures i == j
    {
      OncePerDeath(raw, items, m, p[i], p[j]);
      AtMostOnce(p, i, j);
    }
  }

  lemma {:induction false} SameNumber(raw: seq<Death>, items: seq<Building>, p: seq<nat>, m: map<nat, nat>)
    requires Injective(p) && Assigns(raw, items, m)
    requires forall k: nat :: k in p <==> k < |items| && items[k].consumesDrone
    ensures |ToStarts(m, p)| == |m|
  {
    hide Assigns, Injective;
    var g := ToStarts(m, p);
    forall k | k in m.Keys
      ensures exists i :: i in g.Keys && i < |p| && p[i] == k
    {
      AssignedOnItems(raw, items, m, k);
      assert k in p;
      var i :| 0 <= i < |p| && p[i] == k;
      assert i in g;
    }
    SameSize(g.Keys, m.Keys, p);
  }

  lemma {:induction false} AtMostOnce(p: seq<nat>, i: nat, j: nat)
    requires Injective(p) && i < |p| && j < |p| && p[i] == p[j]
    ensures i == j
  {
  }

  lemma {:induction false} AssignedOnItems(raw: seq<Death>, items: seq<Building>, m: map<nat, nat>, k: nat)
    requires Assigns(raw, items, m) && k in m
    ensures k < |items| && items[k].consumesDrone
    ensures m[k] < |raw| && raw[m[k]].category == Worker && raw[m[k]].isDrone
    ensures items[k].start <= raw[m[k]].time < items[k].start + 1.5
  {
  }

  lemma {:induction false} OncePerDeath(raw: seq<Death>, items: seq<Building>, m: map<nat, nat>, k: nat, l: nat)
    requires Assigns(raw, items, m) && k in m && l in m && m[k] == m[l]
    ensures k == l
  {
  }

  /** No structure passes over a death: an earlier free death in its window, or any when it takes
      none, went to a structure that started before it. */
  ghost predicate TakesEarliest(raw: seq<Death>, items: seq<Building>, m: map<nat, nat>) {
    forall k, d ::
      && 0 <= k < |items| && items[k].consumesDrone
      && 0 <= d < |raw| && raw[d].category == Worker && raw[d].isDrone
      && items[k].start <= raw[d].time < items[k].start + 1.5
      && (k in m ==> Earlier(raw, d, m[k])) ==>
        exists l :: l in m && m[l] == d && l < |items| && NoLater(items[l], items[k])
  }

  predicate Earlier(raw: seq<Death>, i: nat, j: nat) {
    && i < |raw| && j < |raw|
    && (raw[i].time < raw[j].time
        || (raw[i].time == raw[j].time
            && (raw[i].frame < raw[j].frame || (raw[i].frame == raw[j].frame && raw[i].order < raw[j].order))))
  }

  predicate NoLater(x: Building, y: Building) { x.start < y.start || (x.start == y.start && x.id <= y.id) }

  /** The greedy pass gives each structure its first free death. */
  lemma {:induction false} GreedyTakesFirst(raw: seq<Death>, starts: seq<Building>, n: nat, used: set<nat>, b: nat, d: nat)
    requires n <= b < |starts| && IsCandidate(raw, d) && Explains(raw, starts[b], d)
    requires var g := Greedy(raw, Candidates(raw), starts, n, used); b in g ==> Earlier(raw, d, g[b])
    ensures var g := Greedy(raw, Candidates(raw), starts, n, used); d in used || exists a :: n <= a < b && a in g && g[a] == d
    decreases |starts| - n
  {
    var g, c := Greedy(raw, Candidates(raw), starts, n, used), Candidates(raw);
    var found := FindDeath(raw, c, used, starts[n], 0);
    hide Candidates, Explains, IsCandidate, FindDeath, Earlier;
    if b == n {
      GreedyKeys(raw, c, starts, n + 1, used);
      FoundIsFirst(raw, used, starts[n], d);
    } else if found.None? {
      GreedyTakesFirst(raw, starts, n + 1, used, b, d);
    } else {
      var x := c[found.value];
      var rest := Greedy(raw, c, starts, n + 1, used + {x});
      assert g == rest[n := x];
      hide Greedy;
      GreedyTakesFirst(raw, starts, n + 1, used + {x}, b, d);
      OneMoreTaken(rest, g, n, x, used, b, d);
    }
  }

  lemma {:induction false} OneMoreTaken(rest: map<nat, nat>, g: map<nat, nat>, n: nat, x: nat, used: set<nat>, b: nat, d: nat)
    requires n < b && (d in used + {x} || exists a :: n + 1 <= a < b && a in rest && rest[a] == d)
    requires g == rest[n := x]
    ensures d in used || exists a :: n <= a < b && a in g && g[a] == d
  {
    if d == x {
      assert n in g && g[n] == d;
    } else if d !in used {
      var a :| n + 1 <= a < b && a in rest && rest[a] == d;
      assert a in g && g[a] == d;
    }
  }

  /** The search passes over used deaths only. */
  lemma {:induction false} FoundIsFirst(raw: seq<Death>, used: set<nat>, s: Building, d: nat)
    requires IsCandidate(raw, d) && Explains(raw, s, d)
    requires var r := FindDeath(raw, Candidates(raw), used, s, 0); r.Some? ==> Earlier(raw, d, Candidates(raw)[r.value])
    ensures d in used
  {
    var c := Candidates(raw);
    CandidatesSorted(raw);
    CandidatesOrdered(raw);
    var r := FindDeath(raw, c, used, s, 0);
    hide Candidates, Explains, IsCandidate, FindDeath, Earlier, DeathBefore;
    var i :| 0 <= i < |c| && c[i] == d;
    if r.Some? && r.value <= i {
      NotEarlier(raw, c, r.value, i);
    }
  }

  lemma {:induction false} NotEarlier(raw: seq<Death>, c: seq<nat>, i: nat, j: nat)
    requires i <= j < |c| && forall x, y :: 0 <= x < y < |c| ==> DeathBefore(raw, c[x], c[y])
    ensures !Earlier(raw, c[j], c[i])
  {
    if i < j {
      assert DeathBefore(raw, c[i], c[j]);
    }
  }

  /** The same for the assignment of items. */
  lemma {:induction false} ItemsTakeFirst(raw: seq<Death>, items: seq<Building>, p: seq<nat>, g: map<nat, nat>, k: nat, d: nat)
    requires |p| == |BuildingStarts(items)| && Injective(p) && forall i :: i in g ==> i < |p|
    requires forall i :: 0 <= i < |p| ==> p[i] < |items| && items[p[i]] == BuildingStarts(items)[i]
    requires forall x: nat :: x in p <==> x < |items| && items[x].consumesDrone
    requires g == Greedy(raw, Candidates(raw), BuildingStarts(items), 0, {})
    requires k < |items| && items[k].consumesDrone && d < |raw| && raw[d].category == Worker && raw[d].isDrone
    requires items[k].start <= raw[d].time < items[k].start + 1.5
    requires k in ToItems(g, p) ==> Earlier(raw, d, ToItems(g, p)[k])
    ensures exists l :: l in ToItems(g, p) && ToItems(g, p)[l] == d && l < |items| && NoLater(items[l], items[k])
  {
    var starts := BuildingStarts(items);
    StartsOfItems(items);
    hide BuildingStarts, Greedy, Candidates, Injective, ToItems, Earlier;
    assert k in p;
    var b :| 0 <= b < |p| && p[b] == k;
    if b in g {
      ToItemsHas(g, p, b);
    }
    MatchOnSamples(raw, starts[b], d);
    GreedyTakesFirst(raw, starts, 0, {}, b, d);
    var a :| 0 <= a < b && a in g && g[a] == d;
    ToItemsHas(g, p, a);
    assert NoLater(starts[a], starts[b]);
  }

  lemma {:induction false} ItemsTakeEarliest(raw: seq<Death>, items: seq<Building>, p: seq<nat>, g: map<nat, nat>)
    requires |p| == |BuildingStarts(items)| && Injective(p) && forall i :: i in g ==> i < |p|
    requires forall i :: 0 <= i < |p| ==> p[i] < |items| && items[p[i]] == BuildingStarts(items)[i]
    requires forall x: nat :: x in p <==> x < |items| && items[x].consumesDrone
    requires g == Greedy(raw, Candidates(raw), BuildingStarts(items), 0, {})
    ensures TakesEarliest(raw, items, ToItems(g, p))
  {
    hide BuildingStarts, Greedy, Candidates, ToItems, Earlier, NoLater, Injective;
    var m := ToItems(g, p);
    forall k, d | 0 <= k < |items| && items[k].consumesDrone
                  && 0 <= d < |raw| && raw[d].category == Worker && raw[d].isDrone
                  && items[k].start <= raw[d].time < items[k].start + 1.5
                  && (k in m ==> Earlier(raw, d, m[k]))
      ensures exists l :: l in m && m[l] == d && l < |items| && NoLater(items[l], items[k])
    {
      ItemsTakeFirst(raw, items, p, g, k, d);
    }
  }

  /** The deaths accounted for, as a largest assignment to the items that consumed a drone. */
  lemma {:induction false} AccountedOnItems(raw: seq<Death>, isZerg: bool, items: seq<Building>) returns (m: map<nat, nat>)
    ensures m.Values == Accounted(raw, isZerg, items)
    ensures if isZerg then Assigns(raw, items, m) && forall other :: Assigns(raw, items, other) ==> |other| <= |m| else m == map[]
    ensures isZerg ==> TakesEarliest(raw, items, m)
  {
    if isZerg {
      var p := StartPositions(items);
      var starts := BuildingStarts(items);
      var greedy := Greedy(raw, Candidates(raw), starts, 0, {});
      hide BuildingStarts, Candidates, Greedy, IsMatching, Assigns, TakesEarliest;
      NothingMatched(raw, starts);
      SuppressionIsMaximum(raw, items, map[]);
      ToItemsAssigns(raw, items, p, greedy);
      ToItemsSize(greedy, p);
      ToItemsValues(greedy, p);
      m := ToItems(greedy, p);
      ItemsTakeEarliest(raw, items, p, greedy);
      hide ToItems, ToStarts;
      forall other | Assigns(raw, items, other)
        ensures |other| <= |m|
      {
        ToStartsMatches(raw, items, p, other);
        SuppressionIsMaximum(raw, items, ToStarts(other, p));
      }
    } else {
      m := map[];
    }
  }

  lemma {:induction false} NothingMatched(raw: seq<Death>, starts: seq<Building>)
    ensures IsMatching(raw, starts, map[])
  {
  }

  /** `classifyCombatDeaths` on time-ordered samples.  `m` is the assignment behind it. */
  method Classify(raw: seq<Death>, isZerg: bool, items: seq<Building>) returns (c: Classified, ghost m: map<nat, nat>)
    requires TimesAscend(raw)
    ensures IsClassification(raw, Accounted(raw, isZerg, items), c) && m.Values == Accounted(raw, isZerg, items)
    ensures !isZerg ==> m == map[]
    ensures forall k :: k in m ==>
              && k < |items| && items[k].consumesDrone
              && m[k] < |raw| && raw[m[k]].category == Worker && raw[m[k]].isDrone
              && items[k].start <= raw[m[k]].time < items[k].start + 1.5
    ensures forall k, l :: k in m && l in m && m[k] == m[l] ==> k == l
    ensures isZerg ==> forall other :: Assigns(raw, items, other) ==> |other| <= |m|
    ensures isZerg ==> TakesEarliest(raw, items, m)
  {
    m := AccountedOnItems(raw, isZerg, items);
    hide TakesEarliest, Greedy, Candidates, BuildingStarts, IsTail, IsTerminal, IsClassification, IsFiltered;
    var chosen: set<nat> := {};
    if isZerg {
      chosen := Suppress(raw, items);
    }
    if raw != [] {
      SelectionsKeepOrder(raw, chosen, |raw|, raw[|raw| - 1].time);
    }
    var eligible: seq<Death> := [];
    var suppressed: seq<Death> := [];
    for i := 0 to |raw|
      invariant suppressed == Chosen(raw, chosen, i) && eligible == Omit(raw, chosen, i)
    {
      if i in chosen {
        suppressed := suppressed + [raw[i]];
      } else {
        eligible := eligible + [raw[i]];
      }
    }
    ghost var start;
    var kept;
    kept, start := FilterTerminal(eligible);
    c := Classified(suppressed, kept);
    ClassificationFrom(raw, chosen, c, start);
  }

  lemma {:induction false} ClassificationFrom(raw: seq<Death>, chosen: set<nat>, c: Classified, start: nat)
    requires c.suppressed == Chosen(raw, chosen, |raw|)
    requires var s := Omit(raw, chosen, |raw|);
             if |s| < TERMINAL_MIN_COUNT then c.combat == s
             else IsTail(s, start) && c.combat == if IsTerminal(s, start) then s[..start] else s
    ensures IsClassification(raw, chosen, c)
  {
    hide IsTerminal, Chosen, Omit;
  }

  // ----- The tail in terms of the samples alone -----

  /** From `start` on there are at least eight deaths of units, workers or buildings, they are at
      least a fifth of all samples, and each of the three kinds is among them. */
  ghost predicate LooksDeleted(s: seq<Death>, start: nat)
    requires start <= |s| && s != []
  {
    var counted := CountedFrom(s, start, |s|);
    && |counted| >= 8 && |counted| as real / |s| as real >= 0.2
    && (exists i :: start <= i < |s| && s[i].category == Worker)
    && (exists i :: start <= i < |s| && s[i].category == BuildingDeath)
    && (exists i :: start <= i < |s| && (s[i].category == Unit || s[i].category == Air))
  }

  function CountedFrom(s: seq<Death>, start: nat, n: nat): set<nat>
    requires n <= |s|
  {
    set i: nat | start <= i < n && s[i].category != OtherCategory
  }

  lemma {:induction false} LanesCounted(s: seq<Death>, start: nat, n: nat)
    requires start <= n <= |s|
    ensures LaneCount(s[start..n]) == |CountedFrom(s, start, n)|
  {
    if start < n {
      LanesCounted(s, start, n - 1);
      LaneCountSnoc(s[start..n - 1], s[n - 1]);
      CountedSnoc(s, start, n);
      hide LaneCount, CountedFrom;
      assert s[start..n] == s[start..n - 1] + [s[n - 1]];
    } else {
      assert CountedFrom(s, start, n) == {};
    }
  }

  lemma {:induction false} CountedSnoc(s: seq<Death>, start: nat, n: nat)
    requires start < n <= |s|
    ensures |CountedFrom(s, start, n)| == |CountedFrom(s, start, n - 1)| + if s[n - 1].category != OtherCategory then 1 else 0
  {
    assert CountedFrom(s, start, n)
        == CountedFrom(s, start, n - 1) + if s[n - 1].category != OtherCategory then {n - 1} else {};
  }

  lemma {:induction false} LaneCountSnoc(s: seq<Death>, x: Death)
    ensures LaneCount(s + [x]) == LaneCount(s) + if x.category != OtherCategory then 1 else 0
  {
    assert (s + [x])[..|s|] == s;
  }

  lemma {:induction false} LanesPresent(s: seq<Death>, start: nat)
    requires start <= |s|
    ensures HasLane(s[start..], Workers) <==> exists i :: start <= i < |s| && s[i].category == Worker
    ensures HasLane(s[start..], Buildings) <==> exists i :: start <= i < |s| && s[i].category == BuildingDeath
    ensures HasLane(s[start..], Units) <==> exists i :: start <= i < |s| && (s[i].category == Unit || s[i].category == Air)
  {
    var tail := s[start..];
    forall i | start <= i < |s|
      ensures tail[i - start] == s[i]
    {
    }
    if i :| start <= i < |s| && s[i].category == Worker { assert LaneOf(tail[i - start].category) == Workers; }
    if i :| start <= i < |s| && s[i].category == BuildingDeath { assert LaneOf(tail[i - start].category) == Buildings; }
    if i :| start <= i < |s| && (s[i].category == Unit || s[i].category == Air) { assert LaneOf(tail[i - start].category) == Units; }
  }

  lemma {:induction false} TerminalOnSamples(s: seq<Death>, start: nat)
    requires s != [] && start <= |s|
    ensures IsTerminal(s, start) <==> LooksDeleted(s, start)
  {
    LanesCounted(s, start, |s|);
    LanesPresent(s, start);
    assert s[start..|s|] == s[start..];
    hide LaneCount, HasLane;
  }

  /** What is kept of the samples: all but a tail of the last five seconds that looks deleted. */
  lemma {:induction false} FilteredOnSamples(s: seq<Death>, kept: seq<Death>)
    requires IsFiltered(s, kept)
    ensures |s| < 8 ==> kept == s
    ensures |s| >= 8 ==>
              exists start: nat :: start < |s|
                && (forall i :: 0 <= i < |s| ==> (start <= i <==> s[|s| - 1].time - s[i].time <= 5.0))
                && kept == if LooksDeleted(s, start) then s[..start] else s
  {
    hide IsTerminal, LooksDeleted;
    if |s| >= 8 {
      var start: nat :| start < |s| && IsTail(s, start) && kept == if IsTerminal(s, start) then s[..start] else s;
      TerminalOnSamples(s, start);
    }
  }

  /** `s` holds the samples before `n` whose index is in `chosen`, or is not; `p` are their indexes. */
  ghost predicate Places(raw: seq<Death>, chosen: set<nat>, inside: bool, n: nat, s: seq<Death>, p: seq<nat>) {
    && n <= |raw| && |p| == |s|
    && (forall i, j :: 0 <= i < j < |p| ==> p[i] < p[j])
    && (forall i :: 0 <= i < |p| ==> p[i] < n && raw[p[i]] == s[i])
    && (forall k: nat :: k in p <==> k < n && (k in chosen <==> inside))
  }

  lemma {:induction false} PlacesOneMore(raw: seq<Death>, chosen: set<nat>, inside: bool, n: nat, s: seq<Death>, p: seq<nat>)
    requires Places(raw, chosen, inside, n, s, p) && n < |raw|
    ensures if n in chosen <==> inside then Places(raw, chosen, inside, n + 1, s + [raw[n]], p + [n])
            else Places(raw, chosen, inside, n + 1, s, p)
  {
    forall k: nat
      ensures k in p + [n] <==> k in p || k == n
    {
    }
  }

  lemma {:induction false} NothingPlaced(raw: seq<Death>, chosen: set<nat>, inside: bool)
    ensures Places(raw, chosen, inside, 0, [], [])
  {
  }

  lemma {:induction false} SelectionPositions(raw: seq<Death>, chosen: set<nat>, n: nat) returns (p: seq<nat>, q: seq<nat>)
    requires n <= |raw|
    ensures Places(raw, chosen, true, n, Chosen(raw, chosen, n), p) && Places(raw, chosen, false, n, Omit(raw, chosen, n), q)
  {
    hide Places;
    if n == 0 {
      p, q := [], [];
      NothingPlaced(raw, chosen, true);
      NothingPlaced(raw, chosen, false);
    } else {
      p, q := SelectionPositions(raw, chosen, n - 1);
      PlacesOneMore(raw, chosen, true, n - 1, Chosen(raw, chosen, n - 1), p);
      PlacesOneMore(raw, chosen, false, n - 1, Omit(raw, chosen, n - 1), q);
      if n - 1 in chosen {
        p := p + [n - 1];
      } else {
        q := q + [n - 1];
      }
    }
  }

  /** The result by positions: the suppressed samples are those chosen, in order, and the combat
      samples the others, in order, without a tail that looks deleted. */
  lemma {:induction false} ClassifiedOnSamples(raw: seq<Death>, chosen: set<nat>, c: Classified) returns (p: seq<nat>, q: seq<nat>, others: seq<Death>)
    requires IsClassification(raw, chosen, c)
    ensures |p| == |c.suppressed| && forall i, j :: 0 <= i < j < |p| ==> p[i] < p[j]
    ensures forall i :: 0 <= i < |p| ==> p[i] < |raw| && raw[p[i]] == c.suppressed[i]
    ensures forall k: nat :: k in p <==> k < |raw| && k in chosen
    ensures |q| == |others| && forall i, j :: 0 <= i < j < |q| ==> q[i] < q[j]
    ensures forall i :: 0 <= i < |q| ==> q[i] < |raw| && raw[q[i]] == others[i]
    ensures forall k: nat :: k in q <==> k < |raw| && k !in chosen
    ensures |others| < 8 ==> c.combat == others
    ensures |others| >= 8 ==>
              exists start: nat :: start < |others|
                && (forall i :: 0 <= i < |others| ==> (start <= i <==> others[|others| - 1].time - others[i].time <= 5.0))
                && c.combat == if LooksDeleted(others, start) then others[..start] else others
  {
    others := Omit(raw, chosen, |raw|);
    p, q := SelectionPositions(raw, chosen, |raw|);
    FilteredOnSamples(others, c.combat);
    hide Chosen, Omit, IsFiltered, LooksDeleted;
  }
}
