/** The half-open sweep of packages/legacy-replay-analysis/mining_opportunity_cost.py.
    Base by base it walks the clipped event frames with a dictionary of absent workers and
    a moving index into the economic states; `CalculateOpportunityCost` proves that the
    totals are the frame-by-frame sums of module `OpportunityCost`. */
module OpportunitySweep {
  import Curve = MineralSaturation
  import opened OpportunityCost
  import opened Sorting
  import opened Sums

  datatype Coverage = Coverage(start: nat, end: nat)

  datatype Segment = Segment(start: nat, end: nat, base: Id, active: nat, absent: nat, patches: nat,
                             lossRate: real, loss: real,
                             workerLosses: seq<(Id, real)>, categoryLosses: seq<(Id, real)>)

  // ----- Selecting the rows of one base -----

  function EconomiesOf(s: seq<Economy>, b: Id): seq<Economy> {
    if s == [] then []
    else (if s[0].base == b then [s[0]] else []) + EconomiesOf(s[1..], b)
  }

  function AbsencesOf(s: seq<Absence>, b: Id): seq<Absence> {
    if s == [] then []
    else (if s[0].base == b then [s[0]] else []) + AbsencesOf(s[1..], b)
  }

  lemma {:induction false} EconomiesOfMembers(s: seq<Economy>, b: Id)
    ensures forall e :: e in EconomiesOf(s, b) <==> e in s && e.base == b
  {
    if s != [] {
      EconomiesOfMembers(s[1..], b);
      assert s == [s[0]] + s[1..];
    }
  }

  lemma {:induction false} AbsencesOfMembers(s: seq<Absence>, b: Id)
    ensures forall a :: a in AbsencesOf(s, b) <==> a in s && a.base == b
  {
    if s != [] {
      AbsencesOfMembers(s[1..], b);
      assert s == [s[0]] + s[1..];
    }
  }

  // ----- Absences alive in a frame -----

  ghost function Live(absences: seq<Absence>, f: int): set<Absence> {
    set a | a in absences && a.start <= f < a.end
  }

  ghost predicate DistinctWorkers(live: set<Absence>) {
    forall x, y :: x in live && y in live && x.worker == y.worker ==> x == y
  }

  predicate Meets(start: nat, end: nat, c: Coverage) { c.start < end && start < c.end }

  function ClipStart(start: nat, c: Coverage): nat { if start > c.start then start else c.start }

  function ClipEnd(end: nat, c: Coverage): nat { if end < c.end then end else c.end }

  /** `active` is a dictionary of exactly the absences in `live`, by worker. */
  ghost predicate Represents(active: map<Id, Absence>, live: set<Absence>) {
    && (forall w :: w in active ==> active[w] in live && active[w].worker == w)
    && (forall a :: a in live ==> a.worker in active && active[a.worker] == a)
  }

  lemma {:induction false} RepresentsSize(active: map<Id, Absence>, live: set<Absence>)
    requires Represents(active, live)
    ensures |active| == |live|
    decreases |active|
  {
    if active.Keys != {} {
      var w := Pick(active.Keys);
      var a := active[w];
      RepresentsSize(active - {w}, live - {a});
      assert |active - {w}| == |active| - 1 by {
        assert (active - {w}).Keys == active.Keys - {w};
      }
    } else {
      assert forall a :: a in live ==> a.worker in active.Keys;
      assert live == {};
    }
  }

  // ----- Event frames -----

  /** Every clipped endpoint of a row that meets the coverage is an event. */
  ghost predicate HasEvents(events: set<nat>, economics: seq<Economy>, absences: seq<Absence>, c: Coverage) {
    && c.start in events && c.end in events
    && (forall t :: t in events ==> c.start <= t <= c.end)
    && (forall e :: e in economics && Meets(e.start, e.end, c) ==>
          ClipStart(e.start, c) in events && ClipEnd(e.end, c) in events)
    && (forall a :: a in absences && Meets(a.start, a.end, c) ==>
          ClipStart(a.start, c) in events && ClipEnd(a.end, c) in events)
  }

  /** A coverage end, or an end of an interval that meets the coverage, clipped to it. */
  ghost predicate IsEvent(t: nat, economics: seq<Economy>, absences: seq<Absence>, c: Coverage) {
    || t == c.start || t == c.end
    || (exists e :: e in economics && Meets(e.start, e.end, c) && (t == ClipStart(e.start, c) || t == ClipEnd(e.end, c)))
    || (exists a :: a in absences && Meets(a.start, a.end, c) && (t == ClipStart(a.start, c) || t == ClipEnd(a.end, c)))
  }

  /** The events of the first `e` economic states and the first `a` absences. */
  ghost predicate Collected(events: set<nat>, economics: seq<Economy>, absences: seq<Absence>, e: nat, a: nat, c: Coverage)
    requires e <= |economics| && a <= |absences|
  {
    && HasEvents(events, economics[..e], absences[..a], c)
    && forall t :: t in events ==> IsEvent(t, economics, absences, c)
  }

  lemma {:induction false} CollectNothing(economics: seq<Economy>, absences: seq<Absence>, c: Coverage)
    requires c.start < c.end
    ensures Collected({c.start, c.end}, economics, absences, 0, 0, c)
  {
  }

  lemma {:induction false} CollectEconomy(events: set<nat>, economics: seq<Economy>, absences: seq<Absence>, i: nat, c: Coverage)
    requires i < |economics| && economics[i].start < economics[i].end && Collected(events, economics, absences, i, 0, c)
    ensures var e := economics[i];
            Collected(if Meets(e.start, e.end, c) then events + {ClipStart(e.start, c), ClipEnd(e.end, c)} else events,
                      economics, absences, i + 1, 0, c)
  {
    var e := economics[i];
    assert e in economics;
    assert economics[..i + 1] == economics[..i] + [e];
    assert Meets(e.start, e.end, c) ==>
        IsEvent(ClipStart(e.start, c), economics, absences, c) && IsEvent(ClipEnd(e.end, c), economics, absences, c);
    hide IsEvent;
  }

  lemma {:induction false} CollectAbsence(events: set<nat>, economics: seq<Economy>, absences: seq<Absence>, i: nat, c: Coverage)
    requires i < |absences| && absences[i].start < absences[i].end && Collected(events, economics, absences, |economics|, i, c)
    ensures var a := absences[i];
            Collected(if Meets(a.start, a.end, c) then events + {ClipStart(a.start, c), ClipEnd(a.end, c)} else events,
                      economics, absences, |economics|, i + 1, c)
  {
    var a := absences[i];
    assert a in absences;
    assert absences[..i + 1] == absences[..i] + [a];
    assert Meets(a.start, a.end, c) ==>
        IsEvent(ClipStart(a.start, c), economics, absences, c) && IsEvent(ClipEnd(a.end, c), economics, absences, c);
    hide IsEvent;
  }

  lemma {:induction false} CollectedAll(events: set<nat>, economics: seq<Economy>, absences: seq<Absence>, c: Coverage)
    requires Collected(events, economics, absences, |economics|, |absences|, c)
    ensures HasEvents(events, economics, absences, c)
    ensures forall t :: t in events <==> IsEvent(t, economics, absences, c)
  {
    assert economics[..|economics|] == economics && absences[..|absences|] == absences;
  }

  method CollectEvents(economics: seq<Economy>, absences: seq<Absence>, c: Coverage) returns (events: set<nat>)
    requires c.start < c.end
    requires forall e :: e in economics ==> e.start < e.end
    requires forall a :: a in absences ==> a.start < a.end
    ensures HasEvents(events, economics, absences, c)
    ensures forall t :: t in events <==> IsEvent(t, economics, absences, c)
  {
    hide Collected, IsEvent, HasEvents;
    events := {c.start, c.end};
    CollectNothing(economics, absences, c);
    for i := 0 to |economics|
      invariant Collected(events, economics, absences, i, 0, c)
    {
      var e := economics[i];
      assert e in economics;
      CollectEconomy(events, economics, absences, i, c);
      if e.end > c.start && e.start < c.end {
        events := events + {ClipStart(e.start, c), ClipEnd(e.end, c)};
      }
    }
    for i := 0 to |absences|
      invariant Collected(events, economics, absences, |economics|, i, c)
    {
      var a := absences[i];
      assert a in absences;
      CollectAbsence(events, economics, absences, i, c);
      if a.end > c.start && a.start < c.end {
        events := events + {ClipStart(a.start, c), ClipEnd(a.end, c)};
      }
    }
    CollectedAll(events, economics, absences, c);
  }

  /** `ordered` lists `events` in ascending order. */
  ghost predicate Lists(ordered: seq<int>, events: set<nat>) {
    Ascending(ordered) && forall t :: t in ordered <==> t in events
  }

  lemma {:induction false} NoEventBetween(ordered: seq<int>, events: set<nat>, i: nat, t: nat)
    requires Lists(ordered, events) && i + 1 < |ordered| && t in events
    ensures t <= ordered[i] || ordered[i + 1] <= t
  {
    var j :| 0 <= j < |ordered| && ordered[j] == t;
    if j > i + 1 {
      assert ordered[i + 1] < ordered[j];
    } else if j < i {
      assert ordered[j] < ordered[i];
    }
  }

  // ----- Start and end buckets -----

  function Bucket(m: map<nat, seq<Absence>>, t: nat): seq<Absence> { if t in m then m[t] else [] }

  ghost predicate StartsBucketed(starts: map<nat, seq<Absence>>, absences: seq<Absence>, c: Coverage) {
    forall t, a :: a in Bucket(starts, t) <==> a in absences && Meets(a.start, a.end, c) && ClipStart(a.start, c) == t
  }

  ghost predicate EndsBucketed(ends: map<nat, seq<Absence>>, absences: seq<Absence>, c: Coverage) {
    forall t, a :: a in Bucket(ends, t) <==> a in absences && Meets(a.start, a.end, c) && ClipEnd(a.end, c) == t
  }

  method PushBucket(m: map<nat, seq<Absence>>, t: nat, a: Absence) returns (r: map<nat, seq<Absence>>)
    ensures forall u, x :: x in Bucket(r, u) <==> x in Bucket(m, u) || (u == t && x == a)
  {
    r := m[t := Bucket(m, t) + [a]];
  }

  method FillBuckets(absences: seq<Absence>, c: Coverage)
    returns (starts: map<nat, seq<Absence>>, ends: map<nat, seq<Absence>>)
    ensures StartsBucketed(starts, absences, c) && EndsBucketed(ends, absences, c)
  {
    starts, ends := map[], map[];
    for i := 0 to |absences|
      invariant StartsBucketed(starts, absences[..i], c)
      invariant EndsBucketed(ends, absences[..i], c)
    {
      var a := absences[i];
      assert absences[..i + 1] == absences[..i] + [a];
      if !(a.start >= c.end || a.end <= c.start) {
        starts := PushBucket(starts, ClipStart(a.start, c), a);
        ends := PushBucket(ends, ClipEnd(a.end, c), a);
      }
    }
    assert absences[..|absences|] == absences;
  }

  /** Moving from one event to the next removes the absences that end there and adds
      those that start there. */
  method Advance(active: map<Id, Absence>, leaving: seq<Absence>, arriving: seq<Absence>, ghost live: set<Absence>)
    returns (r: map<Id, Absence>)
    requires Represents(active, live)
    requires DistinctWorkers(live + (set a | a in leaving))
    requires DistinctWorkers(live - (set a | a in leaving) + (set a | a in arriving))
    ensures Represents(r, live - (set a | a in leaving) + (set a | a in arriving))
  {
    r := active;
    for i := 0 to |leaving|
      invariant Represents(r, live - (set a | a in leaving[..i]))
    {
      assert leaving[i] in leaving;
      assert leaving[..i + 1] == leaving[..i] + [leaving[i]];
      r := r - {leaving[i].worker};
    }
    assert leaving[..|leaving|] == leaving;
    r := Arrive(r, arriving, live - (set a | a in leaving));
  }

  method Arrive(active: map<Id, Absence>, arriving: seq<Absence>, ghost rest: set<Absence>) returns (r: map<Id, Absence>)
    requires Represents(active, rest)
    requires DistinctWorkers(rest + (set a | a in arriving))
    ensures Represents(r, rest + (set a | a in arriving))
  {
    r := active;
    assert rest + (set a | a in arriving[..0]) == rest;
    for i := 0 to |arriving|
      invariant Represents(r, rest + (set a | a in arriving[..i]))
    {
      assert arriving[i] in arriving;
      assert arriving[..i + 1] == arriving[..i] + [arriving[i]];
      r := r[arriving[i].worker := arriving[i]];
    }
    assert arriving[..|arriving|] == arriving;
  }

  /** The absences alive just before event `i`: those of the previous segment. */
  ghost function LiveBefore(absences: seq<Absence>, ordered: seq<int>, i: nat): set<Absence>
    requires i < |ordered|
  {
    if i == 0 then {} else Live(absences, ordered[i - 1])
  }

  lemma {:induction false} AbsenceStep(absences: seq<Absence>, economics: seq<Economy>, events: set<nat>, ordered: seq<int>, i: nat,
                    c: Coverage, a: Absence)
    requires a in absences && a.start < a.end && Meets(a.start, a.end, c)
    requires HasEvents(events, economics, absences, c) && Lists(ordered, events) && i + 1 < |ordered|
    requires ordered[0] == c.start && ordered[|ordered| - 1] == c.end
    ensures a.start <= ordered[i] < a.end
       <==> (a in LiveBefore(absences, ordered, i) && ClipEnd(a.end, c) != ordered[i]) || ClipStart(a.start, c) == ordered[i]
    ensures ClipEnd(a.end, c) == ordered[i] ==> a in LiveBefore(absences, ordered, i)
  {
    var t := ordered[i];
    assert t in events && ordered[i + 1] in events && t < ordered[i + 1];
    var s, e := ClipStart(a.start, c), ClipEnd(a.end, c);
    assert s in events && e in events;
    if i > 0 {
      assert ordered[i - 1] < ordered[i] && ordered[i - 1] in events;
      NoEventBetween(ordered, events, i - 1, s);
      NoEventBetween(ordered, events, i - 1, e);
    }
  }

  lemma {:induction false} LiveMember(absences: seq<Absence>, economics: seq<Economy>, events: set<nat>, ordered: seq<int>, i: nat,
                 starts: map<nat, seq<Absence>>, ends: map<nat, seq<Absence>>, c: Coverage, a: Absence)
    requires a in absences ==> a.start < a.end
    requires HasEvents(events, economics, absences, c) && Lists(ordered, events) && i + 1 < |ordered|
    requires ordered[0] == c.start && ordered[|ordered| - 1] == c.end
    requires StartsBucketed(starts, absences, c) && EndsBucketed(ends, absences, c)
    ensures a in Live(absences, ordered[i])
         <==> (a in LiveBefore(absences, ordered, i) && a !in Bucket(ends, ordered[i])) || a in Bucket(starts, ordered[i])
    ensures a in Bucket(ends, ordered[i]) ==> a in LiveBefore(absences, ordered, i)
  {
    var t := ordered[i];
    assert t in events && ordered[i + 1] in events && t < ordered[i + 1];
    hide Bucket;
    if a in absences && Meets(a.start, a.end, c) {
      AbsenceStep(absences, economics, events, ordered, i, c, a);
    } else {
      assert i > 0 ==> ordered[i - 1] in events && ordered[i - 1] < t;
    }
  }

  lemma {:induction false} EventInCoverage(economics: seq<Economy>, absences: seq<Absence>, events: set<nat>, ordered: seq<int>, i: nat, c: Coverage)
    requires HasEvents(events, economics, absences, c) && Lists(ordered, events) && i + 1 < |ordered|
    ensures c.start <= ordered[i] < c.end
  {
    assert ordered[i] in events && ordered[i + 1] in events && ordered[i] < ordered[i + 1];
  }

  lemma {:induction false} LiveStep(absences: seq<Absence>, economics: seq<Economy>, events: set<nat>, ordered: seq<int>, i: nat,
                 starts: map<nat, seq<Absence>>, ends: map<nat, seq<Absence>>, c: Coverage)
    requires forall a :: a in absences ==> a.start < a.end
    requires HasEvents(events, economics, absences, c) && Lists(ordered, events) && i + 1 < |ordered|
    requires ordered[0] == c.start && ordered[|ordered| - 1] == c.end
    requires StartsBucketed(starts, absences, c) && EndsBucketed(ends, absences, c)
    ensures c.start <= ordered[i] < c.end
    ensures Live(absences, ordered[i])
         == LiveBefore(absences, ordered, i) - (set a | a in Bucket(ends, ordered[i])) + (set a | a in Bucket(starts, ordered[i]))
    ensures forall a :: a in Bucket(ends, ordered[i]) ==> a in LiveBefore(absences, ordered, i)
  {
    hide *;
    EventInCoverage(economics, absences, events, ordered, i, c);
    forall a
      ensures a in Live(absences, ordered[i])
           <==> (a in LiveBefore(absences, ordered, i) && a !in Bucket(ends, ordered[i])) || a in Bucket(starts, ordered[i])
      ensures a in Bucket(ends, ordered[i]) ==> a in LiveBefore(absences, ordered, i)
    {
      LiveMember(absences, economics, events, ordered, i, starts, ends, c, a);
    }
  }

  /** No absence starts or ends inside a segment. */
  lemma {:induction false} LiveIsConstant(absences: seq<Absence>, economics: seq<Economy>, events: set<nat>, ordered: seq<int>, i: nat, f: int, c: Coverage)
    requires HasEvents(events, economics, absences, c) && Lists(ordered, events) && i + 1 < |ordered|
    requires ordered[i] <= f < ordered[i + 1]
    ensures Live(absences, f) == Live(absences, ordered[i])
  {
    assert ordered[i] in events && ordered[i + 1] in events;
    forall a | a in absences
      ensures a in Live(absences, f) <==> a in Live(absences, ordered[i])
    {
      if Meets(a.start, a.end, c) {
        NoEventBetween(ordered, events, i, ClipStart(a.start, c));
        NoEventBetween(ordered, events, i, ClipEnd(a.end, c));
      }
    }
  }

  lemma {:induction false} StateIsConstant(absences: seq<Absence>, economics: seq<Economy>, events: set<nat>, ordered: seq<int>, i: nat, f: int, c: Coverage,
                        e: Economy)
    requires HasEvents(events, economics, absences, c) && Lists(ordered, events) && i + 1 < |ordered|
    requires ordered[i] <= f < ordered[i + 1]
    requires e in economics && e.start <= ordered[i] < e.end
    ensures e.start <= f < e.end
  {
    assert ordered[i] in events && ordered[i + 1] in events;
    NoEventBetween(ordered, events, i, ClipEnd(e.end, c));
  }

  // ----- Equal shares -----

  ghost predicate AscendingEntries(entries: seq<(Id, real)>) {
    forall i, j :: 0 <= i < j < |entries| ==> entries[i].0 < entries[j].0
  }

  /** The amounts of a dictionary, listed in the order of `keys`. */
  function ListEntries(m: map<Id, real>, keys: seq<Id>): (entries: seq<(Id, real)>)
    ensures |entries| == |keys| && forall i :: 0 <= i < |keys| ==> entries[i].0 == keys[i]
  {
    if keys == [] then []
    else ListEntries(m, keys[..|keys| - 1]) + [(keys[|keys| - 1], Get(m, keys[|keys| - 1]))]
  }

  lemma {:induction false} ListedAmounts(m: map<Id, real>, keys: seq<Id>, k: Id)
    requires Ascending(keys)
    ensures EntryAt(ListEntries(m, keys), k) == if k in keys then Get(m, k) else 0.0
    ensures HasEntry(ListEntries(m, keys), k) <==> k in keys
  {
    if keys != [] {
      var front, last := keys[..|keys| - 1], keys[|keys| - 1];
      var entries, entry := ListEntries(m, front), (last, Get(m, last));
      assert ListEntries(m, keys) == entries + [entry];
      ListedAmounts(m, front, k);
      HasEntrySnoc(entries, entry);
      assert (entries + [entry])[..|entries|] == entries;
      assert EntryAt(entries + [entry], k) == EntryAt(entries, k) + if last == k then entry.1 else 0.0;
      hide ListEntries, EntryAt, HasEntry, Get;
      assert keys == front + [last];
      assert last !in front;
    }
  }

  function Without(m: map<Id, real>, keys: seq<Id>): map<Id, real> {
    map k | k in m && k !in keys :: m[k]
  }

  lemma {:induction false} WithoutNext(m: map<Id, real>, keys: seq<Id>)
    requires Ascending(keys) && keys != [] && keys[|keys| - 1] in m
    ensures var k := keys[|keys| - 1];
            && k in Without(m, keys[..|keys| - 1]) && Without(m, keys[..|keys| - 1])[k] == m[k]
            && Without(m, keys[..|keys| - 1]) - {k} == Without(m, keys)
  {
    var n := |keys| - 1;
    assert keys == keys[..n] + [keys[n]];
    assert keys[n] !in keys[..n];
  }

  lemma {:induction false} ListedSum(m: map<Id, real>, keys: seq<Id>)
    requires Ascending(keys) && forall k :: k in keys ==> k in m
    ensures EntrySum(ListEntries(m, keys)) + MapSum(Without(m, keys)) == MapSum(m)
  {
    if keys == [] {
      assert Without(m, keys) == m;
    } else {
      var n := |keys| - 1;
      hide Without, MapSum;
      ListedSum(m, keys[..n]);
      assert ListEntries(m, keys)[..n] == ListEntries(m, keys[..n]);
      WithoutNext(m, keys);
      MapSumRemove(Without(m, keys[..n]), keys[n]);
    }
  }

  /** Listing every key of a dictionary keeps its amounts, its keys and its sum. */
  lemma {:induction false} ListedDictionary(m: map<Id, real>)
    ensures AscendingEntries(ListEntries(m, SortedKeys(m.Keys)))
    ensures forall k :: EntryAt(ListEntries(m, SortedKeys(m.Keys)), k) == Get(m, k)
    ensures forall k :: HasEntry(ListEntries(m, SortedKeys(m.Keys)), k) <==> k in m
    ensures EntrySum(ListEntries(m, SortedKeys(m.Keys))) == MapSum(m)
  {
    var keys := SortedKeys(m.Keys);
    forall k
      ensures EntryAt(ListEntries(m, keys), k) == Get(m, k)
      ensures HasEntry(ListEntries(m, keys), k) <==> k in m
    {
      ListedAmounts(m, keys, k);
    }
    ListedSum(m, keys);
    assert Without(m, keys) == map[];
  }

  lemma {:induction false} ConstantMapSum<K>(m: map<K, real>, v: real)
    requires forall k :: k in m ==> m[k] == v
    ensures MapSum(m) == Times(|m|, v)
    decreases |m|
  {
    if m.Keys != {} {
      var k := Pick(m.Keys);
      MapSumRemove(m, k);
      assert (m - {k}).Keys == m.Keys - {k};
      ConstantMapSum(m - {k}, v);
      TimesSucc(|m| - 1, v);
    }
  }

  ghost function WithWorkerIn(live: set<Absence>, workers: seq<Id>): set<Absence> {
    set a | a in live && a.worker in workers
  }

  /** `amounts` holds one share for every absentee in `done`, under its category. */
  ghost predicate SharedSoFar(amounts: map<Id, real>, done: set<Absence>, share: real) {
    && (forall c :: Get(amounts, c) == Times(|InCategory(done, c)|, share))
    && (forall c :: c in amounts <==> InCategory(done, c) != {})
    && MapSum(amounts) == Times(|done|, share)
  }

  lemma {:induction false} SharedStep(amounts: map<Id, real>, done: set<Absence>, a: Absence, share: real)
    requires SharedSoFar(amounts, done, share) && a !in done
    ensures SharedSoFar(amounts[a.category := Get(amounts, a.category) + share], done + {a}, share)
  {
    hide Times, MapSum;
    CategoryGains(done, a, share);
    MapSumUpdate(amounts, a.category, share);
    TimesSucc(|done|, share);
  }

  lemma {:induction false} NextAbsentee(active: map<Id, Absence>, live: set<Absence>, keys: seq<Id>, i: nat)
    requires Represents(active, live) && Ascending(keys) && i < |keys| && keys[i] in active
    ensures active[keys[i]] !in WithWorkerIn(live, keys[..i])
    ensures WithWorkerIn(live, keys[..i + 1]) == WithWorkerIn(live, keys[..i]) + {active[keys[i]]}
  {
    assert keys[..i + 1] == keys[..i] + [keys[i]];
    assert keys[i] !in keys[..i];
  }

  lemma {:induction false} AllAbsentees(active: map<Id, Absence>, live: set<Absence>, keys: seq<Id>)
    requires Represents(active, live) && forall w :: w in active ==> w in keys
    ensures WithWorkerIn(live, keys[..|keys|]) == live
    ensures WithWorkerIn(live, keys[..0]) == {}
  {
    assert keys[..|keys|] == keys;
  }

  /** Add `share` to the category of every absentee. */
  method ShareByCategory(share: real, active: map<Id, Absence>, ghost live: set<Absence>) returns (amounts: map<Id, real>)
    requires Represents(active, live)
    ensures SharedSoFar(amounts, live, share)
  {
    var keys := SortedKeys(active.Keys);
    amounts := map[];
    MapSumEmpty<Id>();
    TimesSucc(0, share);
    ghost var done: set<Absence> := {};
    assert SharedSoFar(amounts, done, share);
    AllAbsentees(active, live, keys);
    hide SharedSoFar, Times, MapSum, WithWorkerIn;
    for i := 0 to |keys|
      invariant done == WithWorkerIn(live, keys[..i])
      invariant SharedSoFar(amounts, done, share)
    {
      assert keys[i] in keys;
      var a := active[keys[i]];
      NextAbsentee(active, live, keys, i);
      SharedStep(amounts, done, a, share);
      amounts := amounts[a.category := Get(amounts, a.category) + share];
      done := done + {a};
    }
  }

  /** Split one segment's loss equally among its absentees, and by category.  Both lists
      add up to the loss. */
  method AllocateEqually(total: real, active: map<Id, Absence>, ghost live: set<Absence>)
    returns (workers: seq<(Id, real)>, categories: seq<(Id, real)>)
    requires Represents(active, live)
    ensures AscendingEntries(workers) && AscendingEntries(categories)
    ensures forall w :: EntryAt(workers, w) == if w in active then Share(total, |live|) else 0.0
    ensures forall w :: HasEntry(workers, w) <==> w in active
    ensures forall c :: EntryAt(categories, c) == Times(|InCategory(live, c)|, Share(total, |live|))
    ensures forall c :: HasEntry(categories, c) <==> InCategory(live, c) != {}
    ensures EntrySum(workers) == EntrySum(categories) == if live == {} then 0.0 else total
  {
    RepresentsSize(active, live);
    hide Times, Share;
    if |active| == 0 {
      TimesSucc(0, Share(total, 0));
      return [], [];
    }
    ZeroShares(|active|);
    var share := if total == 0.0 then 0.0 else Share(total, |active|);
    SharesMakeWhole(total, |active|);
    var shares := map w | w in active :: share;
    assert shares.Keys == active.Keys;
    ConstantMapSum(shares, share);
    ListedDictionary(shares);
    workers := ListEntries(shares, SortedKeys(shares.Keys));
    var amounts := ShareByCategory(share, active, live);
    ListedDictionary(amounts);
    categories := ListEntries(amounts, SortedKeys(amounts.Keys));
  }

  lemma {:induction false} CategoryGains(done: set<Absence>, a: Absence, share: real)
    requires a !in done
    ensures forall c :: Times(|InCategory(done + {a}, c)|, share)
                     == Times(|InCategory(done, c)|, share) + if c == a.category then share else 0.0
    ensures forall c :: InCategory(done + {a}, c) != {} <==> InCategory(done, c) != {} || c == a.category
  {
    hide Times;
    forall c
      ensures Times(|InCategory(done + {a}, c)|, share)
           == Times(|InCategory(done, c)|, share) + if c == a.category then share else 0.0
      ensures InCategory(done + {a}, c) != {} <==> InCategory(done, c) != {} || c == a.category
    {
      if c == a.category {
        assert InCategory(done + {a}, c) == InCategory(done, c) + {a};
        TimesSucc(|InCategory(done, c)|, share);
      } else {
        assert InCategory(done + {a}, c) == InCategory(done, c);
      }
    }
  }

  // ----- One base -----

  function PerFrame(rate: real): real { rate * SECONDS_PER_FRAME }

  /** A segment reports one constant state, and its amounts are the sums over its frames. */
  ghost predicate SegmentIsExact(inp: Input, s: Segment)
    requires Curve.ValidModel(inp.model)
  {
    && s.start < s.end
    && (forall f :: s.start <= f < s.end ==>
          && Known(inp, s.base, f)
          && StateAt(inp, s.base, f).active == s.active
          && StateAt(inp, s.base, f).patches == s.patches
          && |AbsentAt(inp, s.base, f)| == s.absent
          && LossAt(inp, s.base, f) == PerFrame(s.lossRate))
    && s.loss == Integral(LossCurve(inp, s.base), s.start, s.end)
    && (forall w :: EntryAt(s.workerLosses, w) == Integral(WorkerCurve(inp, s.base, w), s.start, s.end))
    && (forall c :: EntryAt(s.categoryLosses, c) == Integral(CategoryCurve(inp, s.base, c), s.start, s.end))
    && (forall w, f :: s.start <= f < s.end ==> (HasEntry(s.workerLosses, w) <==> IsAbsent(inp, s.base, w, f)))
    && (forall c, f :: s.start <= f < s.end ==>
          (HasEntry(s.categoryLosses, c) <==> InCategory(AbsentAt(inp, s.base, f), c) != {}))
    && EntrySum(s.workerLosses) == s.loss && EntrySum(s.categoryLosses) == s.loss
    && AscendingEntries(s.workerLosses) && AscendingEntries(s.categoryLosses)
  }

  predicate Adjoin(segments: seq<Segment>, i: nat)
    requires 0 < i < |segments|
  {
    segments[i - 1].end == segments[i].start
  }

  /** The segments of base `b` follow one another from `lo` to `hi`. */
  ghost predicate Tiles(segments: seq<Segment>, b: Id, lo: int, hi: int) {
    && (forall i :: 0 <= i < |segments| ==> segments[i].base == b)
    && (forall i :: 0 < i < |segments| ==> Adjoin(segments, i))
    && if segments == [] then lo == hi else segments[0].start == lo && segments[|segments| - 1].end == hi
  }

  ghost predicate AllExact(inp: Input, segments: seq<Segment>)
    requires Curve.ValidModel(inp.model)
  {
    forall s :: s in segments ==> SegmentIsExact(inp, s)
  }

  ghost predicate AllBetween(inp: Input, c: Coverage, segments: seq<Segment>) {
    forall s :: s in segments ==> BetweenBoundaries(inp, c, s)
  }

  ghost predicate InRangeAt(inp: Input, b: Id, f: int) {
    Known(inp, b, f) ==> StateAt(inp, b, f).active + |AbsentAt(inp, b, f)| <= Curve.MAX_COUNT
  }

  /** The base's state and absentees do not change over the frames of `s`. */
  ghost predicate ConstantState(inp: Input, s: Segment, live: set<Absence>)
    requires Curve.ValidModel(inp.model)
  {
    && s.start < s.end
    && s.absent == |live|
    && s.lossRate == Curve.Rate(inp.model, s.active + s.absent, s.patches) - Curve.Rate(inp.model, s.active, s.patches)
    && s.loss == Times(s.end - s.start, PerFrame(s.lossRate))
    && forall f :: s.start <= f < s.end ==>
         && Known(inp, s.base, f) && AbsentAt(inp, s.base, f) == live
         && StateAt(inp, s.base, f).active == s.active && StateAt(inp, s.base, f).patches == s.patches
  }

  lemma {:induction false} LossInConstantState(inp: Input, s: Segment, live: set<Absence>, f: int)
    requires Curve.ValidModel(inp.model) && ConstantState(inp, s, live) && s.start <= f < s.end
    ensures LossAt(inp, s.base, f) == PerFrame(s.lossRate)
    ensures live == {} ==> PerFrame(s.lossRate) == 0.0
  {
    hide Curve.Rate, Times;
  }

  lemma {:induction false} ConstantLoss(inp: Input, s: Segment, live: set<Absence>)
    requires Curve.ValidModel(inp.model) && ConstantState(inp, s, live)
    ensures forall f :: s.start <= f < s.end ==> LossAt(inp, s.base, f) == PerFrame(s.lossRate)
    ensures s.loss == Integral(LossCurve(inp, s.base), s.start, s.end)
    ensures live == {} ==> s.loss == 0.0
  {
    hide LossAt, Curve.Rate, Times, PerFrame;
    forall f | s.start <= f < s.end
      ensures LossAt(inp, s.base, f) == PerFrame(s.lossRate)
    {
      LossInConstantState(inp, s, live, f);
    }
    LossInConstantState(inp, s, live, s.start);
    ZeroShares(s.end - s.start);
    IntegralOfConstant(LossCurve(inp, s.base), s.start, s.end, PerFrame(s.lossRate));
  }

  lemma {:induction false} ConstantWorkerLoss(inp: Input, s: Segment, live: set<Absence>, active: map<Id, Absence>, w: Id)
    requires Curve.ValidModel(inp.model) && ConstantState(inp, s, live) && Represents(active, live)
    ensures Integral(WorkerCurve(inp, s.base, w), s.start, s.end)
         == if w in active then Share(s.loss, |live|) else 0.0
    ensures forall f :: s.start <= f < s.end ==> (w in active <==> IsAbsent(inp, s.base, w, f))
  {
    hide LossAt, Curve.Rate, Times, Share, PerFrame;
    ConstantLoss(inp, s, live);
    var v := PerFrame(s.lossRate);
    var share := if w in active then Share(v, |live|) else 0.0;
    assert w in active ==> active[w] in live;
    forall f | s.start <= f < s.end
      ensures WorkerLossAt(inp, s.base, w, f) == share
      ensures w in active <==> IsAbsent(inp, s.base, w, f)
    {
      assert AbsentAt(inp, s.base, f) == live;
      if w in active {
        assert active[w] in AbsentAt(inp, s.base, f);
      }
    }
    hide WorkerLossAt;
    IntegralOfConstant(WorkerCurve(inp, s.base, w), s.start, s.end, share);
    TimesShare(s.end - s.start, v, |live|);
    ZeroShares(s.end - s.start);
  }

  lemma {:induction false} ConstantCategoryLoss(inp: Input, s: Segment, live: set<Absence>, c: Id)
    requires Curve.ValidModel(inp.model) && ConstantState(inp, s, live)
    ensures Integral(CategoryCurve(inp, s.base, c), s.start, s.end)
         == Times(|InCategory(live, c)|, Share(s.loss, |live|))
  {
    hide LossAt, Curve.Rate, Times, Share, PerFrame;
    ConstantLoss(inp, s, live);
    var m, n, v := |InCategory(live, c)|, s.end - s.start, PerFrame(s.lossRate);
    var share := Times(m, Share(v, |live|));
    forall f | s.start <= f < s.end
      ensures CategoryLossAt(inp, s.base, c, f) == share
    {
      assert AbsentAt(inp, s.base, f) == live;
    }
    hide CategoryLossAt;
    IntegralOfConstant(CategoryCurve(inp, s.base, c), s.start, s.end, share);
    TimesShare(n, v, |live|);
    TimesSwap(n, m, Share(v, |live|));
  }

  /** What `AllocateEqually` promises about a segment's two lists. */
  ghost predicate SharedOut(s: Segment, live: set<Absence>, active: map<Id, Absence>) {
    && (forall w :: EntryAt(s.workerLosses, w) == if w in active then Share(s.loss, |live|) else 0.0)
    && (forall w :: HasEntry(s.workerLosses, w) <==> w in active)
    && (forall c :: EntryAt(s.categoryLosses, c) == Times(|InCategory(live, c)|, Share(s.loss, |live|)))
    && (forall c :: HasEntry(s.categoryLosses, c) <==> InCategory(live, c) != {})
    && AscendingEntries(s.workerLosses) && AscendingEntries(s.categoryLosses)
    && EntrySum(s.workerLosses) == EntrySum(s.categoryLosses) == if live == {} then 0.0 else s.loss
  }

  lemma {:induction false} WorkersFromConstants(inp: Input, s: Segment, live: set<Absence>, active: map<Id, Absence>)
    requires Curve.ValidModel(inp.model) && Represents(active, live)
    requires ConstantState(inp, s, live) && SharedOut(s, live, active)
    ensures forall w :: EntryAt(s.workerLosses, w) == Integral(WorkerCurve(inp, s.base, w), s.start, s.end)
    ensures forall w, f :: s.start <= f < s.end ==> (HasEntry(s.workerLosses, w) <==> IsAbsent(inp, s.base, w, f))
  {
    assert forall w :: EntryAt(s.workerLosses, w) == if w in active then Share(s.loss, |live|) else 0.0;
    assert forall w :: HasEntry(s.workerLosses, w) <==> w in active;
    hide *;
    forall w
      ensures EntryAt(s.workerLosses, w) == Integral(WorkerCurve(inp, s.base, w), s.start, s.end)
      ensures forall f :: s.start <= f < s.end ==> (HasEntry(s.workerLosses, w) <==> IsAbsent(inp, s.base, w, f))
    {
      ConstantWorkerLoss(inp, s, live, active, w);
    }
  }

  lemma {:induction false} CategoriesFromConstants(inp: Input, s: Segment, live: set<Absence>, active: map<Id, Absence>)
    requires Curve.ValidModel(inp.model) && ConstantState(inp, s, live) && SharedOut(s, live, active)
    ensures forall c :: EntryAt(s.categoryLosses, c) == Integral(CategoryCurve(inp, s.base, c), s.start, s.end)
    ensures forall c, f :: s.start <= f < s.end ==>
              (HasEntry(s.categoryLosses, c) <==> InCategory(AbsentAt(inp, s.base, f), c) != {})
  {
    assert forall c :: EntryAt(s.categoryLosses, c) == Times(|InCategory(live, c)|, Share(s.loss, |live|));
    assert forall c :: HasEntry(s.categoryLosses, c) <==> InCategory(live, c) != {};
    assert forall f :: s.start <= f < s.end ==> AbsentAt(inp, s.base, f) == live;
    hide *;
    forall c
      ensures EntryAt(s.categoryLosses, c) == Integral(CategoryCurve(inp, s.base, c), s.start, s.end)
    {
      ConstantCategoryLoss(inp, s, live, c);
    }
  }

  lemma {:induction false} SegmentFromConstants(inp: Input, s: Segment, live: set<Absence>, active: map<Id, Absence>)
    requires Curve.ValidModel(inp.model) && Represents(active, live)
    requires ConstantState(inp, s, live) && SharedOut(s, live, active)
    ensures SegmentIsExact(inp, s)
  {
    hide Times, Share, PerFrame, LossAt, Curve.Rate, Curve.ValidModel, EntryAt, HasEntry, Integral, WorkerCurve, CategoryCurve, LossCurve,
      IsAbsent, InCategory, AbsentAt, Known, StateAt, EntrySum, Represents, AscendingEntries;
    ConstantLoss(inp, s, live);
    WorkersFromConstants(inp, s, live, active);
    CategoriesFromConstants(inp, s, live, active);
  }

  datatype Error = OverlappingEconomy | OverlappingWorker | MissingState | CountOutOfRange

  datatype Swept = Swept(segments: seq<Segment>) | SweepFailed(error: Error)

  ghost predicate Complete(inp: Input, b: Id, c: Coverage) {
    forall f :: c.start <= f < c.end ==> Known(inp, b, f)
  }

  predicate StartsEarlier(x: Economy, y: Economy) { x.start <= y.start }

  /** The base's states in start order, as the sweep and the coverage check use them. */
  function SortedEconomies(inp: Input, b: Id): seq<Economy> {
    Sort(StartsEarlier, EconomiesOf(inp.economics, b))
  }

  lemma {:induction false} SortedEconomiesFacts(inp: Input, b: Id)
    ensures forall e :: e in SortedEconomies(inp, b) <==> e in inp.economics && e.base == b
    ensures forall i, j :: 0 <= i < j < |SortedEconomies(inp, b)| ==>
              SortedEconomies(inp, b)[i].start <= SortedEconomies(inp, b)[j].start
  {
    EconomiesOfMembers(inp.economics, b);
    var s := EconomiesOf(inp.economics, b);
    SortSorts(StartsEarlier, s);
    forall e
      ensures e in SortedEconomies(inp, b) <==> e in inp.economics && e.base == b
    {
      SameMember(Sort(StartsEarlier, s), s, e);
    }
  }

  /** Skip the states that ended; in a complete base the next one is the current state, so
      the sweep's missing-state error cannot arise. */
  method CurrentState(inp: Input, b: Id, economics: seq<Economy>, from: nat, t: nat) returns (index: nat)
    requires Consistent(inp) && economics == SortedEconomies(inp, b)
    requires from <= |economics| && forall j :: 0 <= j < from ==> economics[j].end <= t
    requires Known(inp, b, t)
    ensures from <= index < |economics| && economics[index] == StateAt(inp, b, t)
    ensures forall j :: 0 <= j < index ==> economics[j].end <= t
  {
    ghost var m := StateIndex(inp, b, economics, t);
    hide *;
    index := from;
    while index < |economics| && economics[index].end <= t
      invariant from <= index <= m
      invariant forall j :: 0 <= j < index ==> economics[j].end <= t
    {
      index := index + 1;
    }
    FirstNotEnded(inp, b, economics, t, index, m);
  }

  lemma {:induction false} StateIndex(inp: Input, b: Id, economics: seq<Economy>, t: nat) returns (m: nat)
    requires economics == SortedEconomies(inp, b) && Known(inp, b, t)
    ensures m < |economics| && economics[m] == StateAt(inp, b, t) && economics[m].end > t
  {
    SortedEconomiesFacts(inp, b);
    var e := StateAt(inp, b, t);
    m :| 0 <= m < |economics| && economics[m] == e;
  }

  lemma {:induction false} FirstNotEnded(inp: Input, b: Id, economics: seq<Economy>, t: nat, index: nat, m: nat)
    requires Consistent(inp) && economics == SortedEconomies(inp, b) && Known(inp, b, t)
    requires index <= m < |economics| && economics[m] == StateAt(inp, b, t) && economics[index].end > t
    ensures economics[index] == StateAt(inp, b, t)
  {
    SortedEconomiesFacts(inp, b);
    hide SortedEconomies, Consistent;
    assert index == m || economics[index].start <= economics[m].start;
    assert economics[index] in economics;
    StateIsUnique(inp, economics[index], b, t);
  }

  lemma {:induction false} AbsentIsLive(inp: Input, b: Id, f: int)
    ensures AbsentAt(inp, b, f) == Live(AbsencesOf(inp.absences, b), f)
  {
    AbsencesOfMembers(inp.absences, b);
  }

  lemma {:induction false} LiveWorkersDistinct(inp: Input, b: Id, f: int)
    requires Consistent(inp)
    ensures DistinctWorkers(Live(AbsencesOf(inp.absences, b), f))
  {
    AbsencesOfMembers(inp.absences, b);
    var live := Live(AbsencesOf(inp.absences, b), f);
    forall x, y | x in live && y in live && x.worker == y.worker
      ensures x == y
    {
      AbsencesHaveDistinctWorkers(inp, x, y, f);
    }
  }

  /** The frames of one segment share the state and the absentees of its first frame. */
  lemma {:induction false} SegmentStateIsConstant(inp: Input, b: Id, c: Coverage, events: set<nat>, ordered: seq<int>, i: nat)
    requires Consistent(inp)
    requires HasEvents(events, EconomiesOf(inp.economics, b), AbsencesOf(inp.absences, b), c)
    requires Lists(ordered, events) && i + 1 < |ordered|
    requires Known(inp, b, ordered[i])
    ensures forall f :: ordered[i] <= f < ordered[i + 1] ==>
              && Known(inp, b, f) && StateAt(inp, b, f) == StateAt(inp, b, ordered[i])
              && AbsentAt(inp, b, f) == AbsentAt(inp, b, ordered[i])
  {
    var t, e := ordered[i], StateAt(inp, b, ordered[i]);
    var economics, absences := EconomiesOf(inp.economics, b), AbsencesOf(inp.absences, b);
    EconomiesOfMembers(inp.economics, b);
    forall f | t <= f < ordered[i + 1]
      ensures Known(inp, b, f) && StateAt(inp, b, f) == e && AbsentAt(inp, b, f) == AbsentAt(inp, b, t)
    {
      StateIsConstant(absences, economics, events, ordered, i, f, c, e);
      StateIsUnique(inp, e, b, f);
      LiveIsConstant(absences, economics, events, ordered, i, f, c);
      AbsentIsLive(inp, b, f);
      AbsentIsLive(inp, b, t);
    }
  }

  /** A row of base `b` starts or ends at frame `t`. */
  ghost predicate Boundary(inp: Input, b: Id, t: int) {
    || (exists e :: e in inp.economics && e.base == b && (e.start == t || e.end == t))
    || (exists a :: a in inp.absences && a.base == b && (a.start == t || a.end == t))
  }

  /** A segment runs from one boundary to the next, within the coverage. */
  ghost predicate BetweenBoundaries(inp: Input, c: Coverage, s: Segment) {
    && c.start <= s.start < s.end <= c.end
    && (s.start == c.start || Boundary(inp, s.base, s.start))
    && (s.end == c.end || Boundary(inp, s.base, s.end))
    && forall t :: s.start < t < s.end ==> !Boundary(inp, s.base, t)
  }

  lemma {:induction false} EventIsBoundary(inp: Input, b: Id, c: Coverage, t: nat)
    requires WellFormed(inp) && c.start < t < c.end
    ensures IsEvent(t, EconomiesOf(inp.economics, b), AbsencesOf(inp.absences, b), c) <==> Boundary(inp, b, t)
  {
    EconomiesOfMembers(inp.economics, b);
    AbsencesOfMembers(inp.absences, b);
    hide EconomiesOf, AbsencesOf;
  }

  lemma {:induction false} NothingBetween(ordered: seq<int>, i: nat, t: int)
    requires Ascending(ordered) && i + 1 < |ordered| && ordered[i] < t < ordered[i + 1]
    ensures t !in ordered
  {
    forall k | 0 <= k < |ordered|
      ensures ordered[k] != t
    {
      if i + 1 < k {
        assert ordered[i + 1] < ordered[k];
      }
    }
  }

  lemma {:induction false} StepIsBetweenBoundaries(inp: Input, b: Id, c: Coverage, events: set<nat>, ordered: seq<int>, i: nat,
                                                   starts: map<nat, seq<Absence>>, ends: map<nat, seq<Absence>>, s: Segment)
    requires WellFormed(inp) && Prepared(inp, b, c, events, ordered, starts, ends) && i + 1 < |ordered|
    requires s.base == b && s.start == ordered[i] && s.end == ordered[i + 1] && c.start <= s.start < s.end <= c.end
    ensures BetweenBoundaries(inp, c, s)
  {
    hide HasEvents, IsEvent, Boundary, StartsBucketed, EndsBucketed, EconomiesOf, AbsencesOf;
    assert ordered[i] in ordered && ordered[i + 1] in ordered;
    if c.start < s.start {
      EventIsBoundary(inp, b, c, s.start);
    }
    if s.end < c.end {
      EventIsBoundary(inp, b, c, s.end);
    }
    forall t | s.start < t < s.end
      ensures !Boundary(inp, b, t)
    {
      EventIsBoundary(inp, b, c, t);
      NothingBetween(ordered, i, t);
    }
  }

  /** Everything the sweep of base `b` prepares before its loop. */
  ghost predicate Prepared(inp: Input, b: Id, c: Coverage, events: set<nat>, ordered: seq<int>,
                           starts: map<nat, seq<Absence>>, ends: map<nat, seq<Absence>>) {
    && HasEvents(events, EconomiesOf(inp.economics, b), AbsencesOf(inp.absences, b), c)
    && (forall t :: t in events <==> IsEvent(t, EconomiesOf(inp.economics, b), AbsencesOf(inp.absences, b), c))
    && Lists(ordered, events) && |ordered| >= 2
    && ordered[0] == c.start && ordered[|ordered| - 1] == c.end
    && StartsBucketed(starts, AbsencesOf(inp.absences, b), c)
    && EndsBucketed(ends, AbsencesOf(inp.absences, b), c)
  }

  method Prepare(inp: Input, b: Id, c: Coverage)
    returns (ghost events: set<nat>, ordered: seq<int>, starts: map<nat, seq<Absence>>, ends: map<nat, seq<Absence>>)
    requires WellFormed(inp) && c.start < c.end
    ensures Prepared(inp, b, c, events, ordered, starts, ends)
  {
    hide IsEvent;
    EconomiesOfMembers(inp.economics, b);
    AbsencesOfMembers(inp.absences, b);
    var absences := AbsencesOf(inp.absences, b);
    var frames := CollectEvents(EconomiesOf(inp.economics, b), absences, c);
    events := frames;
    ordered := SortedKeys(frames);
    starts, ends := FillBuckets(absences, c);
    assert c.start in ordered && c.end in ordered;
    assert forall i :: 0 <= i < |ordered| ==> ordered[i] in ordered;
  }

  /** At event `i`: `active` becomes the dictionary of the base's absentees in that frame. */
  method AdvanceTo(inp: Input, b: Id, c: Coverage, ghost events: set<nat>, ordered: seq<int>, i: nat,
                   starts: map<nat, seq<Absence>>, ends: map<nat, seq<Absence>>, active: map<Id, Absence>)
    returns (r: map<Id, Absence>)
    requires WellFormed(inp) && Consistent(inp) && Prepared(inp, b, c, events, ordered, starts, ends)
    requires i + 1 < |ordered|
    requires Represents(active, LiveBefore(AbsencesOf(inp.absences, b), ordered, i))
    ensures c.start <= ordered[i] < ordered[i + 1] <= c.end
    ensures Represents(r, AbsentAt(inp, b, ordered[i]))
    ensures Represents(r, LiveBefore(AbsencesOf(inp.absences, b), ordered, i + 1))
  {
    ghost var absences := AbsencesOf(inp.absences, b);
    AbsencesOfMembers(inp.absences, b);
    LiveStep(absences, EconomiesOf(inp.economics, b), events, ordered, i, starts, ends, c);
    assert ordered[i + 1] in ordered;
    var t := ordered[i];
    ghost var before := LiveBefore(absences, ordered, i);
    LiveWorkersDistinct(inp, b, t);
    if i > 0 {
      LiveWorkersDistinct(inp, b, ordered[i - 1]);
    }
    AbsentIsLive(inp, b, t);
    assert before + (set a | a in Bucket(ends, t)) == before;
    r := Advance(active, Bucket(ends, t), Bucket(starts, t), before);
  }

  /** One segment's record, from the state and the absentees at its first frame. */
  method MakeSegment(inp: Input, b: Id, start: nat, end: nat, econ: Economy, active: map<Id, Absence>) returns (s: Segment)
    requires Curve.ValidModel(inp.model) && start < end
    requires Known(inp, b, start) && econ == StateAt(inp, b, start)
    requires Represents(active, AbsentAt(inp, b, start))
    requires forall f :: start <= f < end ==>
               && Known(inp, b, f) && StateAt(inp, b, f) == StateAt(inp, b, start)
               && AbsentAt(inp, b, f) == AbsentAt(inp, b, start)
    ensures SegmentIsExact(inp, s) && s.base == b && s.start == start && s.end == end
  {
    ghost var live := AbsentAt(inp, b, start);
    RepresentsSize(active, live);
    var k := |active|;
    var lossRate := 0.0;
    if k > 0 {
      lossRate := Curve.Rate(inp.model, econ.active + k, econ.patches) - Curve.Rate(inp.model, econ.active, econ.patches);
      Curve.RateMonotone(inp.model, econ.active, econ.active + k, econ.patches, econ.patches);
      // The source raises an error on a negative loss rate; it is never negative.
      assert lossRate >= 0.0;
    }
    hide Curve.Rate, Times, Share, PerFrame;
    var loss := Times(end - start, PerFrame(lossRate));
    var workers, categories := AllocateEqually(loss, active, live);
    s := Segment(start, end, b, econ.active, k, econ.patches, lossRate, loss, workers, categories);
    SegmentFromConstants(inp, s, live, active);
  }

  lemma {:induction false} AppendSegment(inp: Input, c: Coverage, segments: seq<Segment>, s: Segment, b: Id, lo: int)
    requires Curve.ValidModel(inp.model) && AllExact(inp, segments) && SegmentIsExact(inp, s)
    requires AllBetween(inp, c, segments) && BetweenBoundaries(inp, c, s)
    requires s.base == b && Tiles(segments, b, lo, s.start)
    ensures Tiles(segments + [s], b, lo, s.end) && AllExact(inp, segments + [s]) && AllBetween(inp, c, segments + [s])
  {
    hide SegmentIsExact, BetweenBoundaries;
    var all := segments + [s];
    forall i | 0 < i < |all|
      ensures Adjoin(all, i)
    {
      assert i < |segments| ==> Adjoin(segments, i);
    }
  }

  ghost predicate InRangeUpTo(inp: Input, b: Id, lo: int, hi: int) {
    forall f :: lo <= f < hi ==> InRangeAt(inp, b, f)
  }

  lemma {:induction false} InRangeExtends(inp: Input, b: Id, lo: int, start: int, end: int)
    requires lo <= start < end && InRangeUpTo(inp, b, lo, start) && Known(inp, b, start)
    requires forall f :: start <= f < end ==>
               && Known(inp, b, f) && StateAt(inp, b, f) == StateAt(inp, b, start)
               && AbsentAt(inp, b, f) == AbsentAt(inp, b, start)
    ensures InRangeAt(inp, b, start) <==> InRangeUpTo(inp, b, lo, end)
  {
    hide Known, StateAt, AbsentAt;
    if InRangeAt(inp, b, start) {
      forall f | start <= f < end
        ensures InRangeAt(inp, b, f)
      {
      }
    }
  }

  /** The index into the states has passed only states that ended by frame `t`. */
  ghost predicate Passed(economics: seq<Economy>, econIndex: nat, t: int) {
    econIndex <= |economics| && forall j :: 0 <= j < econIndex ==> economics[j].end <= t
  }

  datatype Step = Next(segment: Segment) | OutOfRange

  /** One iteration of the sweep: the segment between events `i` and `i + 1`. */
  method SweepStep(inp: Input, b: Id, c: Coverage, ghost events: set<nat>, ordered: seq<int>, i: nat,
                   starts: map<nat, seq<Absence>>, ends: map<nat, seq<Absence>>,
                   economics: seq<Economy>, econIndex: nat, active: map<Id, Absence>)
    returns (r: Step, econIndex': nat, active': map<Id, Absence>)
    requires WellFormed(inp) && Consistent(inp) && Complete(inp, b, c)
    requires Prepared(inp, b, c, events, ordered, starts, ends) && i + 1 < |ordered|
    requires economics == SortedEconomies(inp, b) && Passed(economics, econIndex, ordered[i])
    requires Represents(active, LiveBefore(AbsencesOf(inp.absences, b), ordered, i))
    requires InRangeUpTo(inp, b, c.start, ordered[i])
    ensures c.start <= ordered[i] < ordered[i + 1] <= c.end
    ensures r.OutOfRange? ==> !InRangeUpTo(inp, b, c.start, c.end)
    ensures r.Next? ==>
              && SegmentIsExact(inp, r.segment) && r.segment.base == b && BetweenBoundaries(inp, c, r.segment)
              && r.segment.start == ordered[i] && r.segment.end == ordered[i + 1]
              && Passed(economics, econIndex', ordered[i + 1])
              && Represents(active', LiveBefore(AbsencesOf(inp.absences, b), ordered, i + 1))
              && InRangeUpTo(inp, b, c.start, ordered[i + 1])
  {
    hide SegmentIsExact, BetweenBoundaries, Represents, LiveBefore, AbsentAt, StateAt, HasEvents, IsEvent, Lists, InRangeUpTo, Curve.ValidModel;
    active' := AdvanceTo(inp, b, c, events, ordered, i, starts, ends, active);
    var start, end := ordered[i], ordered[i + 1];
    assert Known(inp, b, start);
    econIndex' := CurrentState(inp, b, economics, econIndex, start);
    var econ := economics[econIndex'];
    RepresentsSize(active', AbsentAt(inp, b, start));
    SegmentStateIsConstant(inp, b, c, events, ordered, i);
    InRangeExtends(inp, b, c.start, start, end);
    if econ.active + |active'| > Curve.MAX_COUNT {
      OutOfRangeSomewhere(inp, b, c, start);
      r := OutOfRange;
    } else {
      var segment := MakeSegment(inp, b, start, end, econ, active');
      StepIsBetweenBoundaries(inp, b, c, events, ordered, i, starts, ends, segment);
      r := Next(segment);
    }
  }

  lemma {:induction false} SweepStart(inp: Input, b: Id, c: Coverage, events: set<nat>, ordered: seq<int>,
                   starts: map<nat, seq<Absence>>, ends: map<nat, seq<Absence>>)
    requires WellFormed(inp) && Prepared(inp, b, c, events, ordered, starts, ends)
    ensures Curve.ValidModel(inp.model)
    ensures |ordered| >= 2 && ordered[0] == c.start && ordered[|ordered| - 1] == c.end
    ensures Represents(map[], LiveBefore(AbsencesOf(inp.absences, b), ordered, 0))
    ensures Passed(SortedEconomies(inp, b), 0, c.start) && InRangeUpTo(inp, b, c.start, c.start)
    ensures Tiles([], b, c.start, c.start) && AllExact(inp, []) && AllBetween(inp, c, [])
  {
    hide Curve.ValidModel, HasEvents, IsEvent, Lists, StartsBucketed, EndsBucketed, SortedEconomies, AbsencesOf;
  }

  lemma {:induction false} OutOfRangeSomewhere(inp: Input, b: Id, c: Coverage, f: int)
    requires c.start <= f < c.end && !InRangeAt(inp, b, f)
    ensures !InRangeUpTo(inp, b, c.start, c.end)
  {
  }

  /** The sweep over one base: exact segments that tile the coverage, unless the
      counterfactual worker count leaves the supported range in some frame. */
  method SweepBase(inp: Input, b: Id, c: Coverage) returns (r: Swept)
    requires WellFormed(inp) && Consistent(inp) && c.start < c.end && Complete(inp, b, c)
    ensures r.Swept? ==> Tiles(r.segments, b, c.start, c.end) && AllExact(inp, r.segments) && AllBetween(inp, c, r.segments)
    ensures r.Swept? <==> InRangeUpTo(inp, b, c.start, c.end)
    ensures r.SweepFailed? ==> r.error == CountOutOfRange
  {
    hide *;
    ghost var events;
    var ordered, starts, ends;
    events, ordered, starts, ends := Prepare(inp, b, c);
    var economics := SortedEconomies(inp, b);
    var segments: seq<Segment> := [];
    var active: map<Id, Absence> := map[];
    var econIndex := 0;
    SweepStart(inp, b, c, events, ordered, starts, ends);
    for i := 0 to |ordered| - 1
      invariant Represents(active, LiveBefore(AbsencesOf(inp.absences, b), ordered, i))
      invariant Passed(economics, econIndex, ordered[i])
      invariant Tiles(segments, b, c.start, ordered[i]) && AllExact(inp, segments) && AllBetween(inp, c, segments)
      invariant InRangeUpTo(inp, b, c.start, ordered[i])
    {
      var step;
      step, econIndex, active := SweepStep(inp, b, c, events, ordered, i, starts, ends, economics, econIndex, active);
      if step.OutOfRange? {
        return SweepFailed(CountOutOfRange);
      }
      AppendSegment(inp, c, segments, step.segment, b, c.start);
      segments := segments + [step.segment];
    }
    r := Swept(segments);
  }
}
