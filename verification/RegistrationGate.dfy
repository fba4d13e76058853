/** The registration gate of packages/corpus-store/src/watcher.ts: a semaphore that closes for
    good when its signal aborts.  A freed slot is taken by the admission loop itself, so a
    waiter owns its slot the moment its promise resolves. */
module RegistrationGate {

  /** Requests are numbered in the order in which they are made. */
  type Request = nat

  /** TurnedAway: resolved without a release function. */
  datatype Phase = Waiting | Holding | Released | TurnedAway

  datatype Gate = Gate(limit: nat, active: int, closed: bool, waiting: seq<Request>, phases: seq<Phase>)

  datatype Event = Acquire | Release(request: Request) | Abort

  predicate CanAdmit(g: Gate) { !g.closed && g.active < g.limit && g.waiting != [] && g.waiting[0] < |g.phases| }

  function AdmitOne(g: Gate): Gate
    requires CanAdmit(g)
  {
    g.(active := g.active + 1, waiting := g.waiting[1..], phases := g.phases[g.waiting[0] := Holding])
  }

  /** The `admit` loop. */
  function Admit(g: Gate): Gate
    decreases |g.waiting|
  {
    if CanAdmit(g) then Admit(AdmitOne(g)) else g
  }

  function TurnAway(waiting: seq<Request>, phases: seq<Phase>): seq<Phase> {
    if waiting == [] || waiting[0] >= |phases| then phases
    else TurnAway(waiting[1..], phases[waiting[0] := TurnedAway])
  }

  predicate Is(g: Gate, r: Request, p: Phase) { r < |g.phases| && g.phases[r] == p }

  function Enter(g: Gate, p: Phase): Gate { g.(phases := g.phases + [p]) }

  function Step(g: Gate, e: Event): Gate {
    match e
    case Acquire =>
      if g.closed then Enter(g, TurnedAway)
      else if g.active < g.limit then Enter(g, Holding).(active := g.active + 1)
      else Enter(g, Waiting).(waiting := g.waiting + [|g.phases|])
    case Release(r) =>
      if Is(g, r, Holding) then Admit(g.(active := g.active - 1, phases := g.phases[r := Released])) else g
    case Abort => g.(closed := true, waiting := [], phases := TurnAway(g.waiting, g.phases))
  }

  ghost function Execute(g: Gate, events: seq<Event>): Gate {
    if events == [] then g else Step(Execute(g, events[..|events| - 1]), events[|events| - 1])
  }

  function Opened(limit: nat, aborted: bool): Gate { Gate(limit, 0, aborted, [], []) }

  // ----- The invariant -----

  function Holders(phases: seq<Phase>): nat {
    if phases == [] then 0
    else Holders(phases[..|phases| - 1]) + if phases[|phases| - 1] == Holding then 1 else 0
  }

  ghost predicate Increasing(s: seq<Request>) { forall i, j :: 0 <= i < j < |s| ==> s[i] < s[j] }

  ghost predicate QueueAgrees(g: Gate) {
    Increasing(g.waiting) && forall r :: r in g.waiting <==> Is(g, r, Waiting)
  }

  /** Whoever asked after a waiting request is waiting too. */
  ghost predicate NoOvertaking(g: Gate) {
    forall i: Request, j: Request :: Is(g, i, Waiting) && i < j < |g.phases| ==> g.phases[j] == Waiting
  }

  /** All of the invariant but the counts. */
  ghost predicate Ordered(g: Gate) {
    QueueAgrees(g) && NoOvertaking(g) && g.active == Holders(g.phases) && (g.closed ==> g.waiting == [])
  }

  ghost predicate Inv(g: Gate) {
    Ordered(g) && g.active <= g.limit && (g.waiting != [] ==> g.active == g.limit)
  }

  lemma {:induction false} HoldersUpdate(phases: seq<Phase>, r: Request, p: Phase)
    requires r < |phases|
    ensures Holders(phases[r := p])
         == Holders(phases) - (if phases[r] == Holding then 1 else 0) + (if p == Holding then 1 else 0)
  {
    var n := |phases| - 1;
    if r == n {
      assert phases[r := p][..n] == phases[..n];
    } else {
      HoldersUpdate(phases[..n], r, p);
      assert phases[r := p][..n] == phases[..n][r := p];
    }
  }

  /** Admitting the first waiter. */
  lemma {:induction false} AdmitOneKeepsOrder(g: Gate)
    requires Ordered(g) && CanAdmit(g)
    ensures Ordered(AdmitOne(g))
  {
    var head, g' := g.waiting[0], AdmitOne(g);
    assert g.waiting == [head] + g.waiting[1..];
    assert head in g.waiting && Is(g, head, Waiting);
    HoldersUpdate(g.phases, head, Holding);
    hide Holders;
    forall r
      ensures r in g'.waiting <==> Is(g', r, Waiting)
    {
      assert r in g.waiting <==> r == head || r in g.waiting[1..];
    }
    forall i: Request, j: Request | Is(g', i, Waiting) && i < j < |g'.phases|
      ensures g'.phases[j] == Waiting
    {
      assert i in g.waiting[1..];
      var k :| 1 <= k < |g.waiting| && g.waiting[k] == i;
      assert head < i && Is(g, i, Waiting);
    }
  }

  /** With one slot free the loop admits one waiter, if any waits and the gate is open. */
  lemma {:induction false} AdmitIsHandOver(g: Gate)
    requires Ordered(g) && g.active < g.limit && (g.waiting != [] ==> g.active == g.limit - 1)
    ensures CanAdmit(g) == (g.waiting != [])
    ensures Admit(g) == if g.waiting != [] then AdmitOne(g) else g
    ensures Inv(Admit(g))
  {
    hide Holders, NoOvertaking, Increasing;
    if g.waiting != [] {
      assert g.waiting[0] in g.waiting;
      AdmitOneKeepsOrder(g);
      hide QueueAgrees;
      assert !CanAdmit(AdmitOne(g));
      assert Admit(g) == Admit(AdmitOne(g)) == AdmitOne(g);
    }
  }

  /** A newcomer that does not wait enters only when nobody waits, or is turned away. */
  lemma {:induction false} EnterAside(g: Gate, g': Gate, p: Phase)
    requires QueueAgrees(g) && NoOvertaking(g) && p != Waiting && g.waiting == []
    requires g'.phases == g.phases + [p] && g'.waiting == []
    ensures QueueAgrees(g') && NoOvertaking(g')
  {
    hide Increasing;
    assert forall r :: Is(g', r, Waiting) <==> Is(g, r, Waiting);
  }

  /** A newcomer that waits goes to the end of the queue. */
  lemma {:induction false} EnterQueue(g: Gate, g': Gate)
    requires QueueAgrees(g) && NoOvertaking(g)
    requires g'.phases == g.phases + [Waiting] && g'.waiting == g.waiting + [|g.phases|]
    ensures QueueAgrees(g') && NoOvertaking(g')
  {
    forall r
      ensures r in g'.waiting <==> Is(g', r, Waiting)
    {
      assert r in g.waiting <==> Is(g, r, Waiting);
    }
    forall i | 0 <= i < |g.waiting|
      ensures g.waiting[i] < |g.phases|
    {
      assert g.waiting[i] in g.waiting;
    }
    forall i: Request, j: Request | Is(g', i, Waiting) && i < j < |g'.phases|
      ensures g'.phases[j] == Waiting
    {
      assert j < |g.phases| ==> Is(g, i, Waiting);
    }
  }

  lemma {:induction false} HoldersSnoc(phases: seq<Phase>, p: Phase)
    ensures Holders(phases + [p]) == Holders(phases) + if p == Holding then 1 else 0
  {
    assert (phases + [p])[..|phases|] == phases;
  }

  lemma {:induction false} EnterKeepsInv(g: Gate, g': Gate, p: Phase)
    requires Inv(g) && g'.phases == g.phases + [p] && g'.limit == g.limit && g'.closed == g.closed
    requires p == if g.closed then TurnedAway else if g.active < g.limit then Holding else Waiting
    requires g'.active == g.active + if p == Holding then 1 else 0
    requires g'.waiting == g.waiting + if p == Waiting then [|g.phases|] else []
    ensures Inv(g')
  {
    HoldersSnoc(g.phases, p);
    hide Holders, QueueAgrees, NoOvertaking;
    if p == Waiting {
      EnterQueue(g, g');
    } else {
      assert g'.waiting == g.waiting == [];
      EnterAside(g, g', p);
    }
  }

  lemma {:induction false} AcquireKeepsInv(g: Gate)
    requires Inv(g)
    ensures Inv(Step(g, Acquire))
  {
    hide Inv;
    var p := if g.closed then TurnedAway else if g.active < g.limit then Holding else Waiting;
    assert g.waiting + [] == g.waiting;
    EnterKeepsInv(g, Step(g, Acquire), p);
  }

  lemma {:induction false} FreeSlot(g: Gate, r: Request)
    requires Inv(g) && Is(g, r, Holding)
    ensures Ordered(g.(active := g.active - 1, phases := g.phases[r := Released]))
  {
    var g' := g.(active := g.active - 1, phases := g.phases[r := Released]);
    HoldersUpdate(g.phases, r, Released);
    hide Holders;
    assert forall x :: Is(g', x, Waiting) <==> Is(g, x, Waiting);
    forall i: Request, j: Request | Is(g', i, Waiting) && i < j < |g'.phases|
      ensures g'.phases[j] == Waiting
    {
      assert Is(g, i, Waiting);
    }
  }

  lemma {:induction false} ReleaseKeepsInv(g: Gate, r: Request)
    requires Inv(g)
    ensures Inv(Step(g, Release(r)))
  {
    hide Admit, Holders, QueueAgrees, NoOvertaking;
    if Is(g, r, Holding) {
      FreeSlot(g, r);
      AdmitIsHandOver(g.(active := g.active - 1, phases := g.phases[r := Released]));
    }
  }

  /** Turning the queue away settles exactly the queued requests. */
  lemma {:induction false} TurnAwayAt(waiting: seq<Request>, phases: seq<Phase>, r: Request)
    requires forall x :: x in waiting ==> x < |phases|
    requires r < |phases|
    ensures |TurnAway(waiting, phases)| == |phases|
    ensures TurnAway(waiting, phases)[r] == if r in waiting then TurnedAway else phases[r]
  {
    if waiting != [] {
      assert waiting[0] in waiting;
      assert forall x :: x in waiting[1..] ==> x in waiting;
      assert forall x :: x in waiting ==> x == waiting[0] || x in waiting[1..];
      TurnAwayAt(waiting[1..], phases[waiting[0] := TurnedAway], r);
    }
  }

  lemma {:induction false} TurnAwayHolders(waiting: seq<Request>, phases: seq<Phase>)
    requires forall x :: x in waiting ==> x < |phases| && phases[x] in {Waiting, TurnedAway}
    ensures Holders(TurnAway(waiting, phases)) == Holders(phases)
  {
    if waiting != [] {
      assert waiting[0] in waiting;
      assert forall x :: x in waiting[1..] ==> x in waiting;
      assert forall x :: x in waiting ==> x == waiting[0] || x in waiting[1..];
      HoldersUpdate(phases, waiting[0], TurnedAway);
      hide Holders;
      TurnAwayHolders(waiting[1..], phases[waiting[0] := TurnedAway]);
    }
  }

  lemma {:induction false} AbortKeepsInv(g: Gate)
    requires Inv(g)
    ensures Inv(Step(g, Abort))
  {
    var g' := Step(g, Abort);
    assert forall r :: r in g.waiting ==> Is(g, r, Waiting);
    TurnAwayHolders(g.waiting, g.phases);
    hide Holders, TurnAway;
    forall r: Request
      ensures !Is(g', r, Waiting)
    {
      if r < |g.phases| {
        TurnAwayAt(g.waiting, g.phases, r);
        assert r in g.waiting <==> Is(g, r, Waiting);
      } else if 0 < |g.phases| {
        TurnAwayAt(g.waiting, g.phases, 0);
      } else {
        TurnAwayNobody(g.waiting);
      }
    }
  }

  lemma {:induction false} TurnAwayNobody(waiting: seq<Request>)
    ensures TurnAway(waiting, []) == []
  {
  }

  lemma {:induction false} StepKeepsInv(g: Gate, e: Event)
    requires Inv(g)
    ensures Inv(Step(g, e))
  {
    hide Inv, Step;
    match e
    case Acquire => AcquireKeepsInv(g);
    case Release(r) => ReleaseKeepsInv(g, r);
    case Abort => AbortKeepsInv(g);
  }

  /** After any run: holders are counted exactly and never exceed the limit, requests wait only
      while the gate is open and full, and they are admitted in order. */
  lemma {:induction false} ExecuteKeepsInv(limit: nat, aborted: bool, events: seq<Event>)
    ensures Inv(Execute(Opened(limit, aborted), events))
    ensures Execute(Opened(limit, aborted), events).limit == limit
  {
    if events != [] {
      var g := Execute(Opened(limit, aborted), events[..|events| - 1]);
      ExecuteKeepsInv(limit, aborted, events[..|events| - 1]);
      StepKeepsInv(g, events[|events| - 1]);
      StepKeepsLimit(g, events[|events| - 1]);
      hide Step, Inv;
    }
  }

  lemma {:induction false} AdmitKeepsLimit(g: Gate)
    ensures Admit(g).limit == g.limit && Admit(g).closed == g.closed && |Admit(g).phases| == |g.phases|
    decreases |g.waiting|
  {
    if CanAdmit(g) {
      AdmitKeepsLimit(AdmitOne(g));
    }
  }

  lemma {:induction false} StepKeepsLimit(g: Gate, e: Event)
    ensures Step(g, e).limit == g.limit && (g.closed ==> Step(g, e).closed)
  {
    hide Admit;
    if e.Release? && Is(g, e.request, Holding) {
      AdmitKeepsLimit(g.(active := g.active - 1, phases := g.phases[e.request := Released]));
    }
  }

  // ----- Every request settles once -----

  /** The changes a request can undergo in one step.  A promise settles when its request stops
      waiting. */
  predicate Moves(p: Phase, q: Phase) {
    || p == q
    || (p == Waiting && (q == Holding || q == TurnedAway))
    || (p == Holding && q == Released)
  }

  lemma {:induction false} ReleaseMoves(g: Gate, released: Request, r: Request)
    requires Inv(g) && r < |g.phases| && Is(g, released, Holding)
    ensures r < |Step(g, Release(released)).phases| && Moves(g.phases[r], Step(g, Release(released)).phases[r])
    ensures Step(g, Release(released)).phases[r] == Holding && g.phases[r] != Holding ==>
              !g.closed && g.waiting != [] && r == g.waiting[0]
  {
    var freed := g.(active := g.active - 1, phases := g.phases[released := Released]);
    FreeSlot(g, released);
    AdmitIsHandOver(freed);
    hide Admit, Holders, NoOvertaking, Increasing;
    if g.waiting != [] {
      assert g.waiting[0] in g.waiting && Is(g, g.waiting[0], Waiting);
    }
  }

  lemma {:induction false} StepMoves(g: Gate, e: Event, r: Request)
    requires Inv(g) && r < |g.phases|
    ensures r < |Step(g, e).phases| && Moves(g.phases[r], Step(g, e).phases[r])
  {
    match e
    case Acquire =>
    case Release(released) =>
      if Is(g, released, Holding) {
        ReleaseMoves(g, released, r);
      }
    case Abort =>
      assert forall x :: x in g.waiting ==> Is(g, x, Waiting);
      TurnAwayAt(g.waiting, g.phases, r);
      assert r in g.waiting <==> Is(g, r, Waiting);
  }

  /** Once admitted or turned away, a request is never decided again, and a slot returns once. */
  lemma {:induction false} SettlesOnce(limit: nat, aborted: bool, events: seq<Event>, n: nat, r: Request)
    requires n <= |events| && r < |Execute(Opened(limit, aborted), events[..n]).phases|
    ensures r < |Execute(Opened(limit, aborted), events).phases|
    ensures var before, after := Execute(Opened(limit, aborted), events[..n]).phases[r], Execute(Opened(limit, aborted), events).phases[r];
            && (before == TurnedAway ==> after == TurnedAway)
            && (before == Holding ==> after == Holding || after == Released)
            && (before == Released ==> after == Released)
  {
    hide Step, Inv;
    var last := |events| - 1;
    if n == |events| {
      assert events[..n] == events;
    } else {
      assert events[..last][..n] == events[..n];
      SettlesOnce(limit, aborted, events[..last], n, r);
      ExecuteKeepsInv(limit, aborted, events[..last]);
      StepMoves(Execute(Opened(limit, aborted), events[..last]), events[last], r);
    }
  }

  /** A closed gate stays closed and admits nobody: no request, old or new, obtains a slot. */
  lemma {:induction false} ClosedAdmitsNobody(g: Gate, e: Event, r: Request)
    requires Inv(g) && g.closed && r < |Step(g, e).phases| && Step(g, e).phases[r] == Holding
    ensures r < |g.phases| && g.phases[r] == Holding
  {
    match e
    case Acquire =>
    case Release(released) =>
      if Is(g, released, Holding) {
        AdmitKeepsLimit(g.(active := g.active - 1, phases := g.phases[released := Released]));
        ReleaseMoves(g, released, r);
      }
    case Abort =>
      TurnAwayNone(g.phases);
  }

  lemma {:induction false} TurnAwayNone(phases: seq<Phase>)
    ensures TurnAway([], phases) == phases
  {
  }

  // ----- Every request is served -----

  function WeightOf(p: Phase): nat {
    if p == Waiting then 2 else if p == Holding then 1 else 0
  }

  function Weight(phases: seq<Phase>): nat {
    if phases == [] then 0 else Weight(phases[..|phases| - 1]) + WeightOf(phases[|phases| - 1])
  }

  lemma {:induction false} WeightUpdate(phases: seq<Phase>, r: Request, p: Phase)
    requires r < |phases|
    ensures Weight(phases[r := p]) == Weight(phases) - WeightOf(phases[r]) + WeightOf(p)
  {
    var n := |phases| - 1;
    if r == n {
      assert phases[r := p][..n] == phases[..n];
    } else {
      WeightUpdate(phases[..n], r, p);
      assert phases[r := p][..n] == phases[..n][r := p];
    }
  }

  /** Each release lowers the weight, whatever it admits. */
  lemma {:induction false} ReleaseLowersWeight(g: Gate, r: Request)
    requires Inv(g) && Is(g, r, Holding)
    ensures Weight(Step(g, Release(r)).phases) < Weight(g.phases)
  {
    var freed := g.(active := g.active - 1, phases := g.phases[r := Released]);
    FreeSlot(g, r);
    AdmitIsHandOver(freed);
    WeightUpdate(g.phases, r, Released);
    hide Admit, Holders, NoOvertaking, Increasing, Weight;
    if g.waiting != [] {
      assert g.waiting[0] in g.waiting && Is(g, g.waiting[0], Waiting);
      WeightUpdate(freed.phases, g.waiting[0], Holding);
    }
  }

  lemma {:induction false} TurnAwayLowersWeight(waiting: seq<Request>, phases: seq<Phase>)
    requires forall x :: x in waiting ==> x < |phases| && phases[x] in {Waiting, TurnedAway}
    ensures Weight(TurnAway(waiting, phases)) <= Weight(phases)
    ensures waiting != [] && waiting[0] < |phases| && phases[waiting[0]] == Waiting ==> Weight(TurnAway(waiting, phases)) < Weight(phases)
  {
    if waiting != [] {
      assert waiting[0] in waiting;
      assert forall x :: x in waiting[1..] ==> x in waiting;
      WeightUpdate(phases, waiting[0], TurnedAway);
      hide Weight;
      TurnAwayLowersWeight(waiting[1..], phases[waiting[0] := TurnedAway]);
    }
  }

  lemma {:induction false} AbortLowersWeight(g: Gate)
    requires Inv(g) && Step(g, Abort).phases != g.phases
    ensures Weight(Step(g, Abort).phases) < Weight(g.phases)
  {
    hide Weight, Holders, NoOvertaking, Increasing;
    assert forall x :: x in g.waiting ==> Is(g, x, Waiting);
    if g.waiting == [] {
      TurnAwayNone(g.phases);
    } else {
      assert g.waiting[0] in g.waiting;
      hide TurnAway;
      TurnAwayLowersWeight(g.waiting, g.phases);
    }
  }

  lemma {:induction false} WeightSnoc(phases: seq<Phase>, p: Phase)
    ensures Weight(phases + [p]) == Weight(phases) + WeightOf(p)
  {
    assert (phases + [p])[..|phases|] == phases;
  }

  /** Every step that decides or ends a request, other than a new one, lowers the weight. */
  lemma {:induction false} StepLowersWeight(g: Gate, e: Event)
    requires Inv(g)
    ensures e.Acquire? ==> Weight(Step(g, e).phases) <= Weight(g.phases) + 2
    ensures !e.Acquire? && Step(g, e).phases != g.phases ==> Weight(Step(g, e).phases) < Weight(g.phases)
  {
    hide Inv, Weight, Admit, TurnAway;
    match e
    case Acquire => WeightSnoc(g.phases, Step(g, Acquire).phases[|g.phases|]);
    case Release(r) =>
      if Is(g, r, Holding) {
        ReleaseLowersWeight(g, r);
      }
    case Abort =>
      if Step(g, Abort).phases != g.phases {
        AbortLowersWeight(g);
      }
  }

  ghost function Acquisitions(events: seq<Event>): nat {
    if events == [] then 0
    else Acquisitions(events[..|events| - 1]) + if events[|events| - 1].Acquire? then 1 else 0
  }

  /** The steps of a run, other than new requests, that moved some request. */
  ghost function Movements(g: Gate, events: seq<Event>): nat {
    if events == [] then 0
    else
      var before, e := Execute(g, events[..|events| - 1]), events[|events| - 1];
      Movements(g, events[..|events| - 1]) + if !e.Acquire? && Step(before, e).phases != before.phases then 1 else 0
  }

  /** No run can move requests for ever without new ones arriving: two moves per request. */
  lemma {:induction false} MovementsAreBounded(limit: nat, aborted: bool, events: seq<Event>)
    ensures Movements(Opened(limit, aborted), events) + Weight(Execute(Opened(limit, aborted), events).phases) <= 2 * Acquisitions(events)
  {
    hide Step, Inv;
    if events != [] {
      MovementsAreBounded(limit, aborted, events[..|events| - 1]);
      ExecuteKeepsInv(limit, aborted, events[..|events| - 1]);
      StepLowersWeight(Execute(Opened(limit, aborted), events[..|events| - 1]), events[|events| - 1]);
    }
  }

  lemma {:induction false} SomeHolder(phases: seq<Phase>) returns (r: Request)
    requires Holders(phases) > 0
    ensures r < |phases| && phases[r] == Holding
  {
    if phases[|phases| - 1] == Holding {
      r := |phases| - 1;
    } else {
      r := SomeHolder(phases[..|phases| - 1]);
    }
  }

  /** A waiting request never waits for nothing: some holder's release will move the queue. */
  lemma {:induction false} NeverStuck(g: Gate, r: Request) returns (holder: Request)
    requires 0 < g.limit && Inv(g) && Is(g, r, Waiting)
    ensures Is(g, holder, Holding) && Is(Step(g, Release(holder)), g.waiting[0], Holding)
  {
    assert r in g.waiting;
    holder := SomeHolder(g.phases);
    FreeSlot(g, holder);
    AdmitIsHandOver(g.(active := g.active - 1, phases := g.phases[holder := Released]));
    hide Admit, Holders, NoOvertaking, Increasing;
    assert g.waiting[0] in g.waiting && Is(g, g.waiting[0], Waiting);
  }

  // ----- The gate in terms of the requests alone -----

  function Owners(phases: seq<Phase>, n: nat): set<Request>
    requires n <= |phases|
  {
    set r: nat | 0 <= r < n && phases[r] == Holding
  }

  lemma {:induction false} HoldersAreOwners(phases: seq<Phase>, n: nat)
    requires n <= |phases|
    ensures Holders(phases[..n]) == |Owners(phases, n)|
  {
    if n > 0 {
      HoldersAreOwners(phases, n - 1);
      HoldersSnoc(phases[..n - 1], phases[n - 1]);
      hide Holders;
      assert phases[..n] == phases[..n - 1] + [phases[n - 1]];
      assert Owners(phases, n) == if phases[n - 1] == Holding then Owners(phases, n - 1) + {n - 1} else Owners(phases, n - 1);
    } else {
      assert phases[..0] == [];
    }
  }

  /** What holds in every reachable state: the active count is that of the holders and at most the
      limit; the queue lists the waiting requests as they came, only while the gate is open and
      full; and every request after a waiting one waits too. */
  lemma {:induction false} GateOnRequests(limit: nat, aborted: bool, events: seq<Event>)
    ensures var g := Execute(Opened(limit, aborted), events);
            && g.limit == limit && g.active == |Owners(g.phases, |g.phases|)| <= limit
            && (g.waiting != [] ==> g.active == limit && !g.closed)
            && (forall i, j :: 0 <= i < j < |g.waiting| ==> g.waiting[i] < g.waiting[j])
            && (forall r: nat :: r in g.waiting <==> r < |g.phases| && g.phases[r] == Waiting)
            && (forall r: nat, q: nat :: r < q < |g.phases| && g.phases[r] == Waiting ==> g.phases[q] == Waiting)
            && (g.closed <==> aborted || Abort in events)
  {
    ClosedByAbort(limit, aborted, events);
    var g := Execute(Opened(limit, aborted), events);
    ExecuteKeepsInv(limit, aborted, events);
    HoldersAreOwners(g.phases, |g.phases|);
    assert g.phases[..|g.phases|] == g.phases;
    hide Execute, Holders, Owners;
    forall r: nat
      ensures r in g.waiting <==> r < |g.phases| && g.phases[r] == Waiting
    {
      assert r in g.waiting <==> Is(g, r, Waiting);
    }
    forall r: nat, q: nat | r < q < |g.phases| && g.phases[r] == Waiting
      ensures g.phases[q] == Waiting
    {
      assert Is(g, r, Waiting);
    }
  }

  lemma {:induction false} ClosedByAbort(limit: nat, aborted: bool, events: seq<Event>)
    ensures Execute(Opened(limit, aborted), events).closed <==> aborted || Abort in events
  {
    if events != [] {
      var n := |events| - 1;
      var g, e := Execute(Opened(limit, aborted), events[..n]), events[n];
      ClosedByAbort(limit, aborted, events[..n]);
      assert events == events[..n] + [e];
      hide Admit;
      if e.Release? && Is(g, e.request, Holding) {
        AdmitKeepsLimit(g.(active := g.active - 1, phases := g.phases[e.request := Released]));
      }
    }
  }

  /** A request to a closed gate is turned away, one to an open gate gets a free slot or waits. */
  lemma {:induction false} AcquireOnRequests(g: Gate)
    ensures var h := Step(g, Acquire);
            && h.phases == g.phases + [if g.closed then TurnedAway else if g.active < g.limit then Holding else Waiting]
            && h.active == (if !g.closed && g.active < g.limit then g.active + 1 else g.active)
            && h.waiting == (if !g.closed && g.active >= g.limit then g.waiting + [|g.phases|] else g.waiting)
            && h.limit == g.limit && h.closed == g.closed
  {
  }

  /** A holder's slot goes to the first waiter, if any; releasing anything else does nothing. */
  lemma {:induction false} ReleaseOnRequests(g: Gate, r: Request)
    requires Inv(g)
    ensures var h := Step(g, Release(r));
            if r < |g.phases| && g.phases[r] == Holding then
              && h.limit == g.limit && h.closed == g.closed
              && (if g.waiting == [] then h.phases == g.phases[r := Released] && h.active == g.active - 1 && h.waiting == []
                  else g.waiting[0] < |g.phases| && h.phases == g.phases[r := Released][g.waiting[0] := Holding]
                       && h.active == g.active && h.waiting == g.waiting[1..])
            else h == g
  {
    if Is(g, r, Holding) {
      FreeSlot(g, r);
      AdmitIsHandOver(g.(active := g.active - 1, phases := g.phases[r := Released]));
      assert g.waiting != [] ==> g.waiting[0] in g.waiting;
    }
    hide Admit, Holders, NoOvertaking, Increasing;
  }

  /** An abort closes the gate and turns away exactly the waiting requests. */
  lemma {:induction false} AbortOnRequests(g: Gate, r: Request)
    requires Inv(g) && r < |g.phases|
    ensures var h := Step(g, Abort);
            && h.closed && h.waiting == [] && h.active == g.active && h.limit == g.limit && |h.phases| == |g.phases|
            && h.phases[r] == if g.phases[r] == Waiting then TurnedAway else g.phases[r]
  {
    assert r in g.waiting <==> Is(g, r, Waiting);
    assert forall x :: x in g.waiting ==> Is(g, x, Waiting);
    TurnAwayAt(g.waiting, g.phases, r);
    hide TurnAway, Holders, NoOvertaking, Increasing;
  }

  // ----- The object -----

  /** The gate's closure, with the state of each request's promise. */
  class RegistrationGate {
    const limit: nat
    var active: int
    var closed: bool
    var waiting: seq<Request>
    var phases: seq<Phase>

    function View(): Gate
      reads this
    {
      Gate(limit, active, closed, waiting, phases)
    }

    constructor (limit: nat, aborted: bool)
      ensures View() == Opened(limit, aborted)
    {
      this.limit := limit;
      active, closed, waiting, phases := 0, aborted, [], [];
    }

    method Acquire() returns (request: Request)
      modifies this
      ensures View() == Step(old(View()), Event.Acquire) && request == old(|phases|)
    {
      request := |phases|;
      if closed {
        phases := phases + [TurnedAway];
      } else if active < limit {
        active := active + 1;
        phases := phases + [Holding];
      } else {
        waiting := waiting + [request];
        phases := phases + [Waiting];
      }
    }

    method AdmitWaiting()
      modifies this
      ensures View() == Admit(old(View()))
    {
      while !closed && active < limit && waiting != [] && waiting[0] < |phases|
        invariant Admit(View()) == Admit(old(View()))
        decreases |waiting|
      {
        active := active + 1;
        var first := waiting[0];
        waiting := waiting[1..];
        phases := phases[first := Holding];
      }
    }

    /** The function an admitted request gets; calling it again does nothing. */
    method Release(request: Request)
      modifies this
      ensures View() == Step(old(View()), Event.Release(request))
    {
      if request < |phases| && phases[request] == Holding {
        phases := phases[request := Released];
        active := active - 1;
        AdmitWaiting();
      }
    }

    /** The abort listener: close, and resolve every waiter without a slot. */
    method Abort()
      modifies this
      ensures View() == Step(old(View()), Event.Abort)
    {
      closed := true;
      while waiting != [] && waiting[0] < |phases|
        invariant closed && active == old(active)
        invariant TurnAway(waiting, phases) == TurnAway(old(waiting), old(phases))
        decreases |waiting|
      {
        phases := phases[waiting[0] := TurnedAway];
        waiting := waiting[1..];
      }
      waiting := [];
    }
  }
}
