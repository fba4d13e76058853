/** The tool-call semaphore of apps/discord-bot/src/agent/runtime.ts (`acquireToolSlot`) as a
    state machine.  A call that finds no free slot queues; a finished call hands its permit to
    the first waiter, who takes it up in a later turn of the event loop and may find itself
    cancelled by then.  Events come in any order: acquisitions, aborts, the abort listeners,
    resumptions and releases interleave freely. */
module ToolSlots {

  /** Calls are numbered in the order in which they ask for a slot. */
  type Call = nat
  type Signal = int

  /** Refused: aborted on entry.  Cancelled: aborted while queued.  Declined: aborted between
      being woken and resuming. */
  datatype Phase = Waiting | Woken | Holding | Released | Refused | Cancelled | Declined

  datatype Slots = Slots(limit: nat, active: int, waiters: seq<Call>, phases: seq<Phase>, signals: seq<Signal>,
                         aborted: set<Signal>)

  datatype Event =
    | Acquire(signal: Signal)
    | Abort(signal: Signal)
    | Cancel(call: Call)
    | Resume(call: Call)
    | Release(call: Call)

  function Remove(s: seq<Call>, c: Call): seq<Call> {
    if s == [] then [] else if s[0] == c then s[1..] else [s[0]] + Remove(s[1..], c)
  }

  /** Hand the permit to the first waiter, or give it back. */
  function PassOn(s: Slots): Slots {
    if s.waiters != [] && s.waiters[0] < |s.phases| then
      s.(waiters := s.waiters[1..], phases := s.phases[s.waiters[0] := Woken])
    else s.(active := s.active - 1)
  }

  function Enter(s: Slots, signal: Signal, p: Phase): Slots {
    s.(phases := s.phases + [p], signals := s.signals + [signal])
  }

  predicate Is(s: Slots, c: Call, p: Phase) { c < |s.phases| && s.phases[c] == p }

  predicate IsAborted(s: Slots, c: Call) { c < |s.signals| && s.signals[c] in s.aborted }

  /** An event that the state does not allow changes nothing. */
  function Step(s: Slots, e: Event): Slots {
    match e
    case Acquire(signal) =>
      if signal in s.aborted then Enter(s, signal, Refused)
      else if s.active < s.limit then Enter(s, signal, Holding).(active := s.active + 1)
      else Enter(s, signal, Waiting).(waiters := s.waiters + [|s.phases|])
    case Abort(signal) => s.(aborted := s.aborted + {signal})
    case Cancel(c) =>
      if Is(s, c, Waiting) && IsAborted(s, c) then
        s.(waiters := Remove(s.waiters, c), phases := s.phases[c := Cancelled])
      else s
    case Resume(c) =>
      if !Is(s, c, Woken) then s
      else if IsAborted(s, c) then PassOn(s.(phases := s.phases[c := Declined]))
      else s.(phases := s.phases[c := Holding])
    case Release(c) =>
      if Is(s, c, Holding) then PassOn(s.(phases := s.phases[c := Released])) else s
  }

  ghost function Execute(s: Slots, events: seq<Event>): Slots {
    if events == [] then s else Step(Execute(s, events[..|events| - 1]), events[|events| - 1])
  }

  function Idle(limit: nat): Slots { Slots(limit, 0, [], [], [], {}) }

  // ----- The invariant -----

  /** A permit is with a call from the moment it is granted or woken until it is passed on. */
  predicate HasPermit(p: Phase) { p == Woken || p == Holding }

  function Permits(phases: seq<Phase>): nat {
    if phases == [] then 0
    else Permits(phases[..|phases| - 1]) + if HasPermit(phases[|phases| - 1]) then 1 else 0
  }

  ghost predicate Increasing(s: seq<Call>) { forall i, j :: 0 <= i < j < |s| ==> s[i] < s[j] }

  /** The queue lists exactly the waiting calls, in the order they asked. */
  ghost predicate QueueAgrees(s: Slots) {
    Increasing(s.waiters) && forall c :: c in s.waiters <==> Is(s, c, Waiting)
  }

  /** Nobody who asked after a waiting call has ever been given a permit. */
  ghost predicate NoOvertaking(s: Slots) {
    forall i: Call, j: Call :: Is(s, i, Waiting) && i < j < |s.phases| ==> s.phases[j] in {Waiting, Refused, Cancelled}
  }

  ghost predicate Inv(s: Slots) {
    && |s.signals| == |s.phases|
    && QueueAgrees(s) && NoOvertaking(s)
    && s.active == Permits(s.phases) <= s.limit
    && (s.waiters != [] ==> s.active == s.limit)
  }

  // ----- Lemmas about the queue and the permits -----

  lemma {:induction false} PermitsUpdate(phases: seq<Phase>, c: Call, p: Phase)
    requires c < |phases|
    ensures Permits(phases[c := p])
         == Permits(phases) - (if HasPermit(phases[c]) then 1 else 0) + (if HasPermit(p) then 1 else 0)
  {
    var n := |phases| - 1;
    if c == n {
      assert phases[c := p][..n] == phases[..n];
    } else {
      PermitsUpdate(phases[..n], c, p);
      assert phases[c := p][..n] == phases[..n][c := p];
    }
  }

  lemma {:induction false} RemoveFromQueue(s: seq<Call>, c: Call)
    requires Increasing(s)
    ensures Increasing(Remove(s, c))
    ensures forall x :: x in Remove(s, c) <==> x in s && x != c
    ensures |Remove(s, c)| <= |s|
  {
    if s != [] {
      assert forall i :: 0 < i < |s| ==> s[0] < s[i];
      assert s == [s[0]] + s[1..];
      if s[0] != c {
        RemoveFromQueue(s[1..], c);
        var rest := Remove(s[1..], c);
        forall i | 0 <= i < |rest|
          ensures s[0] < rest[i]
        {
          assert rest[i] in rest;
        }
      }
    }
  }

  lemma {:induction false} PermitsSnoc(phases: seq<Phase>, p: Phase)
    ensures Permits(phases + [p]) == Permits(phases) + if HasPermit(p) then 1 else 0
  {
    assert (phases + [p])[..|phases|] == phases;
  }

  /** The state between taking a permit from a call and passing it on. */
  ghost predicate OneLoose(s: Slots) {
    && |s.signals| == |s.phases|
    && QueueAgrees(s) && NoOvertaking(s)
    && s.active == Permits(s.phases) + 1 <= s.limit
    && (s.waiters != [] ==> s.active == s.limit)
  }

  lemma {:induction false} PassOnKeepsInv(s: Slots)
    requires OneLoose(s)
    ensures Inv(PassOn(s))
  {
    hide Permits;
    if s.waiters != [] {
      var head := s.waiters[0];
      assert head in s.waiters;
      assert Is(s, head, Waiting);
      PermitsUpdate(s.phases, head, Woken);
      HeadLeaves(s);
    }
  }

  lemma {:induction false} HeadLeaves(s: Slots)
    requires QueueAgrees(s) && NoOvertaking(s) && s.waiters != []
    ensures s.waiters[0] < |s.phases|
    ensures QueueAgrees(PassOn(s)) && NoOvertaking(PassOn(s))
  {
    var head, s' := s.waiters[0], PassOn(s);
    assert head in s.waiters;
    assert s.waiters == [head] + s.waiters[1..];
    forall c
      ensures c in s'.waiters <==> Is(s', c, Waiting)
    {
      assert c in s.waiters <==> c == head || c in s.waiters[1..];
    }
    assert Increasing(s'.waiters);
    forall i: Call, j: Call | Is(s', i, Waiting) && i < j < |s'.phases|
      ensures s'.phases[j] in {Waiting, Refused, Cancelled}
    {
      assert i in s.waiters[1..];
      var k :| 1 <= k < |s.waiters| && s.waiters[k] == i;
      assert head < i;
      assert Is(s, i, Waiting);
    }
  }

  /** Taking the permit away from a call. */
  lemma {:induction false} TakePermit(s: Slots, c: Call, p: Phase)
    requires Inv(s) && c < |s.phases| && HasPermit(s.phases[c]) && !HasPermit(p) && p != Waiting
    ensures OneLoose(s.(phases := s.phases[c := p]))
  {
    hide Permits;
    PermitsUpdate(s.phases, c, p);
    QueueIgnores(s, c, p);
  }

  lemma {:induction false} QueueIgnores(s: Slots, c: Call, p: Phase)
    requires QueueAgrees(s) && NoOvertaking(s) && c < |s.phases| && HasPermit(s.phases[c]) && p != Waiting
    ensures QueueAgrees(s.(phases := s.phases[c := p])) && NoOvertaking(s.(phases := s.phases[c := p]))
  {
    var s' := s.(phases := s.phases[c := p]);
    assert forall x :: Is(s', x, Waiting) <==> Is(s, x, Waiting);
    forall i: Call, j: Call | Is(s', i, Waiting) && i < j < |s'.phases|
      ensures s'.phases[j] in {Waiting, Refused, Cancelled}
    {
      assert Is(s, i, Waiting);
      assert j != c;
    }
  }

  // ----- Every step keeps the invariant -----

  /** A newcomer that does not wait enters behind nobody who waits, or leaves with nothing. */
  lemma {:induction false} EnterAside(s: Slots, s': Slots, p: Phase)
    requires QueueAgrees(s) && NoOvertaking(s) && p != Waiting && (HasPermit(p) ==> s.waiters == []) && p != Released && p != Declined
    requires s'.phases == s.phases + [p] && s'.waiters == s.waiters
    ensures QueueAgrees(s') && NoOvertaking(s')
  {
    hide Increasing;
    assert forall c :: Is(s', c, Waiting) <==> Is(s, c, Waiting);
    forall i: Call, j: Call | Is(s', i, Waiting) && i < j < |s'.phases|
      ensures s'.phases[j] in {Waiting, Refused, Cancelled}
    {
      assert Is(s, i, Waiting) && i in s.waiters;
    }
  }

  /** A newcomer that waits goes to the end of the queue. */
  lemma {:induction false} EnterQueue(s: Slots, s': Slots)
    requires QueueAgrees(s) && NoOvertaking(s)
    requires s'.phases == s.phases + [Waiting] && s'.waiters == s.waiters + [|s.phases|]
    ensures QueueAgrees(s') && NoOvertaking(s')
  {
    forall c
      ensures c in s'.waiters <==> Is(s', c, Waiting)
    {
      assert c in s.waiters <==> Is(s, c, Waiting);
    }
    forall i | 0 <= i < |s.waiters|
      ensures s.waiters[i] < |s.phases|
    {
      assert s.waiters[i] in s.waiters;
    }
    forall i: Call, j: Call | Is(s', i, Waiting) && i < j < |s'.phases|
      ensures s'.phases[j] in {Waiting, Refused, Cancelled}
    {
      assert j < |s.phases| ==> Is(s, i, Waiting);
    }
  }

  lemma {:induction false} EnterKeepsInv(s: Slots, s': Slots, p: Phase)
    requires Inv(s) && p in {Refused, Holding, Waiting}
    requires s'.phases == s.phases + [p] && |s'.signals| == |s.signals| + 1 && s'.limit == s.limit
    requires p == Holding ==> s.active < s.limit
    requires p == Waiting ==> s.limit <= s.active
    requires s'.active == s.active + if p == Holding then 1 else 0
    requires s'.waiters == s.waiters + if p == Waiting then [|s.phases|] else []
    ensures Inv(s')
  {
    PermitsSnoc(s.phases, p);
    hide Permits, QueueAgrees, NoOvertaking;
    if p == Waiting {
      EnterQueue(s, s');
    } else {
      assert s'.waiters == s.waiters;
      EnterAside(s, s', p);
    }
  }

  lemma {:induction false} AcquireKeepsInv(s: Slots, signal: Signal)
    requires Inv(s)
    ensures Inv(Step(s, Acquire(signal)))
  {
    hide Inv;
    var p := if signal in s.aborted then Refused else if s.active < s.limit then Holding else Waiting;
    assert s.waiters + [] == s.waiters;
    assert |s.phases + [p]| == |s.phases| + 1;
    EnterKeepsInv(s, Step(s, Acquire(signal)), p);
  }

  lemma {:induction false} CancelKeepsInv(s: Slots, c: Call)
    requires Inv(s)
    ensures Inv(Step(s, Cancel(c)))
  {
    if Is(s, c, Waiting) && IsAborted(s, c) {
      var s' := Step(s, Cancel(c));
      PermitsUpdate(s.phases, c, Cancelled);
      RemoveFromQueue(s.waiters, c);
      hide Permits, Remove, IsAborted;
      forall x
        ensures x in s'.waiters <==> Is(s', x, Waiting)
      {
        assert x in s.waiters <==> Is(s, x, Waiting);
      }
      forall i: Call, j: Call | Is(s', i, Waiting) && i < j < |s'.phases|
        ensures s'.phases[j] in {Waiting, Refused, Cancelled}
      {
        assert Is(s, i, Waiting);
      }
    }
  }

  lemma {:induction false} ResumeKeepsInv(s: Slots, c: Call)
    requires Inv(s)
    ensures Inv(Step(s, Resume(c)))
  {
    hide Permits, PassOn, QueueAgrees, NoOvertaking;
    if Is(s, c, Woken) {
      if IsAborted(s, c) {
        TakePermit(s, c, Declined);
        PassOnKeepsInv(s.(phases := s.phases[c := Declined]));
      } else {
        PermitsUpdate(s.phases, c, Holding);
        QueueIgnores(s, c, Holding);
      }
    }
  }

  lemma {:induction false} ReleaseKeepsInv(s: Slots, c: Call)
    requires Inv(s)
    ensures Inv(Step(s, Release(c)))
  {
    hide Inv, OneLoose, PassOn;
    if Is(s, c, Holding) {
      TakePermit(s, c, Released);
      PassOnKeepsInv(s.(phases := s.phases[c := Released]));
    }
  }

  lemma {:induction false} AbortKeepsInv(s: Slots, signal: Signal)
    requires Inv(s)
    ensures Inv(Step(s, Abort(signal)))
  {
    var s' := Step(s, Abort(signal));
    assert forall c, p :: Is(s', c, p) <==> Is(s, c, p);
    hide Is;
  }

  lemma {:induction false} StepKeepsInv(s: Slots, e: Event)
    requires Inv(s)
    ensures Inv(Step(s, e))
  {
    hide Inv, Step;
    match e
    case Acquire(signal) => AcquireKeepsInv(s, signal);
    case Abort(signal) => AbortKeepsInv(s, signal);
    case Cancel(c) => CancelKeepsInv(s, c);
    case Resume(c) => ResumeKeepsInv(s, c);
    case Release(c) => ReleaseKeepsInv(s, c);
  }

  /** Whatever the interleaving, the permits outstanding are counted exactly and never exceed
      the limit, calls wait only while every permit is out, and service is first come first
      served. */
  lemma {:induction false} ExecuteKeepsInv(limit: nat, events: seq<Event>)
    ensures Inv(Execute(Idle(limit), events)) && Execute(Idle(limit), events).limit == limit
  {
    if events != [] {
      var s := Execute(Idle(limit), events[..|events| - 1]);
      ExecuteKeepsInv(limit, events[..|events| - 1]);
      StepKeepsInv(s, events[|events| - 1]);
    }
  }

  // ----- Every call settles once -----

  datatype Settlement = Pending | Resolved | Rejected

  /** What the promise of a call has done. */
  function Settled(p: Phase): Settlement {
    match p
    case Waiting => Pending
    case Woken => Pending
    case Holding => Resolved
    case Released => Resolved
    case Refused => Rejected
    case Cancelled => Rejected
    case Declined => Rejected
  }

  /** The changes a call can undergo in one step. */
  predicate Moves(p: Phase, q: Phase) {
    || p == q
    || (p == Waiting && (q == Woken || q == Cancelled))
    || (p == Woken && (q == Holding || q == Declined))
    || (p == Holding && q == Released)
  }

  lemma {:induction false} StepMoves(s: Slots, e: Event, c: Call)
    requires Inv(s) && c < |s.phases|
    ensures c < |Step(s, e).phases| && Moves(s.phases[c], Step(s, e).phases[c])
  {
    hide Permits, NoOvertaking, Increasing;
    if s.waiters != [] {
      assert s.waiters[0] in s.waiters;
    }
  }

  /** Once settled, a promise keeps its outcome for ever, and a returned permit stays returned. */
  lemma {:induction false} SettlesOnce(limit: nat, events: seq<Event>, n: nat, c: Call)
    requires n <= |events| && c < |Execute(Idle(limit), events[..n]).phases|
    ensures c < |Execute(Idle(limit), events).phases|
    ensures var before, after := Execute(Idle(limit), events[..n]).phases[c], Execute(Idle(limit), events).phases[c];
            && (Settled(before) != Pending ==> Settled(after) == Settled(before))
            && (before == Released ==> after == Released)
  {
    hide Step, Inv;
    var last := |events| - 1;
    if n == |events| {
      assert events[..n] == events;
    } else {
      assert events[..last][..n] == events[..n];
      SettlesOnce(limit, events[..last], n, c);
      ExecuteKeepsInv(limit, events[..last]);
      StepMoves(Execute(Idle(limit), events[..last]), events[last], c);
    }
  }

  // ----- Every call is served -----

  function WeightOf(p: Phase): nat {
    match p
    case Waiting => 3
    case Woken => 2
    case Holding => 1
    case Released => 0
    case Refused => 0
    case Cancelled => 0
    case Declined => 0
  }

  function Weight(phases: seq<Phase>): nat {
    if phases == [] then 0 else Weight(phases[..|phases| - 1]) + WeightOf(phases[|phases| - 1])
  }

  lemma {:induction false} WeightUpdate(phases: seq<Phase>, c: Call, p: Phase)
    requires c < |phases|
    ensures Weight(phases[c := p]) == Weight(phases) - WeightOf(phases[c]) + WeightOf(p)
  {
    var n := |phases| - 1;
    if c == n {
      assert phases[c := p][..n] == phases[..n];
    } else {
      WeightUpdate(phases[..n], c, p);
      assert phases[c := p][..n] == phases[..n][c := p];
    }
  }

  lemma {:induction false} PassOnLowersWeight(s: Slots)
    requires QueueAgrees(s)
    ensures Weight(PassOn(s).phases) <= Weight(s.phases)
  {
    if s.waiters != [] {
      assert s.waiters[0] in s.waiters;
      assert Is(s, s.waiters[0], Waiting);
      WeightUpdate(s.phases, s.waiters[0], Woken);
    }
  }

  /** Every step that moves a call, other than a new acquisition, lowers the weight. */
  lemma {:induction false} StepLowersWeight(s: Slots, e: Event)
    requires Inv(s)
    ensures e.Acquire? ==> Weight(Step(s, e).phases) <= Weight(s.phases) + 3
    ensures !e.Acquire? && Step(s, e).phases != s.phases ==> Weight(Step(s, e).phases) < Weight(s.phases)
  {
    match e
    case Acquire(_) =>
      var s' := Step(s, e);
      assert s'.phases[..|s.phases|] == s.phases;
    case Abort(_) =>
    case Cancel(c) =>
      if Is(s, c, Waiting) {
        WeightUpdate(s.phases, c, Cancelled);
      }
    case Resume(c) =>
      if Is(s, c, Woken) {
        WeightUpdate(s.phases, c, if IsAborted(s, c) then Declined else Holding);
        TakePermit(s, c, Declined);
        PassOnLowersWeight(s.(phases := s.phases[c := Declined]));
      }
    case Release(c) =>
      if Is(s, c, Holding) {
        WeightUpdate(s.phases, c, Released);
        TakePermit(s, c, Released);
        PassOnLowersWeight(s.(phases := s.phases[c := Released]));
      }
  }

  ghost function Acquisitions(events: seq<Event>): nat {
    if events == [] then 0
    else Acquisitions(events[..|events| - 1]) + if events[|events| - 1].Acquire? then 1 else 0
  }

  /** The steps of a run, other than acquisitions, that moved some call. */
  ghost function Movements(s: Slots, events: seq<Event>): nat {
    if events == [] then 0
    else
      var before, e := Execute(s, events[..|events| - 1]), events[|events| - 1];
      Movements(s, events[..|events| - 1]) + if !e.Acquire? && Step(before, e).phases != before.phases then 1 else 0
  }

  /** No run can move calls for ever without new ones arriving: three moves per call. */
  lemma {:induction false} MovementsAreBounded(limit: nat, events: seq<Event>)
    ensures Movements(Idle(limit), events) + Weight(Execute(Idle(limit), events).phases) <= 3 * Acquisitions(events)
  {
    hide Step, Inv;
    if events != [] {
      MovementsAreBounded(limit, events[..|events| - 1]);
      ExecuteKeepsInv(limit, events[..|events| - 1]);
      StepLowersWeight(Execute(Idle(limit), events[..|events| - 1]), events[|events| - 1]);
    }
  }

  lemma {:induction false} SomePermit(phases: seq<Phase>) returns (c: Call)
    requires Permits(phases) > 0
    ensures c < |phases| && HasPermit(phases[c])
  {
    var n := |phases| - 1;
    if HasPermit(phases[n]) {
      c := n;
    } else {
      c := SomePermit(phases[..n]);
    }
  }

  lemma {:induction false} PermitsOf(phases: seq<Phase>, c: Call)
    requires c < |phases| && HasPermit(phases[c])
    ensures Permits(phases) > 0
  {
    if c < |phases| - 1 {
      PermitsOf(phases[..|phases| - 1], c);
    }
  }

  /** No wake-up is lost: while any call still waits, some call has a permit, and resuming it or
      releasing it moves the queue on. */
  lemma {:induction false} NeverStuck(s: Slots, c: Call) returns (d: Call)
    requires 0 < s.limit && Inv(s) && c < |s.phases| && WeightOf(s.phases[c]) > 0
    ensures Step(s, Resume(d)).phases != s.phases || Step(s, Release(d)).phases != s.phases
  {
    hide NoOvertaking, Increasing;
    if Is(s, c, Waiting) {
      assert c in s.waiters;
      d := SomePermit(s.phases);
    } else {
      d := c;
    }
    if s.waiters != [] {
      assert s.waiters[0] in s.waiters && Is(s, s.waiters[0], Waiting);
    }
    hide Permits;
    assert Step(s, Resume(d)).phases[d] != s.phases[d] || Step(s, Release(d)).phases[d] != s.phases[d];
  }

  lemma {:induction false} HeadIsMember(waiters: seq<Call>)
    ensures waiters == [] || waiters[0] in waiters
  {
  }

  lemma {:induction false} NoPermits(phases: seq<Phase>)
    requires forall i :: 0 <= i < |phases| ==> WeightOf(phases[i]) == 0
    ensures Permits(phases) == 0
  {
    if phases != [] {
      NoPermits(phases[..|phases| - 1]);
    }
  }

  /** When every call has settled and returned its permit, every permit is back. */
  lemma {:induction false} AllPermitsReturn(s: Slots)
    requires Inv(s) && forall i :: 0 <= i < |s.phases| ==> WeightOf(s.phases[i]) == 0
    ensures s.active == 0 && s.waiters == []
  {
    NoPermits(s.phases);
    HeadIsMember(s.waiters);
  }

  // ----- The pool in terms of the calls alone -----

  function Owners(phases: seq<Phase>, n: nat): set<Call>
    requires n <= |phases|
  {
    set c: nat | 0 <= c < n && (phases[c] == Woken || phases[c] == Holding)
  }

  lemma {:induction false} PermitsAreOwned(phases: seq<Phase>, n: nat)
    requires n <= |phases|
    ensures Permits(phases[..n]) == |Owners(phases, n)|
  {
    if n > 0 {
      PermitsAreOwned(phases, n - 1);
      PermitsSnoc(phases[..n - 1], phases[n - 1]);
      hide Permits;
      assert phases[..n] == phases[..n - 1] + [phases[n - 1]];
      assert Owners(phases, n) == if HasPermit(phases[n - 1]) then Owners(phases, n - 1) + {n - 1} else Owners(phases, n - 1);
    } else {
      assert phases[..0] == [];
    }
  }

  /** What holds in every reachable state: the active count is that of the woken and holding calls
      and at most the limit; the queue lists the waiting calls as they came, only while the limit
      is reached; and no later call has had a permit. */
  lemma {:induction false} PoolOnCalls(limit: nat, events: seq<Event>)
    ensures var s := Execute(Idle(limit), events);
            && s.limit == limit && s.active == |Owners(s.phases, |s.phases|)| <= limit
            && (s.waiters != [] ==> s.active == limit)
            && (forall i, j :: 0 <= i < j < |s.waiters| ==> s.waiters[i] < s.waiters[j])
            && (forall c: nat :: c in s.waiters <==> c < |s.phases| && s.phases[c] == Waiting)
            && (forall c: nat, d: nat :: c < d < |s.phases| && s.phases[c] == Waiting ==> s.phases[d] in {Waiting, Refused, Cancelled})
  {
    var s := Execute(Idle(limit), events);
    ExecuteKeepsInv(limit, events);
    PermitsAreOwned(s.phases, |s.phases|);
    assert s.phases[..|s.phases|] == s.phases;
    hide Execute, Permits, Owners;
    forall c: nat
      ensures c in s.waiters <==> c < |s.phases| && s.phases[c] == Waiting
    {
      assert c in s.waiters <==> Is(s, c, Waiting);
    }
    forall c: nat, d: nat | c < d < |s.phases| && s.phases[c] == Waiting
      ensures s.phases[d] in {Waiting, Refused, Cancelled}
    {
      assert Is(s, c, Waiting);
    }
  }

  /** A call is refused if its signal is aborted, gets a free permit, or waits. */
  lemma {:induction false} AcquireOnCalls(s: Slots, signal: Signal)
    ensures var t := Step(s, Acquire(signal));
            && t.phases == s.phases + [if signal in s.aborted then Refused else if s.active < s.limit then Holding else Waiting]
            && t.signals == s.signals + [signal] && t.limit == s.limit && t.aborted == s.aborted
            && t.active == (if signal !in s.aborted && s.active < s.limit then s.active + 1 else s.active)
            && t.waiters == (if signal !in s.aborted && s.active >= s.limit then s.waiters + [|s.phases|] else s.waiters)
  {
  }

  /** What a permit that is given up does: the first waiter is woken with it, or it is free. */
  lemma {:induction false} PermitGoesOn(s: Slots, c: Call, e: Event, p: Phase)
    requires Inv(s) && c < |s.phases|
    requires (e == Release(c) && s.phases[c] == Holding && p == Released)
             || (e == Resume(c) && s.phases[c] == Woken && s.signals[c] in s.aborted && p == Declined)
    ensures var t := Step(s, e);
            && t.signals == s.signals && t.aborted == s.aborted && t.limit == s.limit
            && (if s.waiters == [] then t.phases == s.phases[c := p] && t.waiters == [] && t.active == s.active - 1
                else s.waiters[0] < |s.phases| && t.phases == s.phases[c := p][s.waiters[0] := Woken]
                     && t.waiters == s.waiters[1..] && t.active == s.active)
  {
    if s.waiters != [] {
      assert s.waiters[0] in s.waiters;
    }
    hide NoOvertaking, Increasing, Permits;
  }

  /** The other events: a woken call that was not aborted takes its permit, an aborted waiter leaves
      the queue, an abort marks its signal; and an event that does not apply changes nothing. */
  lemma {:induction false} OtherEventsOnCalls(s: Slots, c: Call, signal: Signal)
    requires Inv(s)
    ensures Step(s, Abort(signal)) == s.(aborted := s.aborted + {signal})
    ensures var t := Step(s, Resume(c));
            if c < |s.phases| && s.phases[c] == Woken then
              s.signals[c] !in s.aborted ==> t == s.(phases := s.phases[c := Holding])
            else t == s
    ensures !(c < |s.phases| && s.phases[c] == Holding) ==> Step(s, Release(c)) == s
    ensures var t := Step(s, Cancel(c));
            if c < |s.phases| && s.phases[c] == Waiting && s.signals[c] in s.aborted then
              && t.phases == s.phases[c := Cancelled] && t.active == s.active && c !in t.waiters
              && forall d :: d != c ==> (d in t.waiters <==> d in s.waiters)
            else t == s
  {
    if c < |s.phases| && s.phases[c] == Waiting && s.signals[c] in s.aborted {
      assert Is(s, c, Waiting) && c in s.waiters;
      RemoveFromQueue(s.waiters, c);
    }
    hide NoOvertaking, Increasing, Permits, Remove;
  }

  // ----- The object -----

  /** The runtime's fields, with the state of each call's promise and closure. */
  class ToolSlotPool {
    const limit: nat
    var active: int
    var waiters: seq<Call>
    var phases: seq<Phase>
    var signals: seq<Signal>
    var aborted: set<Signal>

    function View(): Slots
      reads this
    {
      Slots(limit, active, waiters, phases, signals, aborted)
    }

    constructor (limit: nat)
      ensures View() == Idle(limit)
    {
      this.limit := limit;
      active, waiters, phases, signals, aborted := 0, [], [], [], {};
    }

    /** Up to the first suspension: refuse, take a free slot, or queue. */
    method Acquire(signal: Signal) returns (call: Call)
      modifies this
      ensures View() == Step(old(View()), Event.Acquire(signal)) && call == old(|phases|)
    {
      call := |phases|;
      signals := signals + [signal];
      if signal in aborted {
        phases := phases + [Refused];
      } else if active < limit {
        active := active + 1;
        phases := phases + [Holding];
      } else {
        waiters := waiters + [call];
        phases := phases + [Waiting];
      }
    }

    method Abort(signal: Signal)
      modifies this
      ensures View() == Step(old(View()), Event.Abort(signal))
    {
      aborted := aborted + {signal};
    }

    /** The abort listener of a queued call, which waking the call removes. */
    method Cancel(call: Call)
      modifies this
      ensures View() == Step(old(View()), Event.Cancel(call))
    {
      if call < |phases| && phases[call] == Waiting && call < |signals| && signals[call] in aborted {
        var index := 0;
        while index < |waiters| && waiters[index] != call
          invariant index <= |waiters| && call !in waiters[..index]
        {
          index := index + 1;
        }
        RemoveIs(waiters, call, index);
        if index < |waiters| {
          waiters := waiters[..index] + waiters[index + 1..];
        }
        phases := phases[call := Cancelled];
      }
    }

    /** A woken call runs on: it takes the permit up, or passes it on if it was aborted. */
    method Resume(call: Call)
      modifies this
      ensures View() == Step(old(View()), Event.Resume(call))
    {
      if call < |phases| && phases[call] == Woken {
        if call < |signals| && signals[call] in aborted {
          phases := phases[call := Declined];
          HandOver();
        } else {
          phases := phases[call := Holding];
        }
      }
    }

    /** The function a granted call gets back; calling it again does nothing. */
    method Release(call: Call)
      modifies this
      ensures View() == Step(old(View()), Event.Release(call))
    {
      if call < |phases| && phases[call] == Holding {
        phases := phases[call := Released];
        HandOver();
      }
    }

    method HandOver()
      modifies this
      ensures View() == PassOn(old(View()))
    {
      if waiters != [] && waiters[0] < |phases| {
        var next := waiters[0];
        waiters := waiters[1..];
        phases := phases[next := Woken];
      } else {
        active := active - 1;
      }
    }
  }

  lemma {:induction false} RemoveSkips(front: seq<Call>, rest: seq<Call>, c: Call)
    requires c !in front
    ensures Remove(front + rest, c) == front + Remove(rest, c)
  {
    var s := front + rest;
    if front == [] {
      assert s == rest;
    } else {
      RemoveSkips(front[1..], rest, c);
      assert s[1..] == front[1..] + rest;
      assert front == [front[0]] + front[1..] && s[0] == front[0];
      assert Remove(s, c) == [s[0]] + Remove(s[1..], c);
    }
  }

  lemma {:induction false} RemoveIs(s: seq<Call>, c: Call, index: nat)
    requires index <= |s| && c !in s[..index] && (index < |s| ==> s[index] == c)
    ensures Remove(s, c) == if index < |s| then s[..index] + s[index + 1..] else s
  {
    var rest := s[index..];
    RemoveSkips(s[..index], rest, c);
    assert s == s[..index] + rest;
    if index < |s| {
      assert rest[0] == c && rest[1..] == s[index + 1..];
    }
  }
}
