/** The concurrency limits on agent turns (apps/discord-bot/src/agent/runtime.ts, `process`): a
    turn first reserves a place for its user, then waits for one of the global places.  Every
    finishing turn wakes all waiters, who check again; stopping wakes them to give up. */
module TurnLimits {

  type Turn = nat
  type User = int

  /** Polling: sleeping until the user has room.  Parked: registered as a waiter.  Roused: woken,
      not yet resumed. */
  datatype Phase = Polling | Parked | Roused | Running | Finished

  datatype Limits = Limits(maxConcurrent: nat, perUser: nat, active: int, reserved: map<User, int>, waiters: set<Turn>,
                           stopped: bool, phases: seq<Phase>, users: seq<User>)

  datatype Event = Begin(user: User) | Poll(turn: Turn) | Resume(turn: Turn) | Finish(turn: Turn) | Stop

  function Reserved(reserved: map<User, int>, user: User): int { if user in reserved then reserved[user] else 0 }

  /** The entry goes when the last reservation goes. */
  function Unreserve(reserved: map<User, int>, user: User): map<User, int> {
    var count := (if user in reserved then reserved[user] else 1) - 1;
    if count > 0 then reserved[user := count] else reserved - {user}
  }

  function Rouse(phases: seq<Phase>, waiters: set<Turn>, n: nat): (r: seq<Phase>)
    requires n <= |phases|
    ensures |r| == n && forall i :: 0 <= i < n ==> r[i] == if i in waiters then Roused else phases[i]
  {
    if n == 0 then [] else Rouse(phases, waiters, n - 1) + [if n - 1 in waiters then Roused else phases[n - 1]]
  }

  /** The loop over the global limit, entered with a reservation in hand. */
  function Admit(l: Limits, t: Turn): Limits
    requires t < |l.phases| == |l.users|
  {
    if l.stopped then l.(reserved := Unreserve(l.reserved, l.users[t]), phases := l.phases[t := Finished])
    else if l.active >= l.maxConcurrent then l.(waiters := l.waiters + {t}, phases := l.phases[t := Parked])
    else l.(active := l.active + 1, phases := l.phases[t := Running])
  }

  /** The loop over the user's limit. */
  function Enter(l: Limits, t: Turn): Limits
    requires t < |l.phases| == |l.users|
  {
    var user := l.users[t];
    if l.stopped then l.(phases := l.phases[t := Finished])
    else if l.perUser > 0 && Reserved(l.reserved, user) >= l.perUser then l.(phases := l.phases[t := Polling])
    else Admit(l.(reserved := l.reserved[user := Reserved(l.reserved, user) + 1]), t)
  }

  predicate Is(l: Limits, t: Turn, p: Phase) { t < |l.phases| == |l.users| && l.phases[t] == p }

  function WakeAll(l: Limits): Limits { l.(waiters := {}, phases := Rouse(l.phases, l.waiters, |l.phases|)) }

  function Step(l: Limits, e: Event): Limits {
    match e
    case Begin(user) =>
      if |l.phases| != |l.users| then l
      else Enter(l.(phases := l.phases + [Polling], users := l.users + [user]), |l.phases|)
    case Poll(t) => if Is(l, t, Polling) then Enter(l, t) else l
    case Resume(t) => if Is(l, t, Roused) then Admit(l, t) else l
    case Finish(t) =>
      if Is(l, t, Running) then
        WakeAll(l.(active := l.active - 1, reserved := Unreserve(l.reserved, l.users[t]), phases := l.phases[t := Finished]))
      else l
    case Stop => WakeAll(l.(stopped := true))
  }

  ghost function Execute(l: Limits, events: seq<Event>): Limits {
    if events == [] then l else Step(Execute(l, events[..|events| - 1]), events[|events| - 1])
  }

  function Idle(maxConcurrent: nat, perUser: nat): Limits { Limits(maxConcurrent, perUser, 0, map[], {}, false, [], []) }

  // ----- The invariant -----

  predicate Holds(p: Phase) { p == Parked || p == Roused || p == Running }

  function CountRunning(phases: seq<Phase>): nat {
    if phases == [] then 0
    else CountRunning(phases[..|phases| - 1]) + if phases[|phases| - 1] == Running then 1 else 0
  }

  /** The places that a user's turns hold. */
  function CountHeld(phases: seq<Phase>, users: seq<User>, user: User): nat
    requires |phases| <= |users|
  {
    if phases == [] then 0
    else
      var n := |phases| - 1;
      CountHeld(phases[..n], users, user) + if Holds(phases[n]) && users[n] == user then 1 else 0
  }

  ghost predicate Counted(l: Limits) {
    && |l.phases| == |l.users| && l.active == CountRunning(l.phases)
    && (forall user :: Reserved(l.reserved, user) == CountHeld(l.phases, l.users, user))
    && Positive(l.reserved)
  }

  ghost predicate WaitersAgree(l: Limits) { forall t: Turn :: t in l.waiters <==> Is(l, t, Parked) }

  ghost predicate Inv(l: Limits) {
    && Counted(l) && WaitersAgree(l)
    && l.active <= l.maxConcurrent
    && (l.perUser > 0 ==> forall user :: Reserved(l.reserved, user) <= l.perUser)
    && (l.waiters != {} ==> l.active == l.maxConcurrent && !l.stopped)
  }

  // ----- Counting -----

  lemma {:induction false} RunningUpdate(phases: seq<Phase>, t: Turn, p: Phase)
    requires t < |phases|
    ensures CountRunning(phases[t := p])
         == CountRunning(phases) - (if phases[t] == Running then 1 else 0) + (if p == Running then 1 else 0)
  {
    var n := |phases| - 1;
    if t == n {
      assert phases[t := p][..n] == phases[..n];
    } else {
      RunningUpdate(phases[..n], t, p);
      assert phases[t := p][..n] == phases[..n][t := p];
    }
  }

  lemma {:induction false} HeldUpdate(phases: seq<Phase>, users: seq<User>, t: Turn, p: Phase, user: User)
    requires t < |phases| <= |users|
    ensures CountHeld(phases[t := p], users, user)
         == CountHeld(phases, users, user) - (if Holds(phases[t]) && users[t] == user then 1 else 0)
            + (if Holds(p) && users[t] == user then 1 else 0)
  {
    var n := |phases| - 1;
    if t == n {
      assert phases[t := p][..n] == phases[..n];
    } else {
      HeldUpdate(phases[..n], users, t, p, user);
      assert phases[t := p][..n] == phases[..n][t := p];
    }
  }

  lemma {:induction false} RousedRunning(phases: seq<Phase>, waiters: set<Turn>, n: nat)
    requires n <= |phases| && forall t :: t in waiters && t < n ==> phases[t] == Parked
    ensures CountRunning(Rouse(phases, waiters, n)) == CountRunning(phases[..n])
  {
    if n > 0 {
      RousedRunning(phases, waiters, n - 1);
      assert Rouse(phases, waiters, n)[..n - 1] == Rouse(phases, waiters, n - 1);
      assert phases[..n][..n - 1] == phases[..n - 1];
    }
  }

  lemma {:induction false} RousedHeld(phases: seq<Phase>, users: seq<User>, waiters: set<Turn>, n: nat, user: User)
    requires n <= |phases| <= |users| && forall t :: t in waiters && t < n ==> phases[t] == Parked
    ensures CountHeld(Rouse(phases, waiters, n), users, user) == CountHeld(phases[..n], users, user)
  {
    if n > 0 {
      RousedHeld(phases, users, waiters, n - 1, user);
      assert Rouse(phases, waiters, n)[..n - 1] == Rouse(phases, waiters, n - 1);
      assert phases[..n][..n - 1] == phases[..n - 1];
    }
  }

  lemma {:induction false} HeldSnoc(phases: seq<Phase>, users: seq<User>, newcomer: User, user: User)
    requires |phases| == |users|
    ensures CountHeld(phases + [Polling], users + [newcomer], user) == CountHeld(phases, users, user)
    ensures CountRunning(phases + [Polling]) == CountRunning(phases)
  {
    assert (phases + [Polling])[..|phases|] == phases;
    HeldIgnoresLater(phases, users, newcomer, user);
  }

  lemma {:induction false} HeldIgnoresLater(phases: seq<Phase>, users: seq<User>, newcomer: User, user: User)
    requires |phases| <= |users|
    ensures CountHeld(phases, users + [newcomer], user) == CountHeld(phases, users, user)
  {
    if phases != [] {
      HeldIgnoresLater(phases[..|phases| - 1], users, newcomer, user);
    }
  }

  // ----- Every step keeps the invariant -----

  ghost predicate Positive(reserved: map<User, int>) { forall user :: user in reserved ==> reserved[user] > 0 }

  lemma {:induction false} UnreserveCounts(reserved: map<User, int>, user: User)
    requires Positive(reserved) && Reserved(reserved, user) > 0
    ensures Positive(Unreserve(reserved, user))
    ensures forall u :: Reserved(Unreserve(reserved, user), u) == Reserved(reserved, u) - if u == user then 1 else 0
  {
  }

  lemma {:induction false} ReserveCounts(reserved: map<User, int>, user: User)
    requires Positive(reserved)
    ensures Positive(reserved[user := Reserved(reserved, user) + 1])
    ensures forall u ::
              Reserved(reserved[user := Reserved(reserved, user) + 1], u) == Reserved(reserved, u) + if u == user then 1 else 0
  {
  }

  lemma {:induction false} SameWaiters(l: Limits, m: Limits)
    requires WaitersAgree(l) && m.waiters == l.waiters && m.phases == l.phases && m.users == l.users
    ensures WaitersAgree(m)
  {
    assert forall t: Turn, p :: Is(m, t, p) <==> Is(l, t, p);
  }

  /** A turn that holds a reservation but whose phase may not show it yet. */
  ghost predicate Entering(l: Limits, t: Turn) {
    && |l.phases| == |l.users| && t < |l.phases| && WaitersAgree(l)
    && (l.phases[t] == Roused || l.phases[t] == Polling)
    && l.active == CountRunning(l.phases) <= l.maxConcurrent && Positive(l.reserved)
    && (forall user :: Reserved(l.reserved, user)
                    == CountHeld(l.phases, l.users, user) + if l.phases[t] == Polling && user == l.users[t] then 1 else 0)
    && (l.perUser > 0 ==> forall user :: Reserved(l.reserved, user) <= l.perUser)
    && (l.waiters != {} ==> l.active == l.maxConcurrent && !l.stopped)
  }

  lemma {:induction false} HeldAfter(l: Limits, t: Turn, p: Phase)
    requires Entering(l, t)
    ensures forall user ::
              Reserved(l.reserved, user)
              == CountHeld(l.phases[t := p], l.users, user) + if !Holds(p) && user == l.users[t] then 1 else 0
    ensures CountRunning(l.phases[t := p]) == CountRunning(l.phases) + if p == Running then 1 else 0
  {
    RunningUpdate(l.phases, t, p);
    hide CountRunning, CountHeld, WaitersAgree, Reserved, Positive;
    forall user
      ensures Reserved(l.reserved, user)
           == CountHeld(l.phases[t := p], l.users, user) + if !Holds(p) && user == l.users[t] then 1 else 0
    {
      HeldUpdate(l.phases, l.users, t, p, user);
    }
  }

  lemma {:induction false} HolderHasReservation(l: Limits, t: Turn)
    requires Entering(l, t)
    ensures Reserved(l.reserved, l.users[t]) > 0
  {
    HeldUpdate(l.phases, l.users, t, Finished, l.users[t]);
    hide CountRunning, CountHeld, WaitersAgree, Reserved, Positive;
  }

  lemma {:induction false} AdmitKeepsInv(l: Limits, t: Turn)
    requires Entering(l, t)
    ensures Inv(Admit(l, t))
  {
    var p := if l.stopped then Finished else if l.active >= l.maxConcurrent then Parked else Running;
    HeldAfter(l, t, p);
    HolderHasReservation(l, t);
    UnreserveCounts(l.reserved, l.users[t]);
    hide CountRunning, CountHeld, Unreserve, Reserved;
  }

  lemma {:induction false} ReserveEnters(l: Limits, t: Turn)
    requires Inv(l) && Is(l, t, Polling) && (l.perUser > 0 ==> Reserved(l.reserved, l.users[t]) < l.perUser)
    ensures Entering(l.(reserved := l.reserved[l.users[t] := Reserved(l.reserved, l.users[t]) + 1]), t)
  {
    var user := l.users[t];
    var reserving := l.(reserved := l.reserved[user := Reserved(l.reserved, user) + 1]);
    ReserveCounts(l.reserved, user);
    SameWaiters(l, reserving);
    hide CountRunning, CountHeld, WaitersAgree, Positive, Reserved;
    forall u
      ensures Reserved(reserving.reserved, u) == CountHeld(l.phases, l.users, u) + if u == user then 1 else 0
    {
      assert Reserved(l.reserved, u) == CountHeld(l.phases, l.users, u);
    }
    forall u | l.perUser > 0
      ensures Reserved(reserving.reserved, u) <= l.perUser
    {
      assert Reserved(l.reserved, u) <= l.perUser;
    }
  }

  lemma {:induction false} StoppedKeepsInv(l: Limits, t: Turn)
    requires Inv(l) && Is(l, t, Polling)
    ensures Inv(l.(phases := l.phases[t := Finished]))
  {
    var l' := l.(phases := l.phases[t := Finished]);
    RunningUpdate(l.phases, t, Finished);
    hide CountRunning, CountHeld, Positive, Reserved;
    forall u
      ensures CountHeld(l'.phases, l.users, u) == CountHeld(l.phases, l.users, u)
    {
      HeldUpdate(l.phases, l.users, t, Finished, u);
    }
    hide Holds;
    assert forall u: Turn :: Is(l', u, Parked) <==> Is(l, u, Parked);
  }

  lemma {:induction false} EnterKeepsInv(l: Limits, t: Turn)
    requires Inv(l) && Is(l, t, Polling)
    ensures Inv(Enter(l, t))
  {
    hide Inv, Admit, Entering;
    var user := l.users[t];
    if l.stopped {
      StoppedKeepsInv(l, t);
    } else if l.perUser > 0 && Reserved(l.reserved, user) >= l.perUser {
      assert l.phases[t := Polling] == l.phases;
    } else {
      ReserveEnters(l, t);
      AdmitKeepsInv(l.(reserved := l.reserved[user := Reserved(l.reserved, user) + 1]), t);
    }
  }

  lemma {:induction false} BeginKeepsInv(l: Limits, user: User)
    requires Inv(l)
    ensures Inv(Step(l, Begin(user)))
  {
    var joined := l.(phases := l.phases + [Polling], users := l.users + [user]);
    forall u
      ensures CountHeld(joined.phases, joined.users, u) == CountHeld(l.phases, l.users, u)
      ensures CountRunning(joined.phases) == CountRunning(l.phases)
    {
      HeldSnoc(l.phases, l.users, user, u);
    }
    hide CountRunning, CountHeld, Enter;
    EnterKeepsInv(joined, |l.phases|);
  }

  lemma {:induction false} WakeAllCounts(l: Limits)
    requires Counted(l) && WaitersAgree(l)
    ensures Counted(WakeAll(l))
  {
    assert l.phases[..|l.phases|] == l.phases;
    assert forall t :: t in l.waiters ==> Is(l, t, Parked);
    hide CountRunning, CountHeld, Reserved, Positive, WaitersAgree;
    RousedRunning(l.phases, l.waiters, |l.phases|);
    forall user
      ensures CountHeld(WakeAll(l).phases, l.users, user) == CountHeld(l.phases, l.users, user)
    {
      RousedHeld(l.phases, l.users, l.waiters, |l.phases|, user);
    }
    hide Rouse;
  }

  lemma {:induction false} NobodyIsParked(l: Limits)
    requires WaitersAgree(l) && |l.phases| == |l.users|
    ensures WaitersAgree(WakeAll(l))
  {
    forall t: Turn
      ensures !Is(WakeAll(l), t, Parked)
    {
      assert t in l.waiters <==> Is(l, t, Parked);
    }
  }

  lemma {:induction false} WakeAllKeepsInv(l: Limits)
    requires Counted(l) && WaitersAgree(l) && l.active <= l.maxConcurrent
    requires l.perUser > 0 ==> forall user :: Reserved(l.reserved, user) <= l.perUser
    ensures Inv(WakeAll(l))
  {
    WakeAllCounts(l);
    NobodyIsParked(l);
    hide Counted, WaitersAgree, Rouse, Reserved;
  }

  lemma {:induction false} FinishFrees(l: Limits, t: Turn)
    requires Inv(l) && Is(l, t, Running)
    ensures var freed := l.(active := l.active - 1, reserved := Unreserve(l.reserved, l.users[t]), phases := l.phases[t := Finished]);
            Counted(freed) && WaitersAgree(freed) && (l.perUser > 0 ==> forall user :: Reserved(freed.reserved, user) <= l.perUser)
  {
    RunningUpdate(l.phases, t, Finished);
    forall user
      ensures CountHeld(l.phases[t := Finished], l.users, user)
           == CountHeld(l.phases, l.users, user) - if l.users[t] == user then 1 else 0
    {
      HeldUpdate(l.phases, l.users, t, Finished, user);
    }
    hide CountRunning, CountHeld, Reserved, Unreserve;
    UnreserveCounts(l.reserved, l.users[t]);
  }

  lemma {:induction false} FinishKeepsInv(l: Limits, t: Turn)
    requires Inv(l) && Is(l, t, Running)
    ensures Inv(Step(l, Finish(t)))
  {
    FinishFrees(l, t);
    hide Counted, WaitersAgree, WakeAll, Unreserve, Reserved;
    WakeAllKeepsInv(l.(active := l.active - 1, reserved := Unreserve(l.reserved, l.users[t]), phases := l.phases[t := Finished]));
  }

  lemma {:induction false} StepKeepsInv(l: Limits, e: Event)
    requires Inv(l)
    ensures Inv(Step(l, e))
  {
    hide CountRunning, CountHeld, Admit, Enter, WakeAll, Counted;
    match e
    case Begin(user) => BeginKeepsInv(l, user);
    case Poll(t) =>
      if Is(l, t, Polling) {
        EnterKeepsInv(l, t);
      }
    case Resume(t) =>
      if Is(l, t, Roused) {
        ResumeKeepsInv(l, t);
      }
    case Finish(t) =>
      if Is(l, t, Running) {
        FinishKeepsInv(l, t);
      }
    case Stop => StopKeepsInv(l);
  }

  lemma {:induction false} ResumeKeepsInv(l: Limits, t: Turn)
    requires Inv(l) && Is(l, t, Roused)
    ensures Inv(Admit(l, t))
  {
    hide CountRunning, CountHeld, Admit;
    AdmitKeepsInv(l, t);
  }

  lemma {:induction false} StopKeepsInv(l: Limits)
    requires Inv(l)
    ensures Inv(Step(l, Stop))
  {
    hide CountRunning, CountHeld, WakeAll;
    WakeAllKeepsInv(l.(stopped := true));
  }

  /** Whatever the interleaving: running turns and reservations are counted exactly, neither
      limit is ever exceeded, and turns are parked only while every global place is taken. */
  lemma {:induction false} ExecuteKeepsInv(maxConcurrent: nat, perUser: nat, events: seq<Event>)
    ensures Inv(Execute(Idle(maxConcurrent, perUser), events))
  {
    if events != [] {
      ExecuteKeepsInv(maxConcurrent, perUser, events[..|events| - 1]);
      StepKeepsInv(Execute(Idle(maxConcurrent, perUser), events[..|events| - 1]), events[|events| - 1]);
    }
  }

  // ----- Consequences -----

  lemma {:induction false} SomeoneRuns(phases: seq<Phase>) returns (t: Turn)
    requires CountRunning(phases) > 0
    ensures t < |phases| && phases[t] == Running
  {
    if phases[|phases| - 1] == Running {
      t := |phases| - 1;
    } else {
      t := SomeoneRuns(phases[..|phases| - 1]);
    }
  }

  /** No wake-up is lost: a parked turn always has a running one whose end will rouse it. */
  lemma {:induction false} NeverStuck(l: Limits, t: Turn) returns (r: Turn)
    requires 0 < l.maxConcurrent && Inv(l) && Is(l, t, Parked)
    ensures Is(l, r, Running) && Is(Step(l, Finish(r)), t, Roused)
  {
    assert t in l.waiters;
    r := SomeoneRuns(l.phases);
    hide CountRunning, CountHeld, Reserved, Unreserve, Positive;
  }

  lemma {:induction false} NothingHeld(phases: seq<Phase>, users: seq<User>, user: User)
    requires |phases| <= |users| && forall t :: 0 <= t < |phases| ==> phases[t] == Finished || phases[t] == Polling
    ensures CountHeld(phases, users, user) == 0 && CountRunning(phases) == 0
  {
    if phases != [] {
      NothingHeld(phases[..|phases| - 1], users, user);
    }
  }

  /** Nothing leaks: when no turn is under way, both counters are back at nothing. */
  lemma {:induction false} AllPlacesReturn(l: Limits)
    requires Inv(l) && forall t :: 0 <= t < |l.phases| ==> l.phases[t] == Finished || l.phases[t] == Polling
    ensures l.active == 0 && l.reserved == map[]
  {
    forall user
      ensures Reserved(l.reserved, user) == 0
    {
      NothingHeld(l.phases, l.users, user);
    }
    NothingHeld(l.phases, l.users, 0);
    hide CountRunning, CountHeld;
    forall user
      ensures user !in l.reserved
    {
      assert Reserved(l.reserved, user) == 0;
    }
  }

  /** Once stopped, no turn starts to run. */
  lemma {:induction false} StoppedStartsNothing(l: Limits, e: Event, t: Turn)
    requires Inv(l) && l.stopped && Is(Step(l, e), t, Running)
    ensures Step(l, e).stopped && Is(l, t, Running)
  {
    hide CountRunning, CountHeld, Reserved, Unreserve, Positive, WaitersAgree;
  }

  // ----- The limits in terms of the turns alone -----

  function Runners(phases: seq<Phase>, n: nat): set<Turn>
    requires n <= |phases|
  {
    set t: nat | 0 <= t < n && phases[t] == Running
  }

  /** The turns of a user that hold a reservation. */
  function HoldersOf(phases: seq<Phase>, users: seq<User>, n: nat, user: User): set<Turn>
    requires n <= |phases| <= |users|
  {
    set t: nat | 0 <= t < n && users[t] == user && (phases[t] == Parked || phases[t] == Roused || phases[t] == Running)
  }

  lemma {:induction false} RunningIsCounted(phases: seq<Phase>, n: nat)
    requires n <= |phases|
    ensures CountRunning(phases[..n]) == |Runners(phases, n)|
  {
    if n > 0 {
      RunningIsCounted(phases, n - 1);
      assert phases[..n][..n - 1] == phases[..n - 1];
      assert Runners(phases, n) == if phases[n - 1] == Running then Runners(phases, n - 1) + {n - 1} else Runners(phases, n - 1);
    } else {
      assert phases[..0] == [];
    }
  }

  lemma {:induction false} HeldIsCounted(phases: seq<Phase>, users: seq<User>, n: nat, user: User)
    requires n <= |phases| <= |users|
    ensures CountHeld(phases[..n], users, user) == |HoldersOf(phases, users, n, user)|
  {
    if n > 0 {
      HeldIsCounted(phases, users, n - 1, user);
      assert phases[..n][..n - 1] == phases[..n - 1];
      assert HoldersOf(phases, users, n, user)
          == if Holds(phases[n - 1]) && users[n - 1] == user then HoldersOf(phases, users, n - 1, user) + {n - 1}
             else HoldersOf(phases, users, n - 1, user);
    } else {
      assert phases[..0] == [];
    }
  }

  /** What holds in every reachable state: the active count is that of the running turns and at most
      the global limit, a user's count is that of the turns holding a reservation and at most the
      user's limit if there is one, and a turn is parked only while all places are taken. */
  lemma {:induction false} LimitsOnTurns(maxConcurrent: nat, perUser: nat, events: seq<Event>, user: User)
    ensures var l := Execute(Idle(maxConcurrent, perUser), events);
            && |l.phases| == |l.users| && l.maxConcurrent == maxConcurrent && l.perUser == perUser
            && l.active == |Runners(l.phases, |l.phases|)| <= maxConcurrent
            && (if user in l.reserved then l.reserved[user] else 0) == |HoldersOf(l.phases, l.users, |l.phases|, user)|
            && (perUser > 0 ==> |HoldersOf(l.phases, l.users, |l.phases|, user)| <= perUser)
            && (forall t: nat :: t in l.waiters <==> t < |l.phases| && l.phases[t] == Parked)
            && (l.waiters != {} ==> l.active == maxConcurrent && !l.stopped)
            && (l.stopped <==> Stop in events)
  {
    var l := Execute(Idle(maxConcurrent, perUser), events);
    ExecuteKeepsInv(maxConcurrent, perUser, events);
    StoppedByStop(maxConcurrent, perUser, events);
    LimitsStay(maxConcurrent, perUser, events);
    RunningIsCounted(l.phases, |l.phases|);
    HeldIsCounted(l.phases, l.users, |l.phases|, user);
    assert l.phases[..|l.phases|] == l.phases;
    hide Execute, CountRunning, CountHeld, Runners, HoldersOf;
    assert Reserved(l.reserved, user) == CountHeld(l.phases, l.users, user);
    forall t: nat
      ensures t in l.waiters <==> t < |l.phases| && l.phases[t] == Parked
    {
      assert t in l.waiters <==> Is(l, t, Parked);
    }
  }

  lemma {:induction false} LimitsStay(maxConcurrent: nat, perUser: nat, events: seq<Event>)
    ensures Execute(Idle(maxConcurrent, perUser), events).maxConcurrent == maxConcurrent
    ensures Execute(Idle(maxConcurrent, perUser), events).perUser == perUser
  {
    if events != [] {
      LimitsStay(maxConcurrent, perUser, events[..|events| - 1]);
      ExecuteKeepsInv(maxConcurrent, perUser, events[..|events| - 1]);
      hide Unreserve, Rouse;
    }
  }

  lemma {:induction false} StopStops(l: Limits, e: Event)
    ensures Step(l, e).stopped <==> l.stopped || e.Stop?
  {
    hide Unreserve, Rouse;
  }

  lemma {:induction false} StoppedByStop(maxConcurrent: nat, perUser: nat, events: seq<Event>)
    ensures Execute(Idle(maxConcurrent, perUser), events).stopped <==> Stop in events
  {
    hide Step;
    if events != [] {
      var n := |events| - 1;
      StoppedByStop(maxConcurrent, perUser, events[..n]);
      StopStops(Execute(Idle(maxConcurrent, perUser), events[..n]), events[n]);
      assert events == events[..n] + [events[n]];
    }
  }

  /** A turn that begins, or polls again: given up when stopped; asleep while its user has no room;
      otherwise it takes a reservation, and parks while every place is taken, or runs. */
  lemma {:induction false} EntryOnTurns(l: Limits, t: Turn, e: Event, user: User)
    requires |l.phases| == |l.users|
    requires (e == Begin(user) && t == |l.phases|)
             || (e == Poll(t) && t < |l.phases| && l.phases[t] == Polling && user == l.users[t])
    ensures var held := if user in l.reserved then l.reserved[user] else 0; var m := Step(l, e);
            var p := if l.stopped then Finished
                     else if l.perUser > 0 && held >= l.perUser then Polling
                     else if l.active >= l.maxConcurrent then Parked else Running;
            && m.phases == (if t < |l.phases| then l.phases[t := p] else l.phases + [p])
            && m.users == (if t < |l.phases| then l.users else l.users + [user])
            && m.active == (if p == Running then l.active + 1 else l.active)
            && m.reserved == (if p == Parked || p == Running then l.reserved[user := held + 1] else l.reserved)
            && m.waiters == (if p == Parked then l.waiters + {t} else l.waiters)
            && m.stopped == l.stopped && m.maxConcurrent == l.maxConcurrent && m.perUser == l.perUser
  {
    hide Unreserve;
    assert forall p :: (l.phases + [Polling])[|l.phases| := p] == l.phases + [p];
  }

  /** A roused turn parks again, runs, or, when stopped, gives up and returns its reservation. */
  lemma {:induction false} ResumeOnTurns(l: Limits, t: Turn)
    requires |l.phases| == |l.users| && t < |l.phases| && l.phases[t] == Roused
    requires l.users[t] in l.reserved && l.reserved[l.users[t]] > 0
    ensures var held := l.reserved[l.users[t]]; var m := Step(l, Resume(t));
            var p := if l.stopped then Finished else if l.active >= l.maxConcurrent then Parked else Running;
            && m.phases == l.phases[t := p] && m.users == l.users && m.stopped == l.stopped
            && m.active == (if p == Running then l.active + 1 else l.active)
            && m.waiters == (if p == Parked then l.waiters + {t} else l.waiters)
            && m.reserved == (if p != Finished then l.reserved
                              else if held > 1 then l.reserved[l.users[t] := held - 1] else l.reserved - {l.users[t]})
  {
  }

  /** The end of a running turn frees its place and reservation and rouses every parked turn; so
      does stopping, without freeing anything. */
  lemma {:induction false} EndOnTurns(l: Limits, t: Turn, e: Event, u: Turn)
    requires Inv(l) && t < |l.phases| && l.phases[t] == Running && u < |l.phases|
    requires l.users[t] in l.reserved && l.reserved[l.users[t]] > 0
    requires e == Finish(t) || e == Stop
    ensures var held := l.reserved[l.users[t]]; var m := Step(l, e);
            && |m.phases| == |l.phases| && m.users == l.users && m.waiters == {}
            && m.phases[u] == (if e == Finish(t) && u == t then Finished else if l.phases[u] == Parked then Roused else l.phases[u])
            && m.active == (if e == Stop then l.active else l.active - 1)
            && m.stopped == (l.stopped || e == Stop)
            && m.reserved == (if e == Stop then l.reserved
                              else if held > 1 then l.reserved[l.users[t] := held - 1] else l.reserved - {l.users[t]})
  {
    assert u in l.waiters <==> Is(l, u, Parked);
    assert t in l.waiters <==> Is(l, t, Parked);
    hide CountRunning, CountHeld, Positive;
  }

  // ----- The object -----

  class TurnLimiter {
    const maxConcurrent: nat
    const perUser: nat
    var active: int
    var reserved: map<User, int>
    var waiters: set<Turn>
    var stopped: bool
    var phases: seq<Phase>
    var users: seq<User>

    function View(): Limits
      reads this
    {
      Limits(maxConcurrent, perUser, active, reserved, waiters, stopped, phases, users)
    }

    constructor (maxConcurrent: nat, perUser: nat)
      ensures View() == Idle(maxConcurrent, perUser)
    {
      this.maxConcurrent, this.perUser := maxConcurrent, perUser;
      active, reserved, waiters, stopped, phases, users := 0, map[], {}, false, [], [];
    }

    method ReturnReservation(user: User)
      modifies `reserved
      ensures reserved == Unreserve(old(reserved), user)
    {
      var next := (if user in reserved then reserved[user] else 1) - 1;
      if next > 0 {
        reserved := reserved[user := next];
      } else {
        reserved := reserved - {user};
      }
    }

    /** The second loop of `process`, up to its next suspension. */
    method WaitForPlace(turn: Turn)
      requires turn < |phases| == |users|
      modifies this
      ensures View() == Admit(old(View()), turn)
    {
      if !stopped && active >= maxConcurrent {
        waiters := waiters + {turn};
        phases := phases[turn := Parked];
      } else if stopped {
        ReturnReservation(users[turn]);
        phases := phases[turn := Finished];
      } else {
        active := active + 1;
        phases := phases[turn := Running];
      }
    }

    /** The first loop of `process`, up to its next suspension. */
    method WaitForUser(turn: Turn)
      requires turn < |phases| == |users|
      modifies this
      ensures View() == Enter(old(View()), turn)
    {
      var user := users[turn];
      if !stopped && perUser > 0 && (if user in reserved then reserved[user] else 0) >= perUser {
        phases := phases[turn := Polling];
      } else if stopped {
        phases := phases[turn := Finished];
      } else {
        reserved := reserved[user := (if user in reserved then reserved[user] else 0) + 1];
        WaitForPlace(turn);
      }
    }

    method Begin(user: User) returns (turn: Turn)
      requires |phases| == |users|
      modifies this
      ensures View() == Step(old(View()), Event.Begin(user)) && turn == old(|phases|)
    {
      turn := |phases|;
      phases, users := phases + [Polling], users + [user];
      WaitForUser(turn);
    }

    method Poll(turn: Turn)
      modifies this
      ensures View() == Step(old(View()), Event.Poll(turn))
    {
      if turn < |phases| == |users| && phases[turn] == Polling {
        WaitForUser(turn);
      }
    }

    method Resume(turn: Turn)
      modifies this
      ensures View() == Step(old(View()), Event.Resume(turn))
    {
      if turn < |phases| == |users| && phases[turn] == Roused {
        WaitForPlace(turn);
      }
    }

    method WakeWaiters()
      modifies this
      ensures View() == WakeAll(old(View()))
    {
      phases := Rouse(phases, waiters, |phases|);
      waiters := {};
    }

    /** The `finally` block of `process`. */
    method Finish(turn: Turn)
      modifies this
      ensures View() == Step(old(View()), Event.Finish(turn))
    {
      if turn < |phases| == |users| && phases[turn] == Running {
        phases := phases[turn := Finished];
        active := active - 1;
        ReturnReservation(users[turn]);
        WakeWaiters();
      }
    }

    method Stop()
      modifies this
      ensures View() == Step(old(View()), Event.Stop)
    {
      stopped := true;
      WakeWaiters();
    }
  }
}
