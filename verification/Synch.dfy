/** Semaphores and locks (src/threads/synch.c) over the scheduler's lists
    (src/threads/thread.c), as interleaved steps.  A step is what runs with interrupts off;
    between steps any thread may be preempted and interrupt handlers may run. */
module Synch {
  import opened Basics

  /** What a thread is in the middle of. */
  datatype Pc =
    | Free
    | Downing(sema: nat)    // in sema_down's loop
    | Claiming(lock: nat)   // sema_down returned, lock->holder not yet set
    | Dropping(lock: nat)   // lock->holder cleared, sema_up not yet called

  datatype Status = Running | Ready | Blocked

  datatype Sema = Sema(value: nat, waiters: seq<nat>)

  datatype Holder = Nobody | Held(thread: nat)

  datatype Cpu = Idling | On(thread: nat)

  /** The locks are the semaphores that holder lists. */
  datatype System = System(
    semas: map<nat, Sema>,
    holder: map<nat, Holder>,
    pc: map<nat, Pc>,
    status: map<nat, Status>,
    ready: seq<nat>,
    current: Cpu)

  // ---- scheduling -----------------------------------------------------------------------------

  /** schedule, once the current thread has left: the front of the ready list runs next, or
      the idle thread. */
  function Schedule(st: System): System {
    if st.ready == [] then st.(current := Idling)
    else st.(ready := st.ready[1..], current := On(st.ready[0]), status := st.status[st.ready[0] := Running])
  }

  /** thread_unblock, and what thread_yield does before it schedules. */
  function MakeReady(st: System, t: nat): System {
    st.(ready := st.ready + [t], status := st.status[t := Ready])
  }

  // ---- semaphores -----------------------------------------------------------------------------

  /** sema_down's loop finds the value zero: wait. */
  function Wait(st: System, t: nat, s: nat): System
    requires s in st.semas
  {
    Schedule(st.(semas := st.semas[s := st.semas[s].(waiters := st.semas[s].waiters + [t])],
                 pc := st.pc[t := Downing(s)], status := st.status[t := Blocked]))
  }

  /** sema_down's loop, or sema_try_down, finds it positive: take one.  A lock is then still
      to be claimed. */
  function Take(st: System, t: nat, s: nat): System
    requires s in st.semas && st.semas[s].value > 0
  {
    st.(semas := st.semas[s := st.semas[s].(value := st.semas[s].value - 1)],
        pc := st.pc[t := if s in st.holder then Claiming(s) else Free])
  }

  /** One turn of sema_down's loop. */
  function DownTurn(st: System, t: nat, s: nat): System
    requires s in st.semas
  {
    if st.semas[s].value == 0 then Wait(st, t, s) else Take(st, t, s)
  }

  /** sema_up: wake the first waiter, if any, and increment. */
  function Up(st: System, s: nat): System
    requires s in st.semas
  {
    var sema := st.semas[s];
    var st1 := st.(semas := st.semas[s := Sema(sema.value + 1, if sema.waiters == [] then [] else sema.waiters[1..])]);
    if sema.waiters == [] then st1 else MakeReady(st1, sema.waiters[0])
  }

  // ---- steps ----------------------------------------------------------------------------------

  datatype Step =
    | Down(s: nat)          // sema_down
    | TryDown(s: nat)       // sema_try_down
    | UpBy(s: nat)          // sema_up by a thread
    | UpInterrupt(s: nat)   // sema_up by an interrupt handler
    | Resume                // a thread scheduled inside sema_down goes on with the loop
    | Preempt               // thread_yield
    | Dispatch              // the idle thread lets a ready thread run
    | Spawn(t: nat)         // thread_create
    | Acquire(l: nat)       // lock_acquire, up to the end of sema_down's first turn
    | TryAcquire(l: nat)    // lock_try_acquire, up to the end of sema_try_down
    | Claim                 // lock->holder = thread_current ()
    | Release(l: nat)       // lock->holder = NULL
    | Drop                  // the sema_up of lock_release

  /** The pc of the running thread. */
  function Doing(st: System): Pc
    requires st.current.On? && st.current.thread in st.pc
  {
    st.pc[st.current.thread]
  }

  predicate Acting(st: System) {
    st.current.On? && st.current.thread in st.pc
  }

  /** Locks are used through the lock functions only, by the assertions those make. */
  predicate Enabled(st: System, step: Step) {
    match step
    case Down(s) => s in st.semas && s !in st.holder && Acting(st) && Doing(st) == Free
    case TryDown(s) => s in st.semas && s !in st.holder && Acting(st) && Doing(st) == Free
    case UpBy(s) => s in st.semas && s !in st.holder && Acting(st) && Doing(st) == Free
    case UpInterrupt(s) => s in st.semas && s !in st.holder && (Acting(st) ==> !Doing(st).Downing?)
    case Resume => Acting(st) && Doing(st).Downing?
    case Preempt => Acting(st) && !Doing(st).Downing?
    case Dispatch => st.current == Idling
    case Spawn(t) => t !in st.pc
    case Acquire(l) => l in st.holder && Acting(st) && Doing(st) == Free && st.holder[l] != Held(st.current.thread)
    case TryAcquire(l) => l in st.holder && Acting(st) && Doing(st) == Free && st.holder[l] != Held(st.current.thread)
    case Claim => Acting(st) && Doing(st).Claiming?
    case Release(l) => l in st.holder && Acting(st) && Doing(st) == Free && st.holder[l] == Held(st.current.thread)
    case Drop => Acting(st) && Doing(st).Dropping?
  }

  // ---- invariants -----------------------------------------------------------------------------

  /** The pcs refer to semaphores and locks that exist. */
  ghost predicate PcsOk(pc: map<nat, Pc>, semas: map<nat, Sema>, holder: map<nat, Holder>) {
    && (forall t | t in pc :: match pc[t]
          case Free => true
          case Downing(s) => s in semas
          case Claiming(l) => l in holder
          case Dropping(l) => l in holder)
    && (forall l | l in holder :: l in semas && (holder[l].Held? ==> holder[l].thread in pc))
  }

  /** The ready list holds exactly the ready threads, once each. */
  ghost predicate ReadyOk(ready: seq<nat>, status: map<nat, Status>) {
    && NoDuplicates(ready)
    && (forall t | t in ready :: t in status && status[t] == Ready)
    && (forall t | t in status && status[t] == Ready :: t in ready)
  }

  /** Every waiters list holds exactly the blocked threads in a sema_down of it, once each. */
  ghost predicate WaitersOk(semas: map<nat, Sema>, pc: map<nat, Pc>, status: map<nat, Status>) {
    && pc.Keys == status.Keys
    && (forall s | s in semas :: NoDuplicates(semas[s].waiters))
    && (forall s, t | s in semas && t in semas[s].waiters ::
       t in pc && t in status && status[t] == Blocked && pc[t] == Downing(s))
    && (forall t | t in status && status[t] == Blocked :: t in pc && pc[t].Downing? && InWaiters(semas, pc[t].sema, t))
  }

  predicate InWaiters(semas: map<nat, Sema>, s: nat, t: nat) {
    s in semas && t in semas[s].waiters
  }

  ghost predicate CurrentOk(current: Cpu, status: map<nat, Status>) {
    && (current.On? ==> current.thread in status && status[current.thread] == Running)
    && (forall t | t in status && status[t] == Running :: current == On(t))
  }

  /** Threads that sema_up has popped but that are not yet back in sema_down's loop. */
  ghost function Woken(semas: map<nat, Sema>, pc: map<nat, Pc>, s: nat): set<nat> {
    set t | t in pc && pc[t] == Downing(s) && !InWaiters(semas, s, t)
  }

  /** No lost wakeup. */
  ghost predicate WakeupsOk(semas: map<nat, Sema>, pc: map<nat, Pc>) {
    forall s | s in semas :: semas[s].waiters != [] ==> semas[s].value <= |Woken(semas, pc, s)|
  }

  /** Threads between the sema_down and the sema_up of a lock. */
  ghost function Owners(holder: map<nat, Holder>, pc: map<nat, Pc>, l: nat): set<nat> {
    set t | t in pc && (pc[t] == Claiming(l) || pc[t] == Dropping(l) || (l in holder && holder[l] == Held(t)))
  }

  /** A lock's semaphore and its owners share one unit, and a thread is an owner in one way only. */
  ghost predicate LocksOk(semas: map<nat, Sema>, holder: map<nat, Holder>, pc: map<nat, Pc>) {
    && (forall l | l in holder :: l in semas && semas[l].value + |Owners(holder, pc, l)| == 1)
    && (forall l, t | l in holder && t in pc && holder[l] == Held(t) ::
       pc[t] != Claiming(l) && pc[t] != Dropping(l) && pc[t] != Downing(l))
  }

  ghost predicate Inv(st: System) {
    && PcsOk(st.pc, st.semas, st.holder)
    && ReadyOk(st.ready, st.status)
    && WaitersOk(st.semas, st.pc, st.status)
    && CurrentOk(st.current, st.status)
    && WakeupsOk(st.semas, st.pc)
    && LocksOk(st.semas, st.holder, st.pc)
  }

  // ---- the step function ------------------------------------------------------------------------

  function Next(st: System, step: Step): System
    requires PcsOk(st.pc, st.semas, st.holder) && Enabled(st, step)
  {
    match step
    case Down(s) => DownTurn(st, st.current.thread, s)
    case TryDown(s) => if st.semas[s].value > 0 then Take(st, st.current.thread, s) else st
    case UpBy(s) => Up(st, s)
    case UpInterrupt(s) => Up(st, s)
    case Resume => DownTurn(st, st.current.thread, Doing(st).sema)
    case Preempt => Schedule(MakeReady(st, st.current.thread))
    case Dispatch => Schedule(st)
    case Spawn(t) => MakeReady(st.(pc := st.pc[t := Free]), t)
    case Acquire(l) => DownTurn(st, st.current.thread, l)
    case TryAcquire(l) => if st.semas[l].value > 0 then Take(st, st.current.thread, l) else st
    case Claim => st.(holder := st.holder[Doing(st).lock := Held(st.current.thread)],
        pc := st.pc[st.current.thread := Free])
    case Release(l) => st.(holder := st.holder[l := Nobody], pc := st.pc[st.current.thread := Dropping(l)])
    case Drop => Up(st.(pc := st.pc[st.current.thread := Free]), Doing(st).lock)
  }

  // ---- preservation -----------------------------------------------------------------------------

  /** Everything but CurrentOk, with no thread running. */
  ghost predicate Switching(st: System) {
    && PcsOk(st.pc, st.semas, st.holder)
    && ReadyOk(st.ready, st.status)
    && WaitersOk(st.semas, st.pc, st.status)
    && WakeupsOk(st.semas, st.pc)
    && LocksOk(st.semas, st.holder, st.pc)
    && (forall t | t in st.status :: st.status[t] != Running)
  }

  lemma PopReady(ready: seq<nat>, status: map<nat, Status>)
    requires ReadyOk(ready, status) && ready != []
    ensures ready[0] in status && ReadyOk(ready[1..], status[ready[0] := Running])
  {
    assert ready[0] in ready && ready[0] !in ready[1..];
    assert forall t | t in ready :: t == ready[0] || t in ready[1..];
  }

  /** Waiters lists do not notice a thread that is not blocked. */
  lemma WaitersIgnore(semas: map<nat, Sema>, pc: map<nat, Pc>, status: map<nat, Status>, t: nat, x: Status)
    requires WaitersOk(semas, pc, status) && t in status && status[t] != Blocked && x != Blocked
    ensures WaitersOk(semas, pc, status[t := x])
  {
  }

  lemma ScheduleKeeps(st: System)
    requires Switching(st)
    ensures Inv(Schedule(st))
  {
    hide PcsOk, WakeupsOk, LocksOk, WaitersOk;
    if st.ready != [] {
      PopReady(st.ready, st.status);
      WaitersIgnore(st.semas, st.pc, st.status, st.ready[0], Running);
    }
  }

  /** The running thread may call sema_down on s, or is in it. */
  predicate MayDown(st: System, t: nat, s: nat) {
    && s in st.semas && st.current == On(t) && t in st.pc && t in st.status && st.status[t] == Running
    && (st.pc[t] == Free || st.pc[t] == Downing(s))
    && (s in st.holder ==> st.holder[s] != Held(t))
  }

  lemma WaitingLists(semas: map<nat, Sema>, pc: map<nat, Pc>, status: map<nat, Status>, t: nat, s: nat)
    requires WaitersOk(semas, pc, status) && s in semas && t in status && status[t] == Running
    ensures WaitersOk(semas[s := semas[s].(waiters := semas[s].waiters + [t])], pc[t := Downing(s)],
            status[t := Blocked])
  {
  }

  lemma WaitingWakeups(semas: map<nat, Sema>, pc: map<nat, Pc>, t: nat, s: nat)
    requires WakeupsOk(semas, pc) && s in semas && semas[s].value == 0 && t in pc
             && (pc[t] == Free || pc[t] == Downing(s))
    ensures WakeupsOk(semas[s := semas[s].(waiters := semas[s].waiters + [t])], pc[t := Downing(s)])
  {
    var semas', pc' := semas[s := semas[s].(waiters := semas[s].waiters + [t])], pc[t := Downing(s)];
    forall r | r in semas' ensures semas'[r].waiters != [] ==> semas'[r].value <= |Woken(semas', pc', r)| {
      if r != s {
        assert Woken(semas', pc', r) == Woken(semas, pc, r);
      }
    }
  }

  lemma WaitingLocks(semas: map<nat, Sema>, holder: map<nat, Holder>, pc: map<nat, Pc>, t: nat, s: nat, sema: Sema)
    requires LocksOk(semas, holder, pc) && s in semas && sema.value == semas[s].value && t in pc
             && (pc[t] == Free || pc[t] == Downing(s))
    requires s in holder ==> holder[s] != Held(t)
    ensures LocksOk(semas[s := sema], holder, pc[t := Downing(s)])
  {
    forall l | l in holder ensures Owners(holder, pc[t := Downing(s)], l) == Owners(holder, pc, l) {
    }
  }

  lemma WaitKeeps(st: System, t: nat, s: nat)
    requires Inv(st) && MayDown(st, t, s) && st.semas[s].value == 0
    ensures Inv(Wait(st, t, s))
  {
    hide WaitersOk, WakeupsOk, LocksOk, Schedule;
    WaitingLists(st.semas, st.pc, st.status, t, s);
    WaitingWakeups(st.semas, st.pc, t, s);
    WaitingLocks(st.semas, st.holder, st.pc, t, s, st.semas[s].(waiters := st.semas[s].waiters + [t]));
    ScheduleKeeps(st.(semas := st.semas[s := st.semas[s].(waiters := st.semas[s].waiters + [t])],
                      pc := st.pc[t := Downing(s)], status := st.status[t := Blocked]));
  }

  lemma AtMostOneLess(a: set<nat>, b: set<nat>, t: nat)
    requires a <= b + {t}
    ensures |a| <= |b| + 1
  {
    SubsetSize(a, b + {t});
  }

  lemma TakeLists(semas: map<nat, Sema>, pc: map<nat, Pc>, status: map<nat, Status>, t: nat, s: nat, v: nat, c: Pc)
    requires WaitersOk(semas, pc, status) && s in semas && t in status && status[t] == Running
    ensures WaitersOk(semas[s := semas[s].(value := v)], pc[t := c], status)
  {
  }

  lemma TakeWakeups(semas: map<nat, Sema>, pc: map<nat, Pc>, status: map<nat, Status>, t: nat, s: nat, c: Pc)
    requires WakeupsOk(semas, pc) && s in semas && semas[s].value > 0 && t in pc
             && (pc[t] == Free || pc[t] == Downing(s)) && !c.Downing?
    ensures WakeupsOk(semas[s := semas[s].(value := semas[s].value - 1)], pc[t := c])
  {
    var semas', pc' := semas[s := semas[s].(value := semas[s].value - 1)], pc[t := c];
    forall r | r in semas' ensures semas'[r].waiters != [] ==> semas'[r].value <= |Woken(semas', pc', r)| {
      if r == s {
        AtMostOneLess(Woken(semas, pc, s), Woken(semas', pc', s), t);
      } else {
        assert Woken(semas', pc', r) == Woken(semas, pc, r);
      }
    }
  }

  lemma TakeLocks(semas: map<nat, Sema>, holder: map<nat, Holder>, pc: map<nat, Pc>, t: nat, s: nat)
    requires LocksOk(semas, holder, pc) && s in semas && semas[s].value > 0 && t in pc
             && (pc[t] == Free || pc[t] == Downing(s))
    requires s in holder ==> holder[s] != Held(t)
    ensures LocksOk(semas[s := semas[s].(value := semas[s].value - 1)], holder, Taken(holder, pc, t, s))
  {
    hide Owners;
    var pc' := Taken(holder, pc, t, s);
    forall l | l in holder
      ensures Owners(holder, pc', l) == if l == s then Owners(holder, pc, l) + {t} else Owners(holder, pc, l)
    {
      TakeOwners(holder, pc, t, s, l);
    }
    if s in holder {
      assert Owners(holder, pc, s) == {};
    }
  }

  /** Where the threads are once t has taken a unit of s, perhaps that of a lock. */
  ghost function Taken(holder: map<nat, Holder>, pc: map<nat, Pc>, t: nat, s: nat): map<nat, Pc> {
    pc[t := if s in holder then Claiming(s) else Free]
  }

  lemma TakeOwners(holder: map<nat, Holder>, pc: map<nat, Pc>, t: nat, s: nat, l: nat)
    requires t in pc && (pc[t] == Free || pc[t] == Downing(s)) && l in holder
    requires s in holder ==> holder[s] != Held(t)
    ensures Owners(holder, Taken(holder, pc, t, s), l) ==
            if l == s then Owners(holder, pc, l) + {t} else Owners(holder, pc, l)
  {
  }

  lemma TakeKeeps(st: System, t: nat, s: nat)
    requires Inv(st) && MayDown(st, t, s) && st.semas[s].value > 0
    ensures Inv(Take(st, t, s))
  {
    hide WaitersOk, WakeupsOk, LocksOk, ReadyOk, CurrentOk, PcsOk;
    var c := if s in st.holder then Claiming(s) else Free;
    TakeLists(st.semas, st.pc, st.status, t, s, st.semas[s].value - 1, c);
    TakeWakeups(st.semas, st.pc, st.status, t, s, c);
    TakeLocks(st.semas, st.holder, st.pc, t, s);
    TakePcs(st.pc, st.semas, st.holder, t, s, c, st.semas[s].(value := st.semas[s].value - 1));
  }

  lemma TakePcs(pc: map<nat, Pc>, semas: map<nat, Sema>, holder: map<nat, Holder>, t: nat, s: nat, c: Pc, sema: Sema)
    requires PcsOk(pc, semas, holder) && s in semas && t in pc && (c == Free || (c == Claiming(s) && s in holder))
    ensures PcsOk(pc[t := c], semas[s := sema], holder)
  {
  }

  lemma DownKeeps(st: System, t: nat, s: nat)
    requires Inv(st) && MayDown(st, t, s)
    ensures Inv(DownTurn(st, t, s))
  {
    hide Inv, Wait, Take;
    if st.semas[s].value == 0 {
      WaitKeeps(st, t, s);
    } else {
      TakeKeeps(st, t, s);
    }
  }

  // ---- waking up ---------------------------------------------------------------------------------

  /** The front of a waiters list, and the rest. */
  lemma Front(w: seq<nat>)
    requires NoDuplicates(w) && w != []
    ensures w[0] in w && w[0] !in w[1..] && NoDuplicates(w[1..])
    ensures forall t | t in w :: t == w[0] || t in w[1..]
    ensures forall t | t in w[1..] :: t in w
  {
  }

  /** sema_up's effect on one semaphore. */
  function Upped(sema: Sema): Sema {
    Sema(sema.value + 1, if sema.waiters == [] then [] else sema.waiters[1..])
  }

  lemma UpNobody(semas: map<nat, Sema>, pc: map<nat, Pc>, status: map<nat, Status>, s: nat)
    requires WaitersOk(semas, pc, status) && WakeupsOk(semas, pc) && s in semas && semas[s].waiters == []
    ensures WaitersOk(semas[s := Upped(semas[s])], pc, status) && WakeupsOk(semas[s := Upped(semas[s])], pc)
  {
    var semas' := semas[s := Upped(semas[s])];
    forall r | r in semas' ensures semas'[r].waiters != [] ==> semas'[r].value <= |Woken(semas', pc, r)| {
      assert Woken(semas', pc, r) == Woken(semas, pc, r);
    }
  }

  lemma UpWaiters(semas: map<nat, Sema>, pc: map<nat, Pc>, status: map<nat, Status>, s: nat)
    requires WaitersOk(semas, pc, status) && s in semas && semas[s].waiters != []
    ensures WaitersOk(semas[s := Upped(semas[s])], pc, status[semas[s].waiters[0] := Ready])
  {
    hide NoDuplicates;
    var semas', w := semas[s := Upped(semas[s])], semas[s].waiters;
    var status' := status[w[0] := Ready];
    Front(w);
    forall r, t | r in semas' && t in semas'[r].waiters
      ensures t in pc && t in status' && status'[t] == Blocked && pc[t] == Downing(r)
    {
      StillWaits(semas, pc, status, s, r, t);
    }
    forall t | t in status' && status'[t] == Blocked
      ensures t in pc && pc[t].Downing? && InWaiters(semas', pc[t].sema, t)
    {
      StillListed(semas, pc, status, s, t);
    }
  }

  lemma StillWaits(semas: map<nat, Sema>, pc: map<nat, Pc>, status: map<nat, Status>, s: nat, r: nat, t: nat)
    requires WaitersOk(semas, pc, status) && s in semas && semas[s].waiters != [] && r in semas
    requires t in (if r == s then semas[s].waiters[1..] else semas[r].waiters)
    ensures t in pc && t in status && t != semas[s].waiters[0] && status[t] == Blocked && pc[t] == Downing(r)
  {
    var w := semas[s].waiters;
    assert NoDuplicates(w) && w[0] in w;
    Front(w);
    assert t in semas[r].waiters;
  }

  lemma StillListed(semas: map<nat, Sema>, pc: map<nat, Pc>, status: map<nat, Status>, s: nat, t: nat)
    requires WaitersOk(semas, pc, status) && s in semas && semas[s].waiters != [] && t != semas[s].waiters[0]
    requires t in status && status[t] == Blocked
    ensures t in pc && pc[t].Downing? && InWaiters(semas[s := Upped(semas[s])], pc[t].sema, t)
  {
    Front(semas[s].waiters);
    assert InWaiters(semas, pc[t].sema, t);
  }

  /** The popped thread moves from the waiters to the woken. */
  lemma UpWakeups(semas: map<nat, Sema>, pc: map<nat, Pc>, status: map<nat, Status>, s: nat)
    requires WaitersOk(semas, pc, status) && WakeupsOk(semas, pc) && s in semas && semas[s].waiters != []
    ensures WakeupsOk(semas[s := Upped(semas[s])], pc)
  {
    var semas', w := semas[s := Upped(semas[s])], semas[s].waiters;
    Front(w);
    forall r | r in semas' ensures semas'[r].waiters != [] ==> semas'[r].value <= |Woken(semas', pc, r)| {
      if r == s {
        assert Woken(semas', pc, s) == Woken(semas, pc, s) + {w[0]};
      } else {
        assert Woken(semas', pc, r) == Woken(semas, pc, r);
      }
    }
  }

  lemma PushReady(ready: seq<nat>, status: map<nat, Status>, t: nat)
    requires ReadyOk(ready, status) && (t in status ==> status[t] != Ready)
    ensures ReadyOk(ready + [t], status[t := Ready])
  {
  }

  /** All of Inv but the locks. */
  ghost predicate InvBut(st: System) {
    && PcsOk(st.pc, st.semas, st.holder)
    && ReadyOk(st.ready, st.status)
    && WaitersOk(st.semas, st.pc, st.status)
    && CurrentOk(st.current, st.status)
    && WakeupsOk(st.semas, st.pc)
  }

  lemma SemaChanges(pc: map<nat, Pc>, semas: map<nat, Sema>, holder: map<nat, Holder>, s: nat, sema: Sema)
    requires PcsOk(pc, semas, holder) && s in semas
    ensures PcsOk(pc, semas[s := sema], holder)
  {
  }

  lemma UpKeepsMost(st: System, s: nat)
    requires InvBut(st) && s in st.semas
    ensures InvBut(Up(st, s)) && Up(st, s).semas == st.semas[s := Upped(st.semas[s])]
  {
    hide WakeupsOk, ReadyOk, NoDuplicates, PcsOk;
    var w := st.semas[s].waiters;
    SemaChanges(st.pc, st.semas, st.holder, s, Upped(st.semas[s]));
    if w == [] {
      UpNobody(st.semas, st.pc, st.status, s);
    } else {
      UpWaiters(st.semas, st.pc, st.status, s);
      UpWakeups(st.semas, st.pc, st.status, s);
      Front(w);
      PushReady(st.ready, st.status, w[0]);
    }
  }

  lemma UpLocks(semas: map<nat, Sema>, holder: map<nat, Holder>, pc: map<nat, Pc>, s: nat, sema: Sema)
    requires LocksOk(semas, holder, pc) && s !in holder
    ensures LocksOk(semas[s := sema], holder, pc)
  {
  }

  lemma UpKeeps(st: System, s: nat)
    requires Inv(st) && s in st.semas && s !in st.holder
    ensures Inv(Up(st, s))
  {
    hide PcsOk, ReadyOk, WaitersOk, CurrentOk, WakeupsOk, LocksOk, Upped;
    UpKeepsMost(st, s);
    UpLocks(st.semas, st.holder, st.pc, s, Upped(st.semas[s]));
  }

  // ---- locks -------------------------------------------------------------------------------------

  /** Lists and wakeups do not notice the running thread's other business. */
  lemma PcChanges(semas: map<nat, Sema>, pc: map<nat, Pc>, status: map<nat, Status>, t: nat, c: Pc)
    requires WaitersOk(semas, pc, status) && WakeupsOk(semas, pc) && t in status && status[t] == Running
    requires !pc[t].Downing? && !c.Downing?
    ensures WaitersOk(semas, pc[t := c], status) && WakeupsOk(semas, pc[t := c])
  {
    forall s | s in semas ensures Woken(semas, pc[t := c], s) == Woken(semas, pc, s) {
    }
  }

  /** The owner of a lock is the only one. */
  lemma OnlyOwner(semas: map<nat, Sema>, holder: map<nat, Holder>, pc: map<nat, Pc>, l: nat, t: nat)
    requires LocksOk(semas, holder, pc) && l in holder && t in Owners(holder, pc, l)
    ensures Owners(holder, pc, l) == {t} && semas[l].value == 0
  {
    var o := Owners(holder, pc, l);
    assert o == (o - {t}) + {t};
    assert |o - {t}| == 0;
  }

  /** An owner stays the owner when the way it owns the lock changes. */
  lemma OwnerMoves(semas: map<nat, Sema>, holder: map<nat, Holder>, pc: map<nat, Pc>, l: nat, t: nat, h: Holder, c: Pc)
    requires LocksOk(semas, holder, pc) && l in holder && t in pc && t in Owners(holder, pc, l)
    requires pc[t] == Free || pc[t] == Claiming(l)
    requires (h == Held(t) && c == Free) || (h == Nobody && c == Dropping(l))
    ensures LocksOk(semas, holder[l := h], pc[t := c])
  {
    OnlyOwner(semas, holder, pc, l, t);
    var holder', pc' := holder[l := h], pc[t := c];
    forall k | k in holder' ensures Owners(holder', pc', k) == Owners(holder, pc, k) {
      if k == l {
        assert Owners(holder', pc', l) == {t};
      }
    }
  }

  lemma ClaimKeeps(st: System, t: nat, l: nat)
    requires Inv(st) && st.current == On(t) && t in st.pc && st.pc[t] == Claiming(l)
    ensures Inv(st.(holder := st.holder[l := Held(t)], pc := st.pc[t := Free]))
  {
    hide WaitersOk, WakeupsOk, LocksOk, ReadyOk;
    PcChanges(st.semas, st.pc, st.status, t, Free);
    OwnerMoves(st.semas, st.holder, st.pc, l, t, Held(t), Free);
  }

  lemma ReleaseKeeps(st: System, t: nat, l: nat)
    requires Inv(st) && st.current == On(t) && t in st.pc && st.pc[t] == Free && l in st.holder
             && st.holder[l] == Held(t)
    ensures Inv(st.(holder := st.holder[l := Nobody], pc := st.pc[t := Dropping(l)]))
  {
    hide WaitersOk, WakeupsOk, LocksOk, ReadyOk;
    PcChanges(st.semas, st.pc, st.status, t, Dropping(l));
    OwnerMoves(st.semas, st.holder, st.pc, l, t, Nobody, Dropping(l));
  }

  lemma DropLocks(semas: map<nat, Sema>, holder: map<nat, Holder>, pc: map<nat, Pc>, l: nat, t: nat, sema: Sema)
    requires LocksOk(semas, holder, pc) && l in holder && t in pc && pc[t] == Dropping(l)
             && sema.value == semas[l].value + 1
    ensures LocksOk(semas[l := sema], holder, pc[t := Free])
  {
    OnlyOwner(semas, holder, pc, l, t);
    var pc' := pc[t := Free];
    forall k | k in holder ensures Owners(holder, pc', k) == if k == l then {} else Owners(holder, pc, k) {
      if k == l {
        assert Owners(holder, pc', l) <= Owners(holder, pc, l);
      }
    }
  }

  lemma DropKeeps(st: System, t: nat, l: nat)
    requires Inv(st) && st.current == On(t) && t in st.pc && st.pc[t] == Dropping(l)
    ensures Inv(Up(st.(pc := st.pc[t := Free]), l))
  {
    hide WaitersOk, WakeupsOk, LocksOk, ReadyOk;
    PcChanges(st.semas, st.pc, st.status, t, Free);
    DropLocks(st.semas, st.holder, st.pc, l, t, Upped(st.semas[l]));
    UpKeepsMost(st.(pc := st.pc[t := Free]), l);
  }

  // ---- every step --------------------------------------------------------------------------------

  lemma PreemptKeeps(st: System, t: nat)
    requires Inv(st) && st.current == On(t) && t in st.pc
    ensures Inv(Schedule(MakeReady(st, t)))
  {
    hide PcsOk, WakeupsOk, LocksOk, ReadyOk, WaitersOk, Schedule;
    PushReady(st.ready, st.status, t);
    WaitersIgnore(st.semas, st.pc, st.status, t, Ready);
    ScheduleKeeps(MakeReady(st, t));
  }

  lemma SpawnKeeps(st: System, t: nat)
    requires Inv(st) && t !in st.pc
    ensures Inv(MakeReady(st.(pc := st.pc[t := Free]), t))
  {
    hide ReadyOk, LocksOk, WakeupsOk;
    PushReady(st.ready, st.status, t);
    SpawnCounts(st.semas, st.holder, st.pc, t);
  }

  lemma SpawnCounts(semas: map<nat, Sema>, holder: map<nat, Holder>, pc: map<nat, Pc>, t: nat)
    requires PcsOk(pc, semas, holder) && WakeupsOk(semas, pc) && LocksOk(semas, holder, pc) && t !in pc
    ensures WakeupsOk(semas, pc[t := Free]) && LocksOk(semas, holder, pc[t := Free])
  {
    var pc' := pc[t := Free];
    forall s | s in semas ensures Woken(semas, pc', s) == Woken(semas, pc, s) {
    }
    forall l | l in holder ensures Owners(holder, pc', l) == Owners(holder, pc, l) {
    }
  }

  /** A thread that is about to go down, or resumes, satisfies what sema_down relies on. */
  lemma CanDown(st: System, s: nat)
    requires Inv(st) && Acting(st) && s in st.semas && (Doing(st) == Free || Doing(st) == Downing(s))
    requires s in st.holder ==> Doing(st) == Downing(s) || st.holder[s] != Held(st.current.thread)
    ensures MayDown(st, st.current.thread, s)
  {
    hide ReadyOk, WaitersOk, WakeupsOk;
  }

  lemma InvPcs(st: System)
    requires Inv(st)
    ensures PcsOk(st.pc, st.semas, st.holder)
    ensures Acting(st) && Doing(st).Downing? ==> Doing(st).sema in st.semas
    ensures forall l | l in st.holder :: l in st.semas
  {
    hide ReadyOk, WaitersOk, WakeupsOk, LocksOk, CurrentOk;
  }

  /** Every step of every interleaving keeps the invariant. */
  lemma NextKeeps(st: System, step: Step)
    requires Inv(st) && Enabled(st, step)
    ensures Inv(Next(st, step))
  {
    hide Inv, DownTurn, Up, Schedule, MakeReady, Take;
    InvPcs(st);
    match step {
      case Down(s) => CanDown(st, s); DownKeeps(st, st.current.thread, s);
      case TryDown(s) => CanDown(st, s); if st.semas[s].value > 0 { TakeKeeps(st, st.current.thread, s); }
      case UpBy(s) => UpKeeps(st, s);
      case UpInterrupt(s) => UpKeeps(st, s);
      case Resume => CanDown(st, Doing(st).sema); DownKeeps(st, st.current.thread, Doing(st).sema);
      case Preempt => PreemptKeeps(st, st.current.thread);
      case Dispatch => DispatchKeeps(st);
      case Spawn(t) => SpawnKeeps(st, t);
      case Acquire(l) => CanDown(st, l); DownKeeps(st, st.current.thread, l);
      case TryAcquire(l) => CanDown(st, l); if st.semas[l].value > 0 { TakeKeeps(st, st.current.thread, l); }
      case Claim => ClaimKeeps(st, st.current.thread, Doing(st).lock);
      case Release(l) => ReleaseKeeps(st, st.current.thread, l);
      case Drop => DropKeeps(st, st.current.thread, Doing(st).lock);
    }
  }

  lemma DispatchKeeps(st: System)
    requires Inv(st) && st.current == Idling
    ensures Inv(Schedule(st))
  {
    hide PcsOk, ReadyOk, WaitersOk, WakeupsOk, LocksOk, Schedule;
    ScheduleKeeps(st);
  }

  // ---- runs --------------------------------------------------------------------------------------

  ghost predicate Possible(st: System, steps: seq<Step>)
    requires Inv(st)
    decreases |steps|
  {
    steps != [] ==>
      && Enabled(st, steps[0])
      && (InvPcs(st); NextKeeps(st, steps[0]); Possible(Next(st, steps[0]), steps[1..]))
  }

  /** The system after a run. */
  function After(st: System, steps: seq<Step>): (end: System)
    requires Inv(st) && Possible(st, steps)
    ensures Inv(end)
    decreases |steps|
  {
    if steps == [] then st
    else
      InvPcs(st);
      NextKeeps(st, steps[0]);
      After(Next(st, steps[0]), steps[1..])
  }

  /** Only the initial thread runs; semaphores have their initial values, locks value one. */
  ghost predicate Booted(st: System, main: nat) {
    && st.pc == map[main := Free] && st.status == map[main := Running] && st.ready == [] && st.current == On(main)
    && (forall s | s in st.semas :: st.semas[s].waiters == [])
    && (forall l | l in st.holder :: l in st.semas && st.holder[l] == Nobody && st.semas[l].value == 1)
  }

  lemma BootedOk(st: System, main: nat)
    requires Booted(st, main)
    ensures Inv(st)
  {
    assert forall l | l in st.holder :: Owners(st.holder, st.pc, l) == {};
  }

  ghost predicate RunFromBoot(st: System, main: nat, steps: seq<Step>) {
    Booted(st, main) && (BootedOk(st, main); Possible(st, steps))
  }

  /** Every state that a run from boot can reach satisfies the invariant. */
  function Reached(st: System, main: nat, steps: seq<Step>): (end: System)
    requires RunFromBoot(st, main, steps)
    ensures Inv(end)
  {
    BootedOk(st, main);
    After(st, steps)
  }

  // ---- what the steps of a run ask for -----------------------------------------------------------

  /** The semaphore that a step tries to take a unit of. */
  function Tries(st: System, step: Step): Option<nat>
    requires Enabled(st, step)
  {
    match step
    case Down(s) => Some(s)
    case TryDown(s) => Some(s)
    case Acquire(l) => Some(l)
    case TryAcquire(l) => Some(l)
    case Resume => Some(Doing(st).sema)
    case _ => None
  }

  /** The semaphore that a step gives a unit to. */
  function Raises(st: System, step: Step): Option<nat>
    requires Enabled(st, step)
  {
    match step
    case UpBy(s) => Some(s)
    case UpInterrupt(s) => Some(s)
    case Drop => Some(Doing(st).lock)
    case _ => None
  }

  predicate Gets(st: System, step: Step, s: nat)
    requires Enabled(st, step)
  {
    Tries(st, step) == Some(s) && s in st.semas && st.semas[s].value > 0
  }

  predicate Waits(st: System, step: Step, s: nat)
    requires Enabled(st, step)
  {
    Tries(st, step) == Some(s) && s in st.semas && st.semas[s].value == 0 && !step.TryDown? && !step.TryAcquire?
  }

  predicate Wakes(st: System, step: Step, s: nat)
    requires Enabled(st, step)
  {
    Raises(st, step) == Some(s) && s in st.semas && st.semas[s].waiters != []
  }

  /** The ups of s in a run, the downs of it that came through, and who had to wait, in order. */
  ghost function UpsIn(st: System, steps: seq<Step>, s: nat): nat
    requires Inv(st) && Possible(st, steps)
    decreases |steps|
  {
    if steps == [] then 0
    else
      InvPcs(st);
      NextKeeps(st, steps[0]);
      (if Raises(st, steps[0]) == Some(s) then 1 else 0) + UpsIn(Next(st, steps[0]), steps[1..], s)
  }

  ghost function DownsIn(st: System, steps: seq<Step>, s: nat): nat
    requires Inv(st) && Possible(st, steps)
    decreases |steps|
  {
    if steps == [] then 0
    else
      InvPcs(st);
      NextKeeps(st, steps[0]);
      (if Gets(st, steps[0], s) then 1 else 0) + DownsIn(Next(st, steps[0]), steps[1..], s)
  }

  ghost function Arrivals(st: System, steps: seq<Step>, s: nat): seq<nat>
    requires Inv(st) && Possible(st, steps)
    decreases |steps|
  {
    if steps == [] then []
    else
      InvPcs(st);
      NextKeeps(st, steps[0]);
      Arrives(st, steps[0], s) + Arrivals(Next(st, steps[0]), steps[1..], s)
  }

  function Arrives(st: System, step: Step, s: nat): seq<nat>
    requires Enabled(st, step)
  {
    if Waits(st, step, s) then [st.current.thread] else []
  }

  /** The ups of s that found somebody waiting. */
  ghost function WakeupsIn(st: System, steps: seq<Step>, s: nat): nat
    requires Inv(st) && Possible(st, steps)
    decreases |steps|
  {
    if steps == [] then 0
    else
      InvPcs(st);
      NextKeeps(st, steps[0]);
      (if Wakes(st, steps[0], s) then 1 else 0) + WakeupsIn(Next(st, steps[0]), steps[1..], s)
  }

  lemma TurnSema(st: System, t: nat, r: nat, s: nat)
    requires r in st.semas && s in st.semas
    ensures s in DownTurn(st, t, r).semas
    ensures var sema, sema' := st.semas[s], DownTurn(st, t, r).semas[s];
            if r != s then sema' == sema
            else if sema.value == 0 then sema' == Sema(0, sema.waiters + [t])
            else sema' == Sema(sema.value - 1, sema.waiters)
  {
  }

  lemma UpSema(st: System, r: nat, s: nat)
    requires r in st.semas && s in st.semas
    ensures s in Up(st, r).semas
    ensures var sema, sema' := st.semas[s], Up(st, r).semas[s];
            if r != s then sema' == sema
            else sema' == Sema(sema.value + 1, if sema.waiters == [] then [] else sema.waiters[1..])
  {
  }

  lemma SchedulingSemas(st: System, t: nat)
    ensures Schedule(st).semas == st.semas && MakeReady(st, t).semas == st.semas
  {
  }

  /** What a step does to a semaphore. */
  lemma StepSema(st: System, step: Step, s: nat)
    requires Inv(st) && Enabled(st, step) && s in st.semas
    ensures PcsOk(st.pc, st.semas, st.holder) && s in Next(st, step).semas
    ensures var sema, sema' := st.semas[s], Next(st, step).semas[s];
            && sema'.value + (if Gets(st, step, s) then 1 else 0)
               == sema.value + (if Raises(st, step) == Some(s) then 1 else 0)
            && sema'.waiters == (sema.waiters + Arrives(st, step, s))[if Wakes(st, step, s) then 1 else 0..]
  {
    hide Inv, PcsOk, DownTurn, Up, Schedule, MakeReady;
    InvPcs(st);
    var w := st.semas[s].waiters;
    assert w + [] == w && w[0..] == w && (forall t :: (w + [t])[0..] == w + [t]);
    match step {
      case Down(r) => TurnSema(st, st.current.thread, r, s);
      case Resume => TurnSema(st, st.current.thread, Doing(st).sema, s);
      case Acquire(l) => TurnSema(st, st.current.thread, l, s);
      case UpBy(r) => UpSema(st, r, s);
      case UpInterrupt(r) => UpSema(st, r, s);
      case Drop => DroppedLock(st); UpSema(st.(pc := st.pc[st.current.thread := Free]), Doing(st).lock, s);
      case Preempt => SchedulingSemas(st, st.current.thread); SchedulingSemas(MakeReady(st, st.current.thread), 0);
      case Dispatch => SchedulingSemas(st, 0);
      case Spawn(t) => SchedulingSemas(st.(pc := st.pc[t := Free]), t);
      case _ =>
    }
  }

  lemma DroppedLock(st: System)
    requires PcsOk(st.pc, st.semas, st.holder) && Acting(st) && Doing(st).Dropping?
    ensures Doing(st).lock in st.holder && Doing(st).lock in st.semas
  {
  }

  lemma QueueTwice(w: seq<nat>, a: seq<nat>, p: nat, b: seq<nat>, q: nat)
    requires p <= |w + a| && q <= |(w + a)[p..] + b|
    ensures p + q <= |w + (a + b)| && ((w + a)[p..] + b)[q..] == (w + (a + b))[p + q..]
  {
  }

  /** Over a run a semaphore's value is what it was, plus the ups, minus the downs that came
      through; and its waiters are those who had to wait, in order, without as many as have
      been woken. */
  lemma {:induction false} RunSema(st: System, steps: seq<Step>, s: nat)
    requires Inv(st) && Possible(st, steps) && s in st.semas
    ensures s in After(st, steps).semas
    ensures var sema, sema' := st.semas[s], After(st, steps).semas[s];
            && sema'.value + DownsIn(st, steps, s) == sema.value + UpsIn(st, steps, s)
            && WakeupsIn(st, steps, s) <= |sema.waiters + Arrivals(st, steps, s)|
            && sema'.waiters == (sema.waiters + Arrivals(st, steps, s))[WakeupsIn(st, steps, s)..]
    decreases |steps|
  {
    hide Inv, Next, Enabled, Gets, Raises, Wakes, Arrives;
    if steps != [] {
      InvPcs(st);
      NextKeeps(st, steps[0]);
      StepSema(st, steps[0], s);
      if Wakes(st, steps[0], s) { WakesOne(st, steps[0], s); }
      var st' := Next(st, steps[0]);
      RunSema(st', steps[1..], s);
      QueueTwice(st.semas[s].waiters, Arrives(st, steps[0], s), if Wakes(st, steps[0], s) then 1 else 0,
                 Arrivals(st', steps[1..], s), WakeupsIn(st', steps[1..], s));
    }
  }

  lemma WakesOne(st: System, step: Step, s: nat)
    requires Enabled(st, step) && Wakes(st, step, s)
    ensures s in st.semas && |st.semas[s].waiters| >= 1
  {
  }

  // ---- the ready list ----------------------------------------------------------------------------

  /** The threads that a step makes ready: the longest waiter, one that yields, a new one. */
  function Readies(st: System, step: Step): seq<nat>
    requires Enabled(st, step)
  {
    var s := Raises(st, step);
    if s.Some? then if Wakes(st, step, s.value) then [st.semas[s.value].waiters[0]] else []
    else if step.Preempt? then [st.current.thread]
    else if step.Spawn? then [step.t]
    else []
  }

  /** The running thread, or the idle one, gives up the processor. */
  predicate GivesWay(st: System, step: Step)
    requires Enabled(st, step)
  {
    step.Preempt? || step.Dispatch? || (Tries(st, step).Some? && Waits(st, step, Tries(st, step).value))
  }

  predicate Switches(st: System, step: Step)
    requires Enabled(st, step)
  {
    GivesWay(st, step) && st.ready + Readies(st, step) != []
  }

  /** What becomes of the ready list and the processor: the line as it is now, and whether the
      processor goes to its first thread. */
  ghost predicate Moved(st': System, line: seq<nat>, switch: bool, before: Cpu) {
    if !switch then st'.ready == line && st'.current == before
    else if line == [] then st'.ready == [] && st'.current == Idling
    else st'.ready == line[1..] && st'.current == On(line[0])
  }

  lemma TurnReady(st: System, t: nat, r: nat)
    requires r in st.semas
    ensures Moved(DownTurn(st, t, r), st.ready, st.semas[r].value == 0, st.current)
  {
  }

  lemma UpReady(st: System, r: nat)
    requires r in st.semas
    ensures var w := st.semas[r].waiters;
            Moved(Up(st, r), st.ready + if w == [] then [] else [w[0]], false, st.current)
  {
    assert st.ready + [] == st.ready;
  }

  lemma SchedulingReady(st: System, t: nat)
    ensures Moved(Schedule(st), st.ready, true, st.current)
    ensures Moved(MakeReady(st, t), st.ready + [t], false, st.current)
  {
  }

  lemma StepReady(st: System, step: Step)
    requires Inv(st) && Enabled(st, step)
    ensures PcsOk(st.pc, st.semas, st.holder)
    ensures Moved(Next(st, step), st.ready + Readies(st, step), GivesWay(st, step), st.current)
  {
    hide Inv, PcsOk, DownTurn, Up, Schedule, MakeReady;
    InvPcs(st);
    assert st.ready + [] == st.ready;
    match step {
      case Down(r) => TurnReady(st, st.current.thread, r);
      case Resume => TurnReady(st, st.current.thread, Doing(st).sema);
      case Acquire(l) => TurnReady(st, st.current.thread, l);
      case UpBy(r) => UpReady(st, r);
      case UpInterrupt(r) => UpReady(st, r);
      case Drop => DroppedLock(st); UpReady(st.(pc := st.pc[st.current.thread := Free]), Doing(st).lock);
      case Preempt =>
        SchedulingReady(st, st.current.thread);
        SchedulingReady(MakeReady(st, st.current.thread), 0);
      case Dispatch => SchedulingReady(st, 0);
      case Spawn(t) => SchedulingReady(st.(pc := st.pc[t := Free]), t);
      case _ =>
    }
  }

  ghost function ReadiedIn(st: System, steps: seq<Step>): seq<nat>
    requires Inv(st) && Possible(st, steps)
    decreases |steps|
  {
    if steps == [] then []
    else
      InvPcs(st);
      NextKeeps(st, steps[0]);
      Readies(st, steps[0]) + ReadiedIn(Next(st, steps[0]), steps[1..])
  }

  ghost function SwitchesIn(st: System, steps: seq<Step>): nat
    requires Inv(st) && Possible(st, steps)
    decreases |steps|
  {
    if steps == [] then 0
    else
      InvPcs(st);
      NextKeeps(st, steps[0]);
      (if Switches(st, steps[0]) then 1 else 0) + SwitchesIn(Next(st, steps[0]), steps[1..])
  }

  /** Who runs once n threads of the line have been given the processor. */
  ghost predicate RunsNow(current: Cpu, line: seq<nat>, n: nat, before: Cpu) {
    n <= |line| && (current == Idling || current == if n == 0 then before else On(line[n - 1]))
  }

  /** Over a run threads get the processor in the order in which they were made ready; the
      ready list is the rest of that line. */
  lemma {:induction false} RunReady(st: System, steps: seq<Step>)
    requires Inv(st) && Possible(st, steps)
    ensures var line, n, st' := st.ready + ReadiedIn(st, steps), SwitchesIn(st, steps), After(st, steps);
            n <= |line| && st'.ready == line[n..] && RunsNow(st'.current, line, n, st.current)
    decreases |steps|
  {
    hide Inv, Next, Enabled, Readies, GivesWay;
    if steps != [] {
      InvPcs(st);
      NextKeeps(st, steps[0]);
      StepReady(st, steps[0]);
      var st' := Next(st, steps[0]);
      RunReady(st', steps[1..]);
      QueueTwice(st.ready, Readies(st, steps[0]), if Switches(st, steps[0]) then 1 else 0,
                 ReadiedIn(st', steps[1..]), SwitchesIn(st', steps[1..]));
    } else {
      assert st.ready + [] == st.ready;
    }
  }

  // ---- threads and locks -------------------------------------------------------------------------

  /** Where a step leaves the thread that takes it. */
  function GoesTo(st: System, step: Step): Pc
    requires Enabled(st, step) && Acting(st)
  {
    var s := Tries(st, step);
    if s.Some? && Waits(st, step, s.value) then Downing(s.value)
    else if s.Some? && Gets(st, step, s.value) && s.value in st.holder then Claiming(s.value)
    else if s.Some? && Gets(st, step, s.value) then Free
    else match step
      case Claim => Free
      case Release(l) => Dropping(l)
      case Drop => Free
      case _ => Doing(st)
  }

  lemma TurnThreads(st: System, t: nat, r: nat)
    requires r in st.semas
    ensures DownTurn(st, t, r).holder == st.holder
    ensures DownTurn(st, t, r).pc ==
            st.pc[t := if st.semas[r].value == 0 then Downing(r) else if r in st.holder then Claiming(r) else Free]
  {
  }

  lemma UpThreads(st: System, r: nat)
    requires r in st.semas
    ensures Up(st, r).holder == st.holder && Up(st, r).pc == st.pc
  {
  }

  lemma SchedulingThreads(st: System, t: nat)
    ensures Schedule(st).pc == st.pc && Schedule(st).holder == st.holder
    ensures MakeReady(st, t).pc == st.pc && MakeReady(st, t).holder == st.holder
  {
  }

  /** What a step does to the threads: only the running one goes on ... */
  lemma StepThreads(st: System, step: Step)
    requires Inv(st) && Enabled(st, step)
    ensures PcsOk(st.pc, st.semas, st.holder)
    ensures var pc' := Next(st, step).pc;
            && pc'.Keys == st.pc.Keys + (if step.Spawn? then {step.t} else {})
            && (step.Spawn? ==> pc'[step.t] == Free)
            && (forall t | t in st.pc :: pc'[t] == if st.current == On(t) then GoesTo(st, step) else st.pc[t])
  {
    hide Inv, PcsOk, DownTurn, Up, Schedule, MakeReady;
    InvPcs(st);
    match step {
      case Down(r) => TurnThreads(st, st.current.thread, r);
      case Resume => TurnThreads(st, st.current.thread, Doing(st).sema);
      case Acquire(l) => TurnThreads(st, st.current.thread, l);
      case UpBy(r) => UpThreads(st, r);
      case UpInterrupt(r) => UpThreads(st, r);
      case Drop => DroppedLock(st); UpThreads(st.(pc := st.pc[st.current.thread := Free]), Doing(st).lock);
      case Preempt =>
        SchedulingThreads(st, st.current.thread);
        SchedulingThreads(MakeReady(st, st.current.thread), 0);
      case Dispatch => SchedulingThreads(st, 0);
      case Spawn(t) => SchedulingThreads(st.(pc := st.pc[t := Free]), t);
      case _ =>
    }
  }

  /** ... and to the locks: a lock's holder is the thread that claimed it last, until it releases
      the lock. */
  lemma StepHolders(st: System, step: Step)
    requires Inv(st) && Enabled(st, step)
    ensures PcsOk(st.pc, st.semas, st.holder)
    ensures var holder' := Next(st, step).holder;
            && holder'.Keys == st.holder.Keys
            && (forall l | l in st.holder ::
                  holder'[l] == if step.Claim? && Doing(st) == Claiming(l) then Held(st.current.thread)
                                else if step == Release(l) then Nobody
                                else st.holder[l])
  {
    hide Inv, DownTurn, Up, Schedule, MakeReady;
    InvPcs(st);
    match step {
      case Down(r) => TurnThreads(st, st.current.thread, r);
      case Resume => TurnThreads(st, st.current.thread, Doing(st).sema);
      case Acquire(l) => TurnThreads(st, st.current.thread, l);
      case UpBy(r) => UpThreads(st, r);
      case UpInterrupt(r) => UpThreads(st, r);
      case Drop => DroppedLock(st); UpThreads(st.(pc := st.pc[st.current.thread := Free]), Doing(st).lock);
      case Preempt =>
        SchedulingThreads(st, st.current.thread);
        SchedulingThreads(MakeReady(st, st.current.thread), 0);
      case Dispatch => SchedulingThreads(st, 0);
      case Spawn(t) => SchedulingThreads(st.(pc := st.pc[t := Free]), t);
      case _ =>
    }
  }

  // ---- theorems over runs --------------------------------------------------------------------------

  /** Over every run from boot: the value is the initial value plus the run's ups minus its
      completed downs; the waiters are those who had to wait, in order, but for as many as ups
      have woken; and while threads wait the value is at most the number of threads that sema_up
      has popped and that are not yet back in sema_down, each running or on the ready list. */
  lemma NoLostWakeup(boot: System, main: nat, steps: seq<Step>, s: nat)
    requires RunFromBoot(boot, main, steps) && s in boot.semas
    ensures Inv(boot) && Possible(boot, steps) && s in Reached(boot, main, steps).semas
    ensures var st := Reached(boot, main, steps); var sema := st.semas[s];
            && sema.value == boot.semas[s].value + UpsIn(boot, steps, s) - DownsIn(boot, steps, s)
            && WakeupsIn(boot, steps, s) <= |Arrivals(boot, steps, s)|
            && sema.waiters == Arrivals(boot, steps, s)[WakeupsIn(boot, steps, s)..]
            && (sema.waiters != [] ==> sema.value <= |Woken(st.semas, st.pc, s)|)
            && forall t | t in Woken(st.semas, st.pc, s) :: st.current == On(t) || t in st.ready
  {
    hide Possible, After, Inv, Woken, UpsIn, DownsIn, Arrivals, WakeupsIn;
    BootedOk(boot, main);
    RunSema(boot, steps, s);
    assert [] + Arrivals(boot, steps, s) == Arrivals(boot, steps, s);
    WakeupsCounted(Reached(boot, main, steps), s);
  }

  /** Over every run from boot the processor goes to threads in the order in which they were
      made ready. */
  lemma FirstReadyFirst(boot: System, main: nat, steps: seq<Step>)
    requires RunFromBoot(boot, main, steps)
    ensures Inv(boot) && Possible(boot, steps)
    ensures var st, line, n := Reached(boot, main, steps), ReadiedIn(boot, steps), SwitchesIn(boot, steps);
            n <= |line| && st.ready == line[n..] && RunsNow(st.current, line, n, On(main))
  {
    hide Possible, After, Inv, ReadiedIn, SwitchesIn, RunsNow;
    BootedOk(boot, main);
    RunReady(boot, steps);
    assert [] + ReadiedIn(boot, steps) == ReadiedIn(boot, steps);
  }

  lemma WakeupsCounted(st: System, s: nat)
    requires Inv(st) && s in st.semas
    ensures st.semas[s].waiters != [] ==> st.semas[s].value <= |Woken(st.semas, st.pc, s)|
    ensures forall t | t in Woken(st.semas, st.pc, s) :: st.current == On(t) || t in st.ready
  {
    hide PcsOk, LocksOk;
    forall t | t in Woken(st.semas, st.pc, s) ensures st.current == On(t) || t in st.ready {
      assert t in st.status;
    }
  }

  /** Each thread is on at most one of the ready list and the waiters lists. */
  lemma OneList(boot: System, main: nat, steps: seq<Step>, t: nat, s: nat, r: nat)
    requires RunFromBoot(boot, main, steps)
    ensures var st := Reached(boot, main, steps);
            s in st.semas && t in st.semas[s].waiters ==>
              t !in st.ready && st.current != On(t) && (r in st.semas && t in st.semas[r].waiters ==> r == s)
  {
    hide RunFromBoot, Reached, PcsOk, LocksOk, WakeupsOk;
  }

  /** A lock has at most one thread inside: between the sema_down of lock_acquire and the
      sema_up of lock_release. */
  lemma MutualExclusion(boot: System, main: nat, steps: seq<Step>, l: nat, t: nat, u: nat)
    requires RunFromBoot(boot, main, steps)
    ensures var st := Reached(boot, main, steps);
            l in st.holder && t in Owners(st.holder, st.pc, l) && u in Owners(st.holder, st.pc, l) ==>
              t == u && (st.holder[l].Held? ==> st.holder[l] == Held(t))
  {
    hide RunFromBoot, Reached, Owners, PcsOk, WakeupsOk, ReadyOk, WaitersOk, CurrentOk;
    var st := Reached(boot, main, steps);
    if l in st.holder && t in Owners(st.holder, st.pc, l) && u in Owners(st.holder, st.pc, l) {
      OnlyOwner(st.semas, st.holder, st.pc, l, t);
      HolderOwns(st, l);
    }
  }

  lemma HolderOwns(st: System, l: nat)
    requires PcsOk(st.pc, st.semas, st.holder) && l in st.holder
    ensures st.holder[l].Held? ==> st.holder[l].thread in Owners(st.holder, st.pc, l)
  {
  }
}
