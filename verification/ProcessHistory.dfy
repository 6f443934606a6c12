/** What the calls of exec, wait and exit return, from the steps of a run alone; and that nobody
    waits for something that has happened. */
module ProcessHistory {
  import opened Basics
  import opened ProcessLife

  // ---- children and their semaphores -------------------------------------------------------------------

  /** load has failed. */
  predicate Failed(p: Process) {
    !p.loadSuccess && p.phase != Loading
  }

  /** The parent has not yet seen the outcome of the child's load. */
  predicate LoadUnknown(ph: Phase, c: nat) {
    ph == Created(c) || ph == AwaitLoad(c)
  }

  predicate LoadBad(ph: Phase, c: nat) {
    ph == BadLoad(c) || ph == Discarded(c)
  }

  /** process_wait has returned the child's status. */
  ghost predicate Collected(log: seq<Waited>, t: nat, c: nat) {
    exists x | x in log :: x.collected && x.waiter == t && x.child == c
  }

  /** The parent has downed the child's wait_sema. */
  ghost predicate Taken(ph: Phase, log: seq<Waited>, t: nat, c: nat) {
    ph == Collecting(c) || (ph.Delisted? && ph.child == c) || Collected(log, t, c)
  }

  /** A child as its parent u, now in p, and the log see it. */
  ghost predicate ChildOk(p: Process, log: seq<Waited>, u: nat, c: nat, k: Process) {
    && k.loadSema == (if LoadUnknown(p.phase, c) && k.phase != Loading then 1 else 0)
    && k.waitSema + (if Taken(p.phase, log, u, c) then 1 else 0) == k.waitUps
    && (LoadBad(p.phase, c) ==> Failed(k))
    && (c in p.children && !LoadUnknown(p.phase, c) && !LoadBad(p.phase, c) ==> k.loadSuccess)
    && (c in p.children || InHand(p.phase) == Some(c) || Collected(log, u, c) || Failed(k))
  }

  ghost predicate FamilyOk(w: World) {
    && (forall c | c in w.procs && w.procs[c].parent.Some? :: w.procs[c].parent.value in w.procs)
    && (forall c | c in w.procs && w.procs[c].parent.Some? ::
          ChildOk(w.procs[w.procs[c].parent.value], w.log, w.procs[c].parent.value, c, w.procs[c]))
    && (forall c | c in w.procs && (w.procs[c].phase == Loading || w.procs[c].phase == LoadFailed) ::
          !w.procs[c].loadSuccess)
  }

  lemma FamilyOf(w: World, c: nat)
    requires FamilyOk(w) && c in w.procs && w.procs[c].parent.Some?
    ensures var u := w.procs[c].parent.value; u in w.procs && ChildOk(w.procs[u], w.log, u, c, w.procs[c])
    ensures w.procs[c].phase == Loading || w.procs[c].phase == LoadFailed ==> !w.procs[c].loadSuccess
  {
    hide ChildOk;
  }

  lemma LogGrows(log: seq<Waited>, x: Waited, t: nat, c: nat)
    ensures Collected(log + [x], t, c) <==> Collected(log, t, c) || (x.collected && x.waiter == t && x.child == c)
  {
    if Collected(log, t, c) {
      var y :| y in log && y.collected && y.waiter == t && y.child == c;
      assert y in log + [x];
    }
    if x.collected && x.waiter == t && x.child == c {
      assert (log + [x])[|log|] == x;
    }
  }

  /** A child and its parent before a step ... */
  ghost predicate Before(w: World, t: nat, a: Action, u: nat, c: nat) {
    && Inv(w) && Enabled(w, t, a) && FamilyOk(w)
    && c in w.procs && w.procs[c].parent == Some(u) && u in w.procs
  }

  /** ... and after it. */
  ghost predicate Behind(w: World, t: nat, a: Action, u: nat, c: nat)
    requires Enabled(w, t, a)
  {
    var w' := Next(w, t, a);
    && c in w'.procs && w'.procs[c].parent == Some(u) && u in w'.procs
    && ChildOk(w'.procs[u], w'.log, u, c, w'.procs[c])
  }

  /** The child that a process works on, or has in its hand, is its own. */
  lemma ChildInWork(w: World, t: nat)
    requires Inv(w) && t in w.procs
    ensures var p := w.procs[t];
            && (InHand(p.phase).Some? ==> var d := InHand(p.phase).value;
                  d in w.procs && w.procs[d].parent == Some(t) && d != t && d !in p.children)
            && (AtWork(p.phase).Some? ==> var d := AtWork(p.phase).value;
                  d in w.procs && w.procs[d].parent == Some(t) && d != t && d in p.children)
    ensures NoDuplicates(w.procs[t].children)
  {
    hide Inv;
    Own(w, t);
  }

  /** A child that is still loading: its parent does not know the outcome, and has nothing from it. */
  lemma NotLoading(w: World, u: nat, c: nat)
    requires Inv(w) && FamilyOk(w) && u in w.procs && c in w.procs && w.procs[c].parent == Some(u)
    ensures w.procs[c].phase == Loading ==>
              LoadUnknown(w.procs[u].phase, c) && !Collected(w.log, u, c) && w.procs[c].waitUps == 0
  {
    hide Inv, FamilyOk, ListOk, DebtOk;
    FamilyOf(w, c);
    Own(w, c);
    Own(w, u);
    if Collected(w.log, u, c) {
      CollectedIsOff(w, u, c);
    }
  }

  /** A child whose status has been returned is off the list. */
  lemma CollectedIsOff(w: World, u: nat, c: nat)
    requires Inv(w) && u in w.procs && Collected(w.log, u, c)
    ensures c in w.procs && w.procs[c].passed.Some? && c !in w.procs[u].children && !Owes(w.procs[u], c)
  {
    hide Inv;
    InvLog(w);
    var x :| x in w.log && x.collected && x.waiter == u && x.child == c;
    Logged(w, x);
  }

  lemma InvLog(w: World)
    requires Inv(w)
    ensures LogOk(w)
  {
  }

  lemma ExecChild(w: World, t: nat, d: nat, u: nat, c: nat)
    requires Before(w, t, Exec(d), u, c)
    ensures Behind(w, t, Exec(d), u, c)
  {
    hide Inv, FamilyOk, Collected, NoDuplicates, BooksOk, ListOk, DebtOk, StatusOk;
    FamilyOf(w, c);
  }

  lemma AddChildChild(w: World, t: nat, u: nat, c: nat)
    requires Before(w, t, AddChild, u, c)
    ensures Behind(w, t, AddChild, u, c)
  {
    hide Inv, FamilyOk, Collected, NoDuplicates, BooksOk, ListOk, DebtOk, StatusOk;
    FamilyOf(w, c);
  }

  lemma LoadDoneChild(w: World, t: nat, ok: bool, u: nat, c: nat)
    requires Before(w, t, LoadDone(ok), u, c)
    ensures Behind(w, t, LoadDone(ok), u, c)
  {
    hide Inv, FamilyOk, Collected, NoDuplicates, BooksOk, ListOk, DebtOk, StatusOk;
    FamilyOf(w, c);
    NotLoading(w, u, c);
  }

  lemma LoadKnownChild(w: World, t: nat, u: nat, c: nat)
    requires Before(w, t, LoadKnown, u, c)
    ensures Behind(w, t, LoadKnown, u, c)
  {
    hide Inv, FamilyOk, Collected, NoDuplicates, BooksOk, ListOk, DebtOk, StatusOk;
    FamilyOf(w, c);
    ChildInWork(w, t);
  }

  lemma DiscardChild(w: World, t: nat, u: nat, c: nat)
    requires Before(w, t, Discard, u, c)
    ensures Behind(w, t, Discard, u, c)
  {
    hide Inv, FamilyOk, Collected, NoDuplicates, BooksOk, ListOk, DebtOk, StatusOk;
    FamilyOf(w, c);
    ChildInWork(w, t);
    WithoutMembers(w.procs[t].children, w.procs[t].phase.child);
  }

  lemma DiscardUpChild(w: World, t: nat, u: nat, c: nat)
    requires Before(w, t, DiscardUp, u, c)
    ensures Behind(w, t, DiscardUp, u, c)
  {
    hide Inv, FamilyOk, Collected, NoDuplicates, BooksOk, ListOk, DebtOk, StatusOk;
    FamilyOf(w, c);
    ChildInWork(w, t);
  }

  lemma WaitChild(w: World, t: nat, d: nat, u: nat, c: nat)
    requires Before(w, t, Wait(d), u, c)
    ensures Behind(w, t, Wait(d), u, c)
  {
    hide Inv, FamilyOk, Collected, NoDuplicates, BooksOk, ListOk, DebtOk, StatusOk;
    FamilyOf(w, c);
    LogGrows(w.log, Waited(t, d, -1, false), u, c);
  }

  lemma ExitKnownChild(w: World, t: nat, u: nat, c: nat)
    requires Before(w, t, ExitKnown, u, c)
    ensures Behind(w, t, ExitKnown, u, c)
  {
    hide Inv, FamilyOk, Collected, NoDuplicates, BooksOk, ListOk, DebtOk, StatusOk;
    FamilyOf(w, c);
    ChildInWork(w, t);
    if Collected(w.log, u, c) { CollectedIsOff(w, u, c); }
  }

  lemma CollectChild(w: World, t: nat, u: nat, c: nat)
    requires Before(w, t, Collect, u, c)
    ensures Behind(w, t, Collect, u, c)
  {
    hide Inv, FamilyOk, Collected, NoDuplicates, BooksOk, ListOk, DebtOk, StatusOk;
    FamilyOf(w, c);
    ChildInWork(w, t);
    WithoutMembers(w.procs[t].children, w.procs[t].phase.child);
  }

  lemma CollectUpChild(w: World, t: nat, u: nat, c: nat)
    requires Before(w, t, CollectUp, u, c)
    ensures Behind(w, t, CollectUp, u, c)
  {
    hide Inv, FamilyOk, Collected, NoDuplicates, BooksOk, ListOk, DebtOk, StatusOk;
    FamilyOf(w, c);
    ChildInWork(w, t);
    LogGrows(w.log, Waited(t, w.procs[t].phase.child, w.procs[t].phase.status, true), u, c);
  }

  lemma ExitChild(w: World, t: nat, status: int, u: nat, c: nat)
    requires Before(w, t, Exit(status), u, c)
    ensures Behind(w, t, Exit(status), u, c)
  {
    hide Inv, FamilyOk, Collected, NoDuplicates, BooksOk, ListOk, DebtOk, StatusOk;
    FamilyOf(w, c);
  }

  lemma OrphanFields(w: World, t: nat, v: nat)
    requires Enabled(w, t, OrphanAll) && v in w.procs
    ensures var w' := Next(w, t, OrphanAll);
            && v in w'.procs && w'.log == w.log
            && w'.procs[v].(phase := w.procs[v].phase, zombieSema := w.procs[v].zombieSema,
                            zombieUps := w.procs[v].zombieUps) == w.procs[v]
            && w'.procs[v].phase == if v == t then Orphaned else w.procs[v].phase
  {
  }

  lemma OrphanAllChild(w: World, t: nat, u: nat, c: nat)
    requires Before(w, t, OrphanAll, u, c)
    ensures Behind(w, t, OrphanAll, u, c)
  {
    hide Inv, FamilyOk, Collected, NoDuplicates, BooksOk, ListOk, DebtOk, StatusOk;
    FamilyOf(w, c);
    OrphanFields(w, t, u);
    OrphanFields(w, t, c);
    hide UpAll;
  }

  lemma AnnounceChild(w: World, t: nat, u: nat, c: nat)
    requires Before(w, t, Announce, u, c)
    ensures Behind(w, t, Announce, u, c)
  {
    hide Inv, FamilyOk, Collected, NoDuplicates, BooksOk, ListOk, DebtOk, StatusOk;
    FamilyOf(w, c);
  }

  lemma LeaveChild(w: World, t: nat, u: nat, c: nat)
    requires Before(w, t, Leave, u, c)
    ensures Behind(w, t, Leave, u, c)
  {
    hide Inv, FamilyOk, Collected, NoDuplicates, BooksOk, ListOk, DebtOk, StatusOk;
    FamilyOf(w, c);
  }

  lemma FreeChild(w: World, t: nat, u: nat, c: nat)
    requires Before(w, t, Free, u, c)
    ensures Behind(w, t, Free, u, c)
  {
    hide Inv, FamilyOk, Collected, NoDuplicates, BooksOk, ListOk, DebtOk, StatusOk;
    FamilyOf(w, c);
  }

  lemma NextChild(w: World, t: nat, a: Action, u: nat, c: nat)
    requires Before(w, t, a, u, c)
    ensures Behind(w, t, a, u, c)
  {
    hide Before, Behind, Next;
    match a {
      case Exec(d) => ExecChild(w, t, d, u, c);
      case AddChild => AddChildChild(w, t, u, c);
      case LoadDone(ok) => LoadDoneChild(w, t, ok, u, c);
      case LoadKnown => LoadKnownChild(w, t, u, c);
      case Discard => DiscardChild(w, t, u, c);
      case DiscardUp => DiscardUpChild(w, t, u, c);
      case Wait(d) => WaitChild(w, t, d, u, c);
      case ExitKnown => ExitKnownChild(w, t, u, c);
      case Collect => CollectChild(w, t, u, c);
      case CollectUp => CollectUpChild(w, t, u, c);
      case Exit(status) => ExitChild(w, t, status, u, c);
      case OrphanAll => OrphanAllChild(w, t, u, c);
      case Announce => AnnounceChild(w, t, u, c);
      case Leave => LeaveChild(w, t, u, c);
      case Free => FreeChild(w, t, u, c);
    }
  }

  /** A child that has just been created. */
  lemma NewChild(w: World, t: nat, c: nat)
    requires Inv(w) && Enabled(w, t, Exec(c))
    ensures var w' := Next(w, t, Exec(c));
            && c in w'.procs && w'.procs[c].parent == Some(t) && t in w'.procs
            && ChildOk(w'.procs[t], w'.log, t, c, w'.procs[c])
  {
    hide Inv, Collected;
    if Collected(w.log, t, c) { CollectedIsOff(w, t, c); }
  }

  /** What a step leaves alone: nobody goes away, parents stay, and only the process that takes
      the step moves on in its phase. */
  lemma NextRest(w: World, t: nat, a: Action, v: nat)
    requires Inv(w) && Enabled(w, t, a) && v in Next(w, t, a).procs
    ensures v in w.procs ==>
              && Next(w, t, a).procs[v].parent == w.procs[v].parent
              && (v != t ==> Next(w, t, a).procs[v].phase == w.procs[v].phase)
              && Next(w, t, a).procs[v].loadSuccess == (if v == t && a.LoadDone? then a.ok else w.procs[v].loadSuccess)
              && Next(w, t, a).procs[v].passed == (if v == t && a.Exit? then Some(a.status) else w.procs[v].passed)
    ensures v !in w.procs ==> a == Exec(v) && Next(w, t, a).procs[v] == NEWBORN.(parent := Some(t))
  {
    hide Inv, Without;
    ChildInWork(w, t);
  }

  lemma NextStays(w: World, t: nat, a: Action, v: nat)
    requires Enabled(w, t, a) && v in w.procs
    ensures v in Next(w, t, a).procs
  {
  }

  /** Where an action takes the process that performs it. */
  function Leads(w: World, t: nat, a: Action): Phase
    requires Enabled(w, t, a)
  {
    var p := w.procs[t];
    match a
    case Exec(c) => Created(c)
    case AddChild => AwaitLoad(p.phase.child)
    case LoadDone(ok) => if ok then User else LoadFailed
    case LoadKnown => if w.procs[p.phase.child].loadSuccess then User else BadLoad(p.phase.child)
    case Discard => Discarded(p.phase.child)
    case DiscardUp => User
    case Wait(c) => if c in p.children then AwaitExit(c) else User
    case ExitKnown => Collecting(p.phase.child)
    case Collect => Delisted(p.phase.child, w.procs[p.phase.child].exitStatus)
    case CollectUp => User
    case Exit(_) => Exiting
    case OrphanAll => Orphaned
    case Announce => Zombie
    case Leave => Dying
    case Free => Freed
  }

  lemma NextPhase(w: World, t: nat, a: Action)
    requires Inv(w) && Enabled(w, t, a)
    ensures t in Next(w, t, a).procs && Next(w, t, a).procs[t].phase == Leads(w, t, a)
  {
    hide Inv, Without;
    ChildInWork(w, t);
  }

  lemma NextKeepsFamily(w: World, t: nat, a: Action)
    requires Inv(w) && Enabled(w, t, a) && FamilyOk(w)
    ensures FamilyOk(Next(w, t, a))
  {
    hide Inv, ChildOk, Next, Enabled;
    var w' := Next(w, t, a);
    forall c | c in w'.procs && w'.procs[c].parent.Some?
      ensures var u := w'.procs[c].parent.value; u in w'.procs && ChildOk(w'.procs[u], w'.log, u, c, w'.procs[c])
    {
      NextRest(w, t, a, c);
      if c in w.procs {
        FamilyOf(w, c);
        NextChild(w, t, a, w.procs[c].parent.value, c);
      } else {
        NewChild(w, t, c);
      }
    }
    forall c | c in w'.procs && (w'.procs[c].phase == Loading || w'.procs[c].phase == LoadFailed)
      ensures !w'.procs[c].loadSuccess
    {
      NextRest(w, t, a, c);
      NextPhase(w, t, a);
      EnabledPhase(w, t, a);
    }
  }

  lemma EnabledPhase(w: World, t: nat, a: Action)
    requires Enabled(w, t, a)
    ensures t in w.procs
    ensures Leads(w, t, a) == Loading || Leads(w, t, a) == LoadFailed ==> a.LoadDone? && !a.ok
  {
  }

  // ---- histories -----------------------------------------------------------------------------------------

  predicate Did(steps: seq<Step>, t: nat, a: Action) {
    Step(t, a) in steps
  }

  lemma DidMore(steps: seq<Step>, t: nat, a: Action, u: nat, b: Action)
    ensures Did(steps + [Step(t, a)], u, b) <==> Did(steps, u, b) || (u == t && b == a)
  {
    assert (steps + [Step(t, a)])[|steps|] == Step(t, a);
  }

  /** What the processes know of the steps so far. */
  ghost predicate Traced(w: World, steps: seq<Step>) {
    && (forall u, a | Did(steps, u, a) :: u in w.procs)
    && (forall u, c | Did(steps, u, Exec(c)) :: c in w.procs)
    && (forall c, u: nat | c in w.procs :: w.procs[c].parent == Some(u) <==> Did(steps, u, Exec(c)))
    && (forall c, s | c in w.procs :: w.procs[c].passed == Some(s) <==> Did(steps, c, Exit(s)))
    && (forall c | c in w.procs :: w.procs[c].loadSuccess <==> Did(steps, c, LoadDone(true)))
  }

  lemma NextTraced(w: World, t: nat, a: Action, steps: seq<Step>)
    requires Inv(w) && FamilyOk(w) && Enabled(w, t, a) && Traced(w, steps)
    ensures Traced(Next(w, t, a), steps + [Step(t, a)])
  {
    hide Inv, FamilyOk, Next, Did, Enabled;
    var w', steps' := Next(w, t, a), steps + [Step(t, a)];
    forall u, b | Did(steps', u, b) ensures u in w'.procs && (b.Exec? ==> b.child in w'.procs) {
      DidMore(steps, t, a, u, b);
      EnabledPhase(w, t, a);
      NextStays(w, t, a, u);
      if b.Exec? { if b == a { NewStays(w, t, b.child); } else { NextStays(w, t, a, b.child); } }
    }
    forall c, u: nat | c in w'.procs ensures w'.procs[c].parent == Some(u) <==> Did(steps', u, Exec(c)) {
      TracedParent(w, t, a, steps, c, u);
    }
    forall c, s | c in w'.procs ensures w'.procs[c].passed == Some(s) <==> Did(steps', c, Exit(s)) {
      TracedExit(w, t, a, steps, c, s);
    }
    forall c | c in w'.procs ensures w'.procs[c].loadSuccess <==> Did(steps', c, LoadDone(true)) {
      TracedLoad(w, t, a, steps, c);
    }
  }

  lemma NewStays(w: World, t: nat, c: nat)
    requires Enabled(w, t, Exec(c))
    ensures c !in w.procs && c in Next(w, t, Exec(c)).procs
  {
  }

  lemma TracedParent(w: World, t: nat, a: Action, steps: seq<Step>, c: nat, u: nat)
    requires Inv(w) && Enabled(w, t, a) && Traced(w, steps) && c in Next(w, t, a).procs
    ensures Next(w, t, a).procs[c].parent == Some(u) <==> Did(steps + [Step(t, a)], u, Exec(c))
  {
    hide Inv, Next, Did;
    NextRest(w, t, a, c);
    DidMore(steps, t, a, u, Exec(c));
  }

  lemma TracedExit(w: World, t: nat, a: Action, steps: seq<Step>, c: nat, s: int)
    requires Inv(w) && Enabled(w, t, a) && Traced(w, steps) && c in Next(w, t, a).procs
    ensures Next(w, t, a).procs[c].passed == Some(s) <==> Did(steps + [Step(t, a)], c, Exit(s))
  {
    hide Inv, Next, Did, ListOk, DebtOk, StatusOk;
    NextRest(w, t, a, c);
    DidMore(steps, t, a, c, Exit(s));
    if a.Exit? && c == t { Own(w, t); }
  }

  lemma TracedLoad(w: World, t: nat, a: Action, steps: seq<Step>, c: nat)
    requires Inv(w) && FamilyOk(w) && Enabled(w, t, a) && Traced(w, steps) && c in Next(w, t, a).procs
    ensures Next(w, t, a).procs[c].loadSuccess <==> Did(steps + [Step(t, a)], c, LoadDone(true))
  {
    hide Inv, Next, Did, ChildOk;
    NextRest(w, t, a, c);
    DidMore(steps, t, a, c, LoadDone(true));
  }

  // ---- runs ----------------------------------------------------------------------------------------------

  lemma {:induction false} RunTraced(w: World, done: seq<Step>, steps: seq<Step>)
    requires Inv(w) && Possible(w, steps) && FamilyOk(w) && Traced(w, done)
    ensures FamilyOk(After(w, steps)) && Traced(After(w, steps), done + steps)
    decreases |steps|
  {
    hide Inv, FamilyOk, Traced, Next, Enabled;
    if steps == [] {
      assert done + steps == done;
    } else {
      var t, a := steps[0].thread, steps[0].action;
      NextKeeps(w, t, a);
      NextKeepsFamily(w, t, a);
      NextTraced(w, t, a, done);
      RunTraced(Next(w, t, a), done + [Step(t, a)], steps[1..]);
      assert done + [Step(t, a)] + steps[1..] == done + steps;
    }
  }

  lemma ReachedTraced(main: nat, steps: seq<Step>)
    requires Possible(Booted(main), steps)
    ensures FamilyOk(Reached(main, steps)) && Traced(Reached(main, steps), steps)
  {
    hide Inv, Possible, After;
    RunTraced(Booted(main), [], steps);
    assert [] + steps == steps;
  }

  /** The child list of a process outside the protocol. */
  lemma ListedAre(w: World, steps: seq<Step>, t: nat, c: nat)
    requires Inv(w) && FamilyOk(w) && Traced(w, steps) && t in w.procs && w.procs[t].phase == User
    ensures c in w.procs[t].children <==>
            Did(steps, t, Exec(c)) && Did(steps, c, LoadDone(true)) && !Collected(w.log, t, c)
  {
    hide Inv, FamilyOk, Did, Collected, BooksOk, DebtOk, StatusOk, NoDuplicates;
    Own(w, t);
    if Collected(w.log, t, c) { CollectedIsOff(w, t, c); }
    if c in w.procs[t].children || Did(steps, t, Exec(c)) {
      assert c in w.procs && w.procs[c].parent == Some(t);
      FamilyOf(w, c);
    }
  }

  /** process_wait after any run returns -1 at once if and only if the caller has not executed
      the child, the child was not loaded, or its status has been returned already; otherwise
      the caller waits. */
  lemma WaitIs(main: nat, steps: seq<Step>, t: nat, c: nat)
    requires Possible(Booted(main), steps) && Enabled(Reached(main, steps), t, Wait(c))
    ensures var w := Reached(main, steps); var w' := Next(w, t, Wait(c));
            if Did(steps, t, Exec(c)) && Did(steps, c, LoadDone(true)) && !Collected(w.log, t, c)
            then w'.log == w.log && w'.procs == w.procs[t := w.procs[t].(phase := AwaitExit(c))]
            else w' == w.(log := w.log + [Waited(t, c, -1, false)])
  {
    hide Possible, Reached, Booted, Inv, FamilyOk, Traced, Did, Collected;
    ReachedTraced(main, steps);
    ListedAre(Reached(main, steps), steps, t, c);
  }

  /** Process t is in process_wait for c. */
  predicate Waiting(ph: Phase, c: nat) {
    ph == AwaitExit(c) || ph == Collecting(c) || (ph.Delisted? && ph.child == c)
  }

  ghost predicate NoReturn(log: seq<Waited>, n: nat, i: nat, t: nat) {
    n <= i <= |log| && forall j | n <= j < i :: log[j].waiter != t
  }

  /** Entry i is t's first return since entry n, and it is c's status. */
  ghost predicate Returned(log: seq<Waited>, n: nat, i: nat, t: nat, c: nat) {
    NoReturn(log, n, i, t) && i < |log| && log[i].collected && log[i].waiter == t && log[i].child == c
  }

  /** While t waits for c it stays in process_wait, and its next return is c's status. */
  lemma NextWaiting(w: World, t: nat, c: nat, u: nat, a: Action)
    requires Inv(w) && Enabled(w, u, a) && t in w.procs && Waiting(w.procs[t].phase, c)
    ensures var w' := Next(w, u, a);
            || (t in w'.procs && Waiting(w'.procs[t].phase, c) && NoReturn(w'.log, |w.log|, |w'.log|, t)
               && w.log <= w'.log)
            || Returned(w'.log, |w.log|, |w.log|, t, c)
  {
    hide Inv;
  }

  lemma {:induction false} RunWaiting(w: World, steps: seq<Step>, t: nat, c: nat, n: nat)
    requires Inv(w) && Possible(w, steps) && t in w.procs && Waiting(w.procs[t].phase, c)
    requires n <= |w.log| && NoReturn(w.log, n, |w.log|, t)
    ensures var w' := After(w, steps);
            || (t in w'.procs && Waiting(w'.procs[t].phase, c) && NoReturn(w'.log, n, |w'.log|, t))
            || exists i: nat :: Returned(w'.log, n, i, t, c)
    decreases |steps|
  {
    hide Inv, Next, Enabled, Waiting;
    if steps != [] {
      var u, a := steps[0].thread, steps[0].action;
      NextKeeps(w, u, a);
      NextWaiting(w, t, c, u, a);
      NextLog(w, u, a);
      var w1 := Next(w, u, a);
      if Returned(w1.log, |w.log|, |w.log|, t, c) {
        assert Returned(w1.log, n, |w.log|, t, c);
        LogOnly(w1, steps[1..]);
        assert Returned(After(w1, steps[1..]).log, n, |w.log|, t, c);
      } else {
        RunWaiting(w1, steps[1..], t, c, n);
      }
    }
  }

  lemma NextLog(w: World, u: nat, a: Action)
    requires Enabled(w, u, a)
    ensures w.log <= Next(w, u, a).log
  {
  }

  lemma {:induction false} LogOnly(w: World, steps: seq<Step>)
    requires Inv(w) && Possible(w, steps)
    ensures w.log <= After(w, steps).log
    decreases |steps|
  {
    hide Inv, Next, Enabled;
    if steps != [] {
      NextKeeps(w, steps[0].thread, steps[0].action);
      NextLog(w, steps[0].thread, steps[0].action);
      LogOnly(Next(w, steps[0].thread, steps[0].action), steps[1..]);
    }
  }

  /** The answer to a wait that does not fail: in any run that goes on from it, the caller's next
      return is the status with which the child called exit; until then it waits. */
  lemma WaitAnswered(main: nat, before: seq<Step>, t: nat, c: nat, later: seq<Step>)
    requires Possible(Booted(main), before) && Enabled(Reached(main, before), t, Wait(c))
    requires Did(before, t, Exec(c)) && Did(before, c, LoadDone(true)) && !Collected(Reached(main, before).log, t, c)
    ensures var w := Next(Reached(main, before), t, Wait(c));
            Inv(w) && FamilyOk(w) && (Possible(w, later) ==>
              var w' := After(w, later);
              || (t in w'.procs && Waiting(w'.procs[t].phase, c) && NoReturn(w'.log, |w.log|, |w'.log|, t))
              || exists i: nat, s: int :: Returned(w'.log, |w.log|, i, t, c) && w'.log[i].result == s
                                         && Did(before + [Step(t, Wait(c))] + later, c, Exit(s)))
  {
    hide Possible, Reached, Booted, Inv, FamilyOk, Traced, Did, Collected, After;
    var w0 := Reached(main, before);
    ReachedTraced(main, before);
    WaitIs(main, before, t, c);
    NextKeeps(w0, t, Wait(c));
    NextKeepsFamily(w0, t, Wait(c));
    NextTraced(w0, t, Wait(c), before);
    var w := Next(w0, t, Wait(c));
    if Possible(w, later) {
      RunWaiting(w, later, t, c, |w.log|);
      RunTraced(w, before + [Step(t, Wait(c))], later);
      var w' := After(w, later);
      if i: nat :| Returned(w'.log, |w.log|, i, t, c) {
        ReturnIsStatus(w', before + [Step(t, Wait(c))] + later, i);
        assert Returned(w'.log, |w.log|, i, t, c) && w'.log[i].result == w'.log[i].result;
      }
    }
  }

  lemma ReturnIsStatus(w: World, steps: seq<Step>, i: nat)
    requires Inv(w) && Traced(w, steps) && i < |w.log| && w.log[i].collected
    ensures Did(steps, w.log[i].child, Exit(w.log[i].result))
  {
    hide Inv, Did;
    InvLog(w);
    assert w.log[i] in w.log;
    Logged(w, w.log[i]);
  }

  // ---- nobody waits in vain --------------------------------------------------------------------------------

  /** What a process that cannot go on waits for, and has not happened yet: the end of a child's
      load, a child's exit, or the release by its parent. */
  predicate Awaits(w: World, t: nat)
    requires t in w.procs
  {
    match w.procs[t].phase
    case AwaitLoad(c) => c in w.procs && w.procs[c].phase == Loading
    case AwaitExit(c) => c in w.procs && w.procs[c].loadSuccess && !w.procs[c].phase.Zombie? && !Gone(w.procs[c].phase)
    case Zombie => w.procs[t].parent.Some? ==>
        w.procs[t].parent.value in w.procs && Owes(w.procs[w.procs[t].parent.value], t)
    case LoadFailed => w.procs[t].parent.Some? ==>
        w.procs[t].parent.value in w.procs && Owes(w.procs[w.procs[t].parent.value], t)
    case Freed => true
    case _ => false
  }

  /** After every run each process can take a step, or what it waits for has not happened yet. */
  lemma NobodyStuck(main: nat, steps: seq<Step>, t: nat) returns (a: Action)
    requires Possible(Booted(main), steps) && t in Reached(main, steps).procs
    ensures Enabled(Reached(main, steps), t, a) <==> !Awaits(Reached(main, steps), t)
  {
    hide Possible, Reached, Booted, Inv, FamilyOk, Traced;
    ReachedTraced(main, steps);
    a := StepOf(Reached(main, steps), t);
  }

  lemma LoadSeen(w: World, t: nat, c: nat)
    requires Inv(w) && FamilyOk(w) && t in w.procs && w.procs[t].phase == AwaitLoad(c)
    ensures Enabled(w, t, LoadKnown) <==> !Awaits(w, t)
  {
    hide Inv, FamilyOk, Collected, NoDuplicates;
    ChildInWork(w, t);
    FamilyOf(w, c);
  }

  lemma ExitSeen(w: World, t: nat, c: nat)
    requires Inv(w) && FamilyOk(w) && t in w.procs && w.procs[t].phase == AwaitExit(c)
    ensures Enabled(w, t, ExitKnown) <==> !Awaits(w, t)
  {
    hide Inv, FamilyOk, Collected, NoDuplicates, ListOk, StatusOk;
    ChildInWork(w, t);
    FamilyOf(w, c);
    Own(w, c);
    if Collected(w.log, t, c) { CollectedIsOff(w, t, c); }
  }

  lemma ReleaseSeen(w: World, t: nat)
    requires Inv(w) && t in w.procs && (w.procs[t].phase == Zombie || w.procs[t].phase == LoadFailed)
    ensures Enabled(w, t, Leave) <==> !Awaits(w, t)
  {
    hide Inv, ListOk, StatusOk;
    Own(w, t);
  }

  lemma StepOf(w: World, t: nat) returns (a: Action)
    requires Inv(w) && FamilyOk(w) && t in w.procs
    ensures Enabled(w, t, a) <==> !Awaits(w, t)
  {
    hide Inv, FamilyOk;
    ChildInWork(w, t);
    match w.procs[t].phase {
      case Loading => a := LoadDone(true);
      case LoadFailed => a := Leave; ReleaseSeen(w, t);
      case User => a := Exit(0);
      case Created(_) => a := AddChild;
      case AwaitLoad(c) => a := LoadKnown; LoadSeen(w, t, c);
      case BadLoad(_) => a := Discard;
      case Discarded(_) => a := DiscardUp;
      case AwaitExit(c) => a := ExitKnown; ExitSeen(w, t, c);
      case Collecting(_) => a := Collect;
      case Delisted(_, _) => a := CollectUp;
      case Exiting => a := OrphanAll;
      case Orphaned => a := Announce;
      case Zombie => a := Leave; ReleaseSeen(w, t);
      case Dying => a := Free;
      case Freed => a := Free;
    }
  }
}
