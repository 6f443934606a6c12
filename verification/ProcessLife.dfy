/** The exec/wait/exit protocol of src/userprog/process.c and src/userprog/syscall.c.
    Every process takes its steps in any interleaving with the others; a down of a semaphore
    is a step that is possible once the value is positive.  The loop of process_cleanup over
    the child list is one step. */
module ProcessLife {
  import opened Basics

  /** Where a process is in the protocol. */
  datatype Phase =
    | Loading                            // start_process, before load_sema is upped
    | LoadFailed                         // load_sema upped after a failed load; about to down zombie_sema
    | User                               // outside the protocol
    | Created(child: nat)                // process_execute: thread_create done, child not yet on the list
    | AwaitLoad(child: nat)              // sys_exec: about to down the child's load_sema
    | BadLoad(child: nat)                // the load failed, the child is still on the list
    | Discarded(child: nat)              // ... removed from the list, zombie_sema not yet upped
    | AwaitExit(child: nat)              // process_wait: about to down the child's wait_sema
    | Collecting(child: nat)             // wait_sema downed
    | Delisted(child: nat, status: int)  // status read, child off the list, zombie_sema not yet upped
    | Exiting                            // process_cleanup: exit_status set
    | Orphaned                           // the children's zombie_semas upped
    | Zombie                             // wait_sema upped; about to down zombie_sema
    | Dying                              // zombie_sema downed, in thread_exit
    | Freed                              // struct thread given back by thread_schedule_tail

  /** struct thread as far as the protocol goes, with its history: the status passed to
      process_cleanup, and how often zombie_sema and wait_sema were upped. */
  datatype Process = Process(
    phase: Phase,
    parent: Option<nat>,
    children: seq<nat>,
    exitStatus: int,
    loadSuccess: bool,
    loadSema: nat,
    waitSema: nat,
    zombieSema: nat,
    passed: Option<int>,
    zombieUps: nat,
    waitUps: nat)

  /** A return from process_wait. */
  datatype Waited = Waited(waiter: nat, child: nat, result: int, collected: bool)

  datatype World = World(procs: map<nat, Process>, log: seq<Waited>)

  const NEWBORN: Process := Process(Loading, None, [], -1, false, 0, 0, 0, None, 0, 0)

  // ---- steps ----------------------------------------------------------------------------------

  datatype Action =
    | Exec(child: nat)    // process_execute creates a thread
    | AddChild            // ... and puts it on the child list
    | LoadDone(ok: bool)  // start_process passes on the outcome of load
    | LoadKnown           // sys_exec's sema_down of load_sema returns
    | Discard             // list_remove of a child that failed to load
    | DiscardUp           // ... and the sema_up of its zombie_sema
    | Wait(child: nat)    // process_wait looks the child up
    | ExitKnown           // its sema_down of wait_sema returns
    | Collect             // it reads exit_status and removes the child from the list
    | CollectUp           // ... ups zombie_sema and returns
    | Exit(status: int)   // process_cleanup begins
    | OrphanAll           // the loop over the children
    | Announce            // sema_up (&cur->wait_sema)
    | Leave               // sema_down (&cur->zombie_sema) returns
    | Free                // thread_schedule_tail

  function Upped(p: Process): Process {
    p.(zombieSema := p.zombieSema + 1, zombieUps := p.zombieUps + 1)
  }

  function Without(s: seq<nat>, c: nat): seq<nat> {
    if s == [] then [] else if s[0] == c then s[1..] else [s[0]] + Without(s[1..], c)
  }

  predicate Enabled(w: World, t: nat, a: Action) {
    t in w.procs &&
    var p := w.procs[t];
    match a
    case Exec(c) => p.phase == User && c !in w.procs
    case AddChild => p.phase.Created?
    case LoadDone(_) => p.phase == Loading
    case LoadKnown => p.phase.AwaitLoad? && p.phase.child in w.procs && w.procs[p.phase.child].loadSema > 0
    case Discard => p.phase.BadLoad?
    case DiscardUp => p.phase.Discarded? && p.phase.child in w.procs
    case Wait(_) => p.phase == User
    case ExitKnown => p.phase.AwaitExit? && p.phase.child in w.procs && w.procs[p.phase.child].waitSema > 0
    case Collect => p.phase.Collecting? && p.phase.child in w.procs
    case CollectUp => p.phase.Delisted? && p.phase.child in w.procs
    case Exit(_) => p.phase == User
    case OrphanAll => p.phase == Exiting
    case Announce => p.phase == Orphaned
    case Leave => (p.phase == Zombie || p.phase == LoadFailed) && p.zombieSema > 0
    case Free => p.phase == Dying
  }

  function Move(w: World, t: nat, phase: Phase): World
    requires t in w.procs
  {
    w.(procs := w.procs[t := w.procs[t].(phase := phase)])
  }

  function UpZombie(w: World, c: nat): World
    requires c in w.procs
  {
    w.(procs := w.procs[c := Upped(w.procs[c])])
  }

  /** The child-list loop of process_cleanup. */
  function UpAll(procs: map<nat, Process>, cs: seq<nat>): map<nat, Process> {
    map t | t in procs :: if t in cs then Upped(procs[t]) else procs[t]
  }

  function Next(w: World, t: nat, a: Action): World
    requires Enabled(w, t, a)
  {
    var p := w.procs[t];
    match a
    case Exec(c) => Move(w, t, Created(c)).(procs := Move(w, t, Created(c)).procs[c := NEWBORN.(parent := Some(t))])
    case AddChild =>
      w.(procs := w.procs[t := p.(phase := AwaitLoad(p.phase.child), children := p.children + [p.phase.child])])
    case LoadDone(ok) =>
      w.(procs := w.procs[t := p.(phase := if ok then User
          else LoadFailed, loadSuccess := ok, loadSema := p.loadSema + 1)])
    case LoadKnown =>
      var c := p.phase.child;
      var w1 := w.(procs := w.procs[c := w.procs[c].(loadSema := w.procs[c].loadSema - 1)]);
      Move(w1, t, if w.procs[c].loadSuccess then User else BadLoad(c))
    case Discard =>
      w.(procs := w.procs[t := p.(phase := Discarded(p.phase.child), children := Without(p.children, p.phase.child))])
    case DiscardUp => Move(UpZombie(w, p.phase.child), t, User)
    case Wait(c) =>
      if c in p.children then Move(w, t, AwaitExit(c)) else w.(log := w.log + [Waited(t, c, -1, false)])
    case ExitKnown =>
      var c := p.phase.child;
      var w1 := w.(procs := w.procs[c := w.procs[c].(waitSema := w.procs[c].waitSema - 1)]);
      Move(w1, t, Collecting(c))
    case Collect =>
      var c := p.phase.child;
      w.(procs := w.procs[t := p.(phase := Delisted(c, w.procs[c].exitStatus), children := Without(p.children, c))])
    case CollectUp =>
      Move(UpZombie(w, p.phase.child), t, User).(log := w.log + [Waited(t, p.phase.child, p.phase.status, true)])
    case Exit(status) => w.(procs := w.procs[t := p.(phase := Exiting, exitStatus := status, passed := Some(status))])
    case OrphanAll => var w1 := w.(procs := UpAll(w.procs, p.children)); Move(w1, t, Orphaned)
    case Announce => w.(procs := w.procs[t := p.(phase := Zombie, waitSema := p.waitSema + 1,
        waitUps := p.waitUps + 1)])
    case Leave => w.(procs := w.procs[t := p.(phase := Dying, zombieSema := p.zombieSema - 1)])
    case Free => Move(w, t, Freed)
  }

  // ---- invariants -----------------------------------------------------------------------------

  /** The process has not yet run process_cleanup's loop over its children. */
  predicate BeforeLoop(ph: Phase) {
    !ph.Orphaned? && !ph.Zombie? && !ph.Dying? && !ph.Freed? && !ph.LoadFailed?
  }

  predicate Gone(ph: Phase) {
    ph.Dying? || ph.Freed?
  }

  /** The child a process holds outside its list: not yet on it, or already off it but its
      zombie_sema not yet upped. */
  function InHand(ph: Phase): Option<nat> {
    match ph
    case Created(c) => Some(c)
    case Discarded(c) => Some(c)
    case Delisted(c, _) => Some(c)
    case _ => None
  }

  /** The listed child a process is working on. */
  function AtWork(ph: Phase): Option<nat> {
    match ph
    case AwaitLoad(c) => Some(c)
    case BadLoad(c) => Some(c)
    case AwaitExit(c) => Some(c)
    case Collecting(c) => Some(c)
    case _ => None
  }

  /** p still owes c the up of its zombie_sema. */
  predicate Owes(p: Process, c: nat) {
    BeforeLoop(p.phase) && (c in p.children || InHand(p.phase) == Some(c))
  }

  /** A process's own books: zombie_sema, wait_sema and the exit status. */
  predicate BooksOk(p: Process) {
    && p.zombieSema + (if Gone(p.phase) then 1 else 0) == p.zombieUps
    && (p.waitUps > 0 ==> p.passed.Some?)
    && p.waitSema <= p.waitUps
    && (p.phase.Zombie? ==> p.waitUps == 1) && (!p.phase.Zombie? && !Gone(p.phase) ==> p.waitUps == 0) && p.waitUps <= 1
    && (p.passed.Some? ==> p.exitStatus == p.passed.value)
    && (p.phase.Exiting? || p.phase.Orphaned? || p.phase.Zombie? ==> p.passed.Some?)
    && (p.passed.Some? ==> p.phase.Exiting? || p.phase.Orphaned? || p.phase.Zombie? || Gone(p.phase))
  }

  /** A process's list: its own children, once each. */
  ghost predicate ListOk(procs: map<nat, Process>, t: nat)
    requires t in procs
  {
    var p := procs[t];
    && NoDuplicates(p.children)
    && (forall c | c in p.children :: c in procs && procs[c].parent == Some(t) && c != t)
    && (InHand(p.phase).Some? ==> var c := InHand(p.phase).value;
       c in procs && procs[c].parent == Some(t) && c !in p.children && c != t)
    && (AtWork(p.phase).Some? ==> AtWork(p.phase).value in p.children)
    && (p.phase == Loading || p.phase == LoadFailed ==> p.children == [])
  }

  /** zombie_sema has been upped exactly if the parent no longer owes it. */
  predicate DebtOk(procs: map<nat, Process>, c: nat)
    requires c in procs
  {
    match procs[c].parent
    case None => procs[c].zombieUps == 0
    case Some(t) => t in procs && t != c && procs[c].zombieUps == if Owes(procs[t], c) then 0 else 1
  }

  /** The waiter is done with the child. */
  predicate Settled(procs: map<nat, Process>, t: nat, c: nat) {
    t in procs && !Owes(procs[t], c) && c !in procs[t].children
  }

  /** What process_wait has returned: the status of a child of the waiter, collected at most
      once and no longer on the list, or -1. */
  ghost predicate LogOk(w: World) {
    && (forall x | x in w.log && x.collected ::
          x.child in w.procs && w.procs[x.child].parent == Some(x.waiter) && w.procs[x.child].passed == Some(x.result)
          && Settled(w.procs, x.waiter, x.child))
    && (forall i, j | 0 <= i < j < |w.log| && w.log[i].collected && w.log[j].collected ::
       w.log[i].child != w.log[j].child)
    && (forall x | x in w.log && !x.collected :: x.result == -1)
  }

  /** A status in hand is the one the child passed. */
  ghost predicate StatusOk(procs: map<nat, Process>, t: nat)
    requires t in procs
  {
    match procs[t].phase
    case Collecting(c) => c in procs && procs[c].passed.Some?
    case Delisted(c, status) => c in procs && procs[c].passed == Some(status)
    case _ => true
  }

  ghost predicate Inv(w: World) {
    && (forall t | t in w.procs ::
       BooksOk(w.procs[t]) && ListOk(w.procs, t) && DebtOk(w.procs, t) && StatusOk(w.procs, t))
    && LogOk(w)
  }

  // ---- preservation ---------------------------------------------------------------------------

  /** What no step takes back: existence, parentage and a status once passed. */
  ghost predicate Grows(procs: map<nat, Process>, procs': map<nat, Process>) {
    forall t | t in procs ::
      t in procs' && procs'[t].parent == procs[t].parent
          && (procs[t].passed.Some? ==> procs'[t].passed == procs[t].passed)
  }

  predicate SameRole(p: Process, p': Process) {
    p'.phase == p.phase && p'.children == p.children
  }

  lemma RoleStays(procs: map<nat, Process>, procs': map<nat, Process>, u: nat)
    requires Grows(procs, procs') && u in procs && SameRole(procs[u], procs'[u]) && ListOk(procs, u)
             && StatusOk(procs, u)
    ensures ListOk(procs', u) && StatusOk(procs', u)
  {
  }

  lemma DebtStays(procs: map<nat, Process>, procs': map<nat, Process>, c: nat)
    requires Grows(procs, procs') && c in procs && DebtOk(procs, c) && procs'[c].zombieUps == procs[c].zombieUps
    requires procs[c].parent.Some? ==> var t := procs[c].parent.value;
             t in procs && (Owes(procs'[t], c) <==> Owes(procs[t], c))
    ensures DebtOk(procs', c)
  {
  }

  lemma LogStays(w: World, w': World)
    requires LogOk(w) && w'.log == w.log && Grows(w.procs, w'.procs)
    requires forall x | x in w.log && x.collected :: Settled(w'.procs, x.waiter, x.child)
    ensures LogOk(w')
  {
  }

  /** One process changed, in a way that leaves its debts as they were. */
  lemma OneChanges(w: World, t: nat, p: Process)
    requires Inv(w) && t in w.procs && p.parent == w.procs[t].parent && p.zombieUps == w.procs[t].zombieUps
    requires w.procs[t].passed.Some? ==> p.passed == w.procs[t].passed
    requires forall c :: Owes(p, c) <==> Owes(w.procs[t], c)
    requires forall c | c in p.children :: c in w.procs[t].children || Owes(w.procs[t], c)
    requires var w' := w.(procs := w.procs[t := p]); BooksOk(p) && ListOk(w'.procs, t) && StatusOk(w'.procs, t)
    ensures Inv(w.(procs := w.procs[t := p]))
  {
    hide BooksOk, ListOk, StatusOk, DebtOk, LogOk, Owes;
    var w' := w.(procs := w.procs[t := p]);
    forall u | u in w'.procs ensures BooksOk(w'.procs[u]) && ListOk(w'.procs, u) && DebtOk(w'.procs, u)
        && StatusOk(w'.procs, u) {
      if u != t {
        RoleStays(w.procs, w'.procs, u);
      }
      DebtParent(w.procs, u);
      DebtStays(w.procs, w'.procs, u);
    }
    forall x | x in w.log && x.collected ensures Settled(w'.procs, x.waiter, x.child) {
      Logged(w, x);
    }
    LogStays(w, w');
  }

  lemma DebtParent(procs: map<nat, Process>, c: nat)
    requires c in procs && DebtOk(procs, c)
    ensures procs[c].parent.Some? ==> procs[c].parent.value in procs
  {
  }

  lemma Logged(w: World, x: Waited)
    requires LogOk(w) && x in w.log && x.collected
    ensures x.child in w.procs && x.waiter in w.procs && w.procs[x.child].parent == Some(x.waiter)
    ensures w.procs[x.child].passed == Some(x.result) && !Owes(w.procs[x.waiter], x.child)
    ensures x.child !in w.procs[x.waiter].children
  {
  }

  lemma Own(w: World, t: nat)
    requires Inv(w) && t in w.procs
    ensures BooksOk(w.procs[t]) && ListOk(w.procs, t) && DebtOk(w.procs, t) && StatusOk(w.procs, t)
  {
    hide LogOk, BooksOk, ListOk, DebtOk, StatusOk;
  }

  lemma {:induction false} WithoutMembers(s: seq<nat>, c: nat)
    requires NoDuplicates(s)
    ensures NoDuplicates(Without(s, c)) && forall x :: x in Without(s, c) <==> x in s && x != c
  {
    if s != [] {
      assert forall x | x in s :: x == s[0] || x in s[1..];
      if s[0] == c {
        assert s[0] !in s[1..];
      } else {
        WithoutMembers(s[1..], c);
        var r := Without(s[1..], c);
        assert s[0] !in s[1..];
        assert Without(s, c) == [s[0]] + r;
      }
    }
  }

  // ---- one lemma per step -----------------------------------------------------------------------

  lemma ExecKeeps(w: World, t: nat, c: nat)
    requires Inv(w) && Enabled(w, t, Exec(c))
    ensures Inv(Next(w, t, Exec(c)))
  {
    hide LogOk, BooksOk, ListOk, DebtOk, StatusOk;
    var w' := Next(w, t, Exec(c));
    forall u | u in w'.procs ensures BooksOk(w'.procs[u]) && ListOk(w'.procs, u) && DebtOk(w'.procs, u)
        && StatusOk(w'.procs, u) {
      ExecProcess(w, t, c, u);
    }
    forall x | x in w.log && x.collected ensures Settled(w'.procs, x.waiter, x.child) {
      Logged(w, x);
    }
    LogStays(w, w');
  }

  lemma ExecProcess(w: World, t: nat, c: nat, u: nat)
    requires Inv(w) && Enabled(w, t, Exec(c)) && u in Next(w, t, Exec(c)).procs
    ensures var procs' := Next(w, t, Exec(c)).procs;
            BooksOk(procs'[u]) && ListOk(procs', u) && DebtOk(procs', u) && StatusOk(procs', u)
  {
    hide Inv;
    var w' := Next(w, t, Exec(c));
    Own(w, t);
    if u in w.procs {
      Own(w, u);
      DebtStays(w.procs, w'.procs, u);
      if u != t {
        RoleStays(w.procs, w'.procs, u);
      }
    }
  }

  lemma AddChildKeeps(w: World, t: nat)
    requires Inv(w) && Enabled(w, t, AddChild)
    ensures Inv(Next(w, t, AddChild))
  {
    hide Inv;
    Own(w, t);
    var p := w.procs[t];
    OneChanges(w, t, p.(phase := AwaitLoad(p.phase.child), children := p.children + [p.phase.child]));
  }

  lemma LoadDoneKeeps(w: World, t: nat, ok: bool)
    requires Inv(w) && Enabled(w, t, LoadDone(ok))
    ensures Inv(Next(w, t, LoadDone(ok)))
  {
    hide Inv;
    Own(w, t);
    var p := w.procs[t];
    OneChanges(w, t, p.(phase := if ok then User else LoadFailed, loadSuccess := ok, loadSema := p.loadSema + 1));
  }

  lemma DiscardKeeps(w: World, t: nat)
    requires Inv(w) && Enabled(w, t, Discard)
    ensures Inv(Next(w, t, Discard))
  {
    hide Inv, NoDuplicates, Without;
    Own(w, t);
    var p := w.procs[t];
    WithoutMembers(p.children, p.phase.child);
    OneChanges(w, t, p.(phase := Discarded(p.phase.child), children := Without(p.children, p.phase.child)));
  }

  lemma CollectKeeps(w: World, t: nat)
    requires Inv(w) && Enabled(w, t, Collect)
    ensures Inv(Next(w, t, Collect))
  {
    hide Inv, NoDuplicates, Without;
    Own(w, t);
    var p := w.procs[t];
    var c := p.phase.child;
    Own(w, c);
    WithoutMembers(p.children, c);
    OneChanges(w, t, p.(phase := Delisted(c, w.procs[c].exitStatus), children := Without(p.children, c)));
  }

  /** The semaphore that a down takes from belongs to a child. */
  lemma LoadKnownKeeps(w: World, t: nat)
    requires Inv(w) && Enabled(w, t, LoadKnown)
    ensures Inv(Next(w, t, LoadKnown))
  {
    hide Inv, NoDuplicates;
    Own(w, t);
    var c := w.procs[t].phase.child;
    Own(w, c);
    var p := w.procs[c].(loadSema := w.procs[c].loadSema - 1);
    RoleStays(w.procs, w.procs[c := p], c);
    OneChanges(w, c, p);
    var w1 := w.(procs := w.procs[c := p]);
    Own(w1, t);
    OneChanges(w1, t, w1.procs[t].(phase := if w.procs[c].loadSuccess then User else BadLoad(c)));
  }

  lemma ExitKnownKeeps(w: World, t: nat)
    requires Inv(w) && Enabled(w, t, ExitKnown)
    ensures Inv(Next(w, t, ExitKnown))
  {
    hide Inv, NoDuplicates;
    Own(w, t);
    var c := w.procs[t].phase.child;
    Own(w, c);
    var p := w.procs[c].(waitSema := w.procs[c].waitSema - 1);
    RoleStays(w.procs, w.procs[c := p], c);
    OneChanges(w, c, p);
    var w1 := w.(procs := w.procs[c := p]);
    Own(w1, t);
    OneChanges(w1, t, w1.procs[t].(phase := Collecting(c)));
  }

  lemma WaitKeeps(w: World, t: nat, c: nat)
    requires Inv(w) && Enabled(w, t, Wait(c))
    ensures Inv(Next(w, t, Wait(c)))
  {
    hide Inv, NoDuplicates;
    if c in w.procs[t].children {
      Own(w, t);
      OneChanges(w, t, w.procs[t].(phase := AwaitExit(c)));
    } else {
      WaitMisses(w, t, c);
    }
  }

  lemma WaitMisses(w: World, t: nat, c: nat)
    requires Inv(w)
    ensures Inv(w.(log := w.log + [Waited(t, c, -1, false)]))
  {
    hide BooksOk, ListOk, DebtOk, StatusOk, LogOk;
    LogMisses(w, t, c);
  }

  lemma LogMisses(w: World, t: nat, c: nat)
    requires LogOk(w)
    ensures LogOk(w.(log := w.log + [Waited(t, c, -1, false)]))
  {
    hide Settled;
  }

  lemma ExitKeeps(w: World, t: nat, status: int)
    requires Inv(w) && Enabled(w, t, Exit(status))
    ensures Inv(Next(w, t, Exit(status)))
  {
    hide Inv, NoDuplicates;
    Own(w, t);
    OneChanges(w, t, w.procs[t].(phase := Exiting, exitStatus := status, passed := Some(status)));
  }

  lemma AnnounceKeeps(w: World, t: nat)
    requires Inv(w) && Enabled(w, t, Announce)
    ensures Inv(Next(w, t, Announce))
  {
    hide Inv, NoDuplicates;
    Own(w, t);
    var p := w.procs[t];
    OneChanges(w, t, p.(phase := Zombie, waitSema := p.waitSema + 1, waitUps := p.waitUps + 1));
  }

  lemma LeaveKeeps(w: World, t: nat)
    requires Inv(w) && Enabled(w, t, Leave)
    ensures Inv(Next(w, t, Leave))
  {
    hide Inv, NoDuplicates;
    Own(w, t);
    OneChanges(w, t, w.procs[t].(phase := Dying, zombieSema := w.procs[t].zombieSema - 1));
  }

  lemma FreeKeeps(w: World, t: nat)
    requires Inv(w) && Enabled(w, t, Free)
    ensures Inv(Next(w, t, Free))
  {
    hide Inv, NoDuplicates;
    Own(w, t);
    OneChanges(w, t, w.procs[t].(phase := Freed));
  }

  // ---- paying the debt ------------------------------------------------------------------------------

  /** The up that a process still owed the child in its hand. */
  lemma Pays(w: World, t: nat, c: nat)
    requires Inv(w) && t in w.procs && InHand(w.procs[t].phase) == Some(c) && c in w.procs
    ensures var w1 := Move(UpZombie(w, c), t, User);
            forall u | u in w1.procs ::
                BooksOk(w1.procs[u]) && ListOk(w1.procs, u) && DebtOk(w1.procs, u) && StatusOk(w1.procs, u)
  {
    hide Inv, BooksOk, ListOk, DebtOk, StatusOk;
    var w1 := Move(UpZombie(w, c), t, User);
    forall u | u in w1.procs ensures BooksOk(w1.procs[u]) && ListOk(w1.procs, u) && DebtOk(w1.procs, u)
        && StatusOk(w1.procs, u) {
      PaysProcess(w, t, c, u);
    }
  }

  lemma PaysProcess(w: World, t: nat, c: nat, u: nat)
    requires Inv(w) && t in w.procs && InHand(w.procs[t].phase) == Some(c) && c in w.procs && u in w.procs
    ensures var procs' := Move(UpZombie(w, c), t, User).procs;
            BooksOk(procs'[u]) && ListOk(procs', u) && DebtOk(procs', u) && StatusOk(procs', u)
  {
    hide Inv, NoDuplicates, DebtOk;
    var w1 := Move(UpZombie(w, c), t, User);
    Own(w, t);
    Own(w, c);
    Own(w, u);
    if u != t {
      RoleStays(w.procs, w1.procs, u);
    }
    assert DebtOk(w1.procs, u) by {
      hide BooksOk, StatusOk;
      PaysDebt(w.procs, w1.procs, t, c, u);
    }
  }

  /** The debt to c is paid, and no other debt changes. */
  lemma PaysDebt(procs: map<nat, Process>, procs': map<nat, Process>, t: nat, c: nat, u: nat)
    requires t in procs && c in procs && u in procs && DebtOk(procs, u) && DebtOk(procs, c) && ListOk(procs, t)
    requires InHand(procs[t].phase) == Some(c)
    requires procs' == procs[c := Upped(procs[c])][t := procs[t].(phase := User)]
    ensures DebtOk(procs', u)
  {
    hide NoDuplicates;
  }

  lemma DiscardUpKeeps(w: World, t: nat)
    requires Inv(w) && Enabled(w, t, DiscardUp)
    ensures Inv(Next(w, t, DiscardUp))
  {
    hide BooksOk, ListOk, DebtOk, StatusOk, LogOk;
    var c := w.procs[t].phase.child;
    Pays(w, t, c);
    var w' := Next(w, t, DiscardUp);
    forall x | x in w.log && x.collected ensures Settled(w'.procs, x.waiter, x.child) {
      Logged(w, x);
    }
    LogStays(w, w');
  }

  lemma CollectUpKeeps(w: World, t: nat)
    requires Inv(w) && Enabled(w, t, CollectUp)
    ensures Inv(Next(w, t, CollectUp))
  {
    hide BooksOk, ListOk, DebtOk, StatusOk, LogOk;
    var c := w.procs[t].phase.child;
    Pays(w, t, c);
    var w1 := Move(UpZombie(w, c), t, User);
    forall x | x in w.log && x.collected ensures Settled(w1.procs, x.waiter, x.child) {
      Logged(w, x);
    }
    LogStays(w, w1);
    Own(w, t);
    InHandOwn(w, t, c);
    LogCollects(w, w1, t, c, w.procs[t].phase.status);
  }

  lemma InHandOwn(w: World, t: nat, c: nat)
    requires t in w.procs && ListOk(w.procs, t) && StatusOk(w.procs, t) && w.procs[t].phase.Delisted?
             && w.procs[t].phase.child == c
    ensures c in w.procs && w.procs[c].parent == Some(t) && c !in w.procs[t].children && c != t && Owes(w.procs[t], c)
    ensures w.procs[c].passed == Some(w.procs[t].phase.status)
  {
  }

  lemma LogCollects(w: World, w1: World, t: nat, c: nat, status: int)
    requires LogOk(w) && LogOk(w1) && w1.log == w.log && t in w.procs && Owes(w.procs[t], c)
    requires c in w.procs && w.procs[c].parent == Some(t)
    requires c in w1.procs && w1.procs[c].parent == Some(t) && w1.procs[c].passed == Some(status)
             && Settled(w1.procs, t, c)
    ensures LogOk(w1.(log := w1.log + [Waited(t, c, status, true)]))
  {
    hide Owes;
    var w' := w1.(log := w1.log + [Waited(t, c, status, true)]);
    forall i, j | 0 <= i < j < |w'.log| && w'.log[i].collected
        && w'.log[j].collected ensures w'.log[i].child != w'.log[j].child {
      if j == |w.log| {
        assert w.log[i] in w.log;
        Logged(w, w.log[i]);
      }
    }
  }

  lemma OrphanProcess(w: World, procs': map<nat, Process>, t: nat, u: nat)
    requires Inv(w) && t in w.procs && u in w.procs && w.procs[t].phase == Exiting
    requires procs' == UpAll(w.procs,
             w.procs[t].children)[t := UpAll(w.procs, w.procs[t].children)[t].(phase := Orphaned)]
    ensures BooksOk(procs'[u]) && ListOk(procs', u) && DebtOk(procs', u) && StatusOk(procs', u)
  {
    hide Inv, NoDuplicates;
    Own(w, t);
    Own(w, u);
    assert t !in w.procs[t].children;
    if u != t {
      RoleStays(w.procs, procs', u);
    }
  }

  lemma OrphanAllKeeps(w: World, t: nat)
    requires Inv(w) && Enabled(w, t, OrphanAll)
    ensures Inv(Next(w, t, OrphanAll))
  {
    hide BooksOk, ListOk, DebtOk, StatusOk, LogOk;
    var w' := Next(w, t, OrphanAll);
    forall u | u in w'.procs ensures BooksOk(w'.procs[u]) && ListOk(w'.procs, u) && DebtOk(w'.procs, u)
        && StatusOk(w'.procs, u) {
      OrphanProcess(w, w'.procs, t, u);
    }
    forall x | x in w.log && x.collected ensures Settled(w'.procs, x.waiter, x.child) {
      Logged(w, x);
    }
    LogStays(w, w');
  }

  /** Every step of every process keeps the invariant. */
  lemma NextKeeps(w: World, t: nat, a: Action)
    requires Inv(w) && Enabled(w, t, a)
    ensures Inv(Next(w, t, a))
  {
    hide Inv, Next, Enabled;
    match a {
      case Exec(c) => ExecKeeps(w, t, c);
      case AddChild => AddChildKeeps(w, t);
      case LoadDone(ok) => LoadDoneKeeps(w, t, ok);
      case LoadKnown => LoadKnownKeeps(w, t);
      case Discard => DiscardKeeps(w, t);
      case DiscardUp => DiscardUpKeeps(w, t);
      case Wait(c) => WaitKeeps(w, t, c);
      case ExitKnown => ExitKnownKeeps(w, t);
      case Collect => CollectKeeps(w, t);
      case CollectUp => CollectUpKeeps(w, t);
      case Exit(status) => ExitKeeps(w, t, status);
      case OrphanAll => OrphanAllKeeps(w, t);
      case Announce => AnnounceKeeps(w, t);
      case Leave => LeaveKeeps(w, t);
      case Free => FreeKeeps(w, t);
    }
  }

  // ---- runs -----------------------------------------------------------------------------------------

  datatype Step = Step(thread: nat, action: Action)

  ghost predicate Possible(w: World, steps: seq<Step>)
    requires Inv(w)
    decreases |steps|
  {
    steps != [] ==>
      && Enabled(w, steps[0].thread, steps[0].action)
      && (NextKeeps(w, steps[0].thread, steps[0].action);
          Possible(Next(w, steps[0].thread, steps[0].action), steps[1..]))
  }

  function After(w: World, steps: seq<Step>): (end: World)
    requires Inv(w) && Possible(w, steps)
    ensures Inv(end)
    decreases |steps|
  {
    if steps == [] then w
    else
      NextKeeps(w, steps[0].thread, steps[0].action);
      After(Next(w, steps[0].thread, steps[0].action), steps[1..])
  }

  /** Only the initial thread exists. */
  function Booted(main: nat): (w: World)
    ensures Inv(w)
  {
    World(map[main := NEWBORN.(phase := User)], [])
  }

  /** Every reachable state of every interleaving satisfies the invariant. */
  function Reached(main: nat, steps: seq<Step>): (end: World)
    requires Possible(Booted(main), steps)
    ensures Inv(end)
  {
    After(Booted(main), steps)
  }

  /** Each child's zombie_sema is upped at most once, and exactly once when its parent has
      been through process_cleanup; and no process goes away before that up. */
  lemma ReleasedOnce(main: nat, steps: seq<Step>, c: nat, t: nat)
    requires Possible(Booted(main), steps) && c in Reached(main, steps).procs
    requires Reached(main, steps).procs[c].parent == Some(t)
    ensures var procs := Reached(main, steps).procs;
            && procs[c].zombieUps <= 1
            && t in procs && (!BeforeLoop(procs[t].phase) ==> procs[c].zombieUps == 1)
            && (Gone(procs[c].phase) ==> procs[c].zombieUps == 1)
  {
    hide Inv, Reached, Booted, Possible;
    Own(Reached(main, steps), c);
  }

  /** No thread on the child list of a live parent, or in a live parent's hands, has been freed. */
  lemma ListedIsAlive(main: nat, steps: seq<Step>, t: nat, c: nat)
    requires Possible(Booted(main), steps) && t in Reached(main, steps).procs && Owes(Reached(main, steps).procs[t], c)
    ensures c in Reached(main, steps).procs && !Gone(Reached(main, steps).procs[c].phase)
  {
    hide Inv, Reached, Booted, Possible, NoDuplicates;
    var w := Reached(main, steps);
    Own(w, t);
    Own(w, c);
  }

  /** What process_wait returns: the status that the child passed to process_cleanup, or -1;
      and no child is collected twice. */
  lemma WaitReturns(main: nat, steps: seq<Step>, i: nat)
    requires Possible(Booted(main), steps) && i < |Reached(main, steps).log|
    ensures var w := Reached(main, steps); var x := w.log[i];
            if x.collected then
              && x.child in w.procs && w.procs[x.child].parent == Some(x.waiter)
                 && w.procs[x.child].passed == Some(x.result)
              && forall j | 0 <= j < |w.log| && j != i && w.log[j].collected :: w.log[j].child != x.child
            else x.result == -1
  {
    hide Reached, Booted, Possible, BooksOk, ListOk, DebtOk, StatusOk;
    var w := Reached(main, steps);
    assert w.log[i] in w.log;
  }

  /** Once collected, a child can be waited for again any number of times: the call returns
      -1 at once and changes nothing. */
  lemma LaterWaitsFail(main: nat, steps: seq<Step>, x: Waited)
    requires Possible(Booted(main), steps) && x in Reached(main, steps).log && x.collected
    requires Enabled(Reached(main, steps), x.waiter, Wait(x.child))
    ensures var w := Reached(main, steps);
            Next(w, x.waiter, Wait(x.child)) == w.(log := w.log + [Waited(x.waiter, x.child, -1, false)])
  {
    hide Reached, Booted, Possible, BooksOk, ListOk, DebtOk, StatusOk;
    Logged(Reached(main, steps), x);
  }
}
