/** The alarm clock of src/devices/timer.c, a client of list_sort. */
module Timer {
  import opened Basics
  import opened Ordering
  import opened LinkedList

  /** compare_wake_time, for elements whose tick_to_wake is given by wake. */
  function Earlier<T>(wake: T -> int): (T, T) -> bool {
    (a, b) => wake(a) < wake(b)
  }

  lemma EarlierIsOrder<T>(wake: T -> int, S: set<T>)
    ensures StrictWeakOrder(Earlier(wake), S)
  {
  }

  /** How many elements at the front of s are due by the given tick. */
  function Due<T>(wake: T -> int, s: seq<T>, tick: int): (n: nat)
    ensures n <= |s|
    ensures forall i | 0 <= i < n :: wake(s[i]) <= tick
    ensures n < |s| ==> tick < wake(s[n])
  {
    if s == [] || tick < wake(s[0]) then 0 else 1 + Due(wake, s[1..], tick)
  }

  /** x put into a sorted sequence, after every element with an equal or earlier deadline. */
  function Inserted<T>(wake: T -> int, s: seq<T>, x: T): (r: seq<T>)
    ensures |r| == |s| + 1
  {
    var p := Due(wake, s, wake(x));
    s[..p] + [x] + s[p..]
  }

  lemma InsertedSorted<T>(wake: T -> int, s: seq<T>, x: T)
    requires Sorted(Earlier(wake), s)
    ensures Sorted(Earlier(wake), Inserted(wake, s, x))
  {
    hide Due;
    var r, p := Inserted(wake, s, x), Due(wake, s, wake(x));
    var less := Earlier(wake);
    forall i, j | 0 <= i < j < |r| ensures !less(r[j], r[i]) {
      assert r[i] == if i < p then s[i] else if i == p then x else s[i - 1];
      assert r[j] == if j < p then s[j] else if j == p then x else s[j - 1];
      assert p < |s| && p <= j - 1 < |s| ==> !less(s[j - 1], s[p]);
    }
  }

  lemma DueSplits<T>(wake: T -> int, s: seq<T>, tick: int, z: T)
    requires Sorted(Earlier(wake), s) && z in s[Due(wake, s, tick)..]
    ensures tick < wake(z)
  {
    hide Due;
    var less, p := Earlier(wake), Due(wake, s, tick);
    var i :| 0 <= i < |s[p..]| && s[p..][i] == z;
    assert z == s[p + i];
    assert i > 0 ==> !less(s[p + i], s[p]);
  }

  /** Every class of equal deadlines keeps its order, the new element last. */
  lemma InsertedClass<T>(wake: T -> int, s: seq<T>, x: T, y: T)
    requires Sorted(Earlier(wake), s)
    ensures Class(Earlier(wake), y, Inserted(wake, s, x)) == Class(Earlier(wake), y, s + [x])
  {
    hide Due, Class, Sorted;
    var less, p := Earlier(wake), Due(wake, s, wake(x));
    var a, b := s[..p], s[p..];
    if Equivalent(less, y, x) {
      forall z | z in b ensures !Equivalent(less, y, z) {
        DueSplits(wake, s, wake(x), z);
      }
      ClassEmpty(less, y, b);
    } else {
      ClassEmpty(less, y, [x]);
    }
    Shuffle(less, y, a, b, [x]);
    assert s + [x] == a + (b + [x]) && Inserted(wake, s, x) == a + ([x] + b);
  }

  lemma Shuffle<T>(less: (T, T) -> bool, y: T, a: seq<T>, b: seq<T>, c: seq<T>)
    requires Class(less, y, b) == [] || Class(less, y, c) == []
    ensures Class(less, y, a + (b + c)) == Class(less, y, a + (c + b))
  {
    hide Class;
    ClassConcat(less, y, a, b + c);
    ClassConcat(less, y, b, c);
    ClassConcat(less, y, a, c + b);
    ClassConcat(less, y, c, b);
  }

  lemma InsertedMultiset<T>(wake: T -> int, s: seq<T>, x: T)
    ensures multiset(Inserted(wake, s, x)) == multiset(s + [x])
  {
    hide Due;
    var p := Due(wake, s, wake(x));
    assert s == s[..p] + s[p..];
  }

  /** Appending to a sorted list and sorting it stably is insertion. */
  lemma SortInserts<T>(wake: T -> int, S: set<T>, s: seq<T>, x: T, r: seq<T>)
    requires Sorted(Earlier(wake), s) && Within(s + [x], S)
    requires Sorted(Earlier(wake), r) && StableRearrangement(Earlier(wake), S, s + [x], r)
    ensures r == Inserted(wake, s, x)
  {
    var less, t := Earlier(wake), Inserted(wake, s, x);
    EarlierIsOrder(wake, S);
    InsertedSorted(wake, s, x);
    InsertedMultiset(wake, s, x);
    forall y | y in S ensures Class(less, y, t) == Class(less, y, r) {
      InsertedClass(wake, s, x, y);
    }
    SameMembers(s + [x], r, S);
    SameMembers(s + [x], t, S);
    StableSortUnique(less, S, t, r);
  }

  lemma SameMembers<T>(s: seq<T>, t: seq<T>, S: set<T>)
    requires Within(s, S) && multiset(s) == multiset(t)
    ensures Within(t, S)
  {
    forall x | x in t ensures x in S {
      assert x in multiset(s);
    }
  }

  // ---- the code -------------------------------------------------------------------------------

  /** tick_to_wake of the thread an element belongs to. */
  function WakeOf(tickToWake: map<Elem, int>): Elem -> int {
    e => if e in tickToWake then tickToWake[e] else 0
  }

  class AlarmClock {
    const list: List
    var ticks: int
    var tickToWake: map<Elem, int>

    ghost predicate Valid()
      reads this, list, list.Nodes()
    {
      list.Valid() && Sorted(Earlier(WakeOf(tickToWake)), list.elems)
    }

    constructor ()
      ensures Valid() && list.elems == [] && ticks == 0
    {
      list := new List();
      ticks := 0;
      tickToWake := map[];
    }

    /** timer_sleep, from a thread that read the tick count start. */
    method Sleep(e: Elem, start: int, duration: int)
      requires Valid() && e !in list.Nodes()
      modifies this`tickToWake, list, list.Nodes(), e
      ensures Valid() && tickToWake == old(tickToWake)[e := start + duration]
      ensures list.elems == Inserted(WakeOf(tickToWake), old(list.elems), e)
    {
      hide Sorted, StableRearrangement, Earlier, WakeOf, Inserted, StrictWeakOrder, NoDuplicates;
      ghost var s := list.elems;
      ghost var before := WakeOf(tickToWake);
      tickToWake := tickToWake[e := start + duration];
      SameDeadlines(old(tickToWake), e, start + duration, s);
      list.PushBack(e);
      var less := Earlier<Elem>(WakeOf(tickToWake));
      ghost var S := set x | x in list.elems;
      EarlierIsOrder(WakeOf(tickToWake), S);
      assert Within(list.elems, S);
      list.Sort(less, S);
      SortInserts(WakeOf(tickToWake), S, s, e, list.elems);
    }

    /** timer_interrupt: wakes the front of the list as far as it is due. */
    method Interrupt() returns (woken: seq<Elem>)
      requires Valid()
      modifies this`ticks, list, list.Nodes()
      ensures Valid() && ticks == old(ticks) + 1
      ensures woken == old(list.elems)[..Due(WakeOf(tickToWake), old(list.elems), ticks)]
      ensures list.elems == old(list.elems)[Due(WakeOf(tickToWake), old(list.elems), ticks)..]
    {
      hide Due, NoDuplicates, Linked, ChainOf, Earlier, Sorted, WakeOf;
      ghost var s := list.elems;
      ghost var wake := WakeOf(tickToWake);
      ticks := ticks + 1;
      woken := [];
      while list.head.next != list.tail
        invariant Valid() && list.Nodes() <= old(list.Nodes()) && ticks == old(ticks) + 1
        invariant |woken| <= |s| && woken == s[..|woken|] && list.elems == s[|woken|..]
        invariant |woken| <= Due(wake, s, ticks)
        decreases |list.elems|
      {
        NotEmpty();
        var front := list.head.next;
        assert front == s[|woken|];
        if ticks < WakeOf(tickToWake)(front) {
          DueIs(wake, s, ticks, |woken|);
          return;
        }
        DuePast(wake, s, ticks, |woken|);
        var t := list.PopFront();
        woken := woken + [t];
        SortedRest(Earlier(wake), s, |woken|);
      }
      Empty();
      assert |woken| == |s| == Due(wake, s, ticks);
    }

    lemma NotEmpty()
      requires list.Valid() && list.head.next != list.tail
      ensures list.elems != [] && list.head.next == list.elems[0]
    {
    }

    lemma Empty()
      requires list.Valid() && list.head.next == list.tail
      ensures list.elems == []
    {
    }
  }

  lemma SameDeadlines(m: map<Elem, int>, e: Elem, d: int, s: seq<Elem>)
    requires e !in s && Sorted(Earlier(WakeOf(m)), s)
    ensures Sorted(Earlier(WakeOf(m[e := d])), s)
  {
  }

  lemma SortedRest<T>(less: (T, T) -> bool, s: seq<T>, n: nat)
    requires Sorted(less, s) && n <= |s|
    ensures Sorted(less, s[n..])
  {
  }

  lemma DueIs<T>(wake: T -> int, s: seq<T>, tick: int, n: nat)
    requires n < |s| && n <= Due(wake, s, tick) && tick < wake(s[n])
    ensures Due(wake, s, tick) == n
  {
  }

  lemma DuePast<T>(wake: T -> int, s: seq<T>, tick: int, n: nat)
    requires n < |s| && n <= Due(wake, s, tick) && wake(s[n]) <= tick
    ensures n < Due(wake, s, tick)
  {
  }

  // ---- runs -----------------------------------------------------------------------------------

  /** One call of timer_sleep: its deadline, and the tick at which it was put on the list. */
  datatype Sleeper = Sleeper(thread: nat, deadline: int, enqueued: int)

  datatype Wake = Wake(sleeper: Sleeper, tick: int)

  /** The clock with its history: all calls so far, and the wakeups in the order they came. */
  datatype Clock = Clock(now: int, sleeping: seq<Sleeper>, slept: seq<Sleeper>, wakes: seq<Wake>)

  /** A thread goes to sleep, or the timer interrupts.  The deadline counts from a tick that
      the thread read before, so it may already be past. */
  datatype Event = GoToSleep(thread: nat, start: int, duration: int) | Tick

  const ByDeadline := (s: Sleeper) => s.deadline

  function Next(c: Clock, ev: Event): Clock {
    match ev
    case GoToSleep(thread, start, duration) =>
      var x := Sleeper(thread, start + duration, c.now);
      c.(sleeping := Inserted(ByDeadline, c.sleeping, x), slept := c.slept + [x])
    case Tick =>
      var now := c.now + 1;
      var n := Due(ByDeadline, c.sleeping, now);
      Clock(now, c.sleeping[n..], c.slept, c.wakes + WakeAll(c.sleeping[..n], now))
  }

  function WakeAll(s: seq<Sleeper>, tick: int): (w: seq<Wake>)
    ensures |w| == |s| && forall i | 0 <= i < |s| :: w[i] == Wake(s[i], tick)
  {
    seq(|s|, i requires 0 <= i < |s| => Wake(s[i], tick))
  }

  function Woken(wakes: seq<Wake>): (s: seq<Sleeper>)
    ensures |s| == |wakes| && forall i | 0 <= i < |s| :: s[i] == wakes[i].sleeper
  {
    seq(|wakes|, i requires 0 <= i < |wakes| => wakes[i].sleeper)
  }

  /** When a sleeper has to be woken. */
  function WakeTick(x: Sleeper): int {
    if x.enqueued + 1 > x.deadline then x.enqueued + 1 else x.deadline
  }

  ghost predicate ClockOk(c: Clock) {
    && Sorted(Earlier(ByDeadline), c.sleeping)
    && (forall x | x in c.sleeping :: x.enqueued <= c.now < WakeTick(x))
    && (forall w | w in c.wakes :: w.tick == WakeTick(w.sleeper) <= c.now)
    && multiset(c.slept) == multiset(Woken(c.wakes) + c.sleeping)
    && (forall y ::
          Class(Earlier(ByDeadline), y, c.slept) ==
          Class(Earlier(ByDeadline), y, Woken(c.wakes) + c.sleeping))
  }

  lemma SleepKeeps(c: Clock, thread: nat, start: int, duration: int)
    requires ClockOk(c) && start <= c.now
    ensures ClockOk(Next(c, GoToSleep(thread, start, duration)))
  {
    hide Due, Class, Sorted, Inserted;
    var x := Sleeper(thread, start + duration, c.now);
    var c' := Next(c, GoToSleep(thread, start, duration));
    InsertedSorted(ByDeadline, c.sleeping, x);
    InsertedMultiset(ByDeadline, c.sleeping, x);
    forall z | z in c'.sleeping ensures z.enqueued <= c'.now < WakeTick(z) {
      assert z in multiset(c'.sleeping);
      assert z in c.sleeping + [x];
    }
    var w, less := Woken(c.wakes), Earlier(ByDeadline);
    assert multiset(w + c'.sleeping) == multiset(w) + multiset(c'.sleeping);
    forall y ensures Class(less, y, c'.slept) == Class(less, y, w + c'.sleeping) {
      InsertedClass(ByDeadline, c.sleeping, x, y);
      ClassConcat(less, y, c.slept, [x]);
      ClassConcat(less, y, w, c.sleeping);
      ClassConcat(less, y, w, c'.sleeping);
      ClassConcat(less, y, c.sleeping, [x]);
      Assoc(Class(less, y, w), Class(less, y, c.sleeping), Class(less, y, [x]));
    }
  }

  lemma WokenConcat(a: seq<Wake>, b: seq<Wake>)
    ensures Woken(a + b) == Woken(a) + Woken(b)
  {
  }

  /** The history only moves its border between woken and sleeping. */
  lemma TickHistory(wakes: seq<Wake>, s: seq<Sleeper>, n: nat, tick: int)
    requires n <= |s|
    ensures Woken(wakes + WakeAll(s[..n], tick)) + s[n..] == Woken(wakes) + s
  {
    var news := WakeAll(s[..n], tick);
    WokenConcat(wakes, news);
    assert Woken(news) == s[..n];
    assert s == s[..n] + s[n..];
  }

  lemma TickSleepers(c: Clock, x: Sleeper)
    requires ClockOk(c) && x in Next(c, Tick).sleeping
    ensures c.now + 1 < x.deadline && x.enqueued <= c.now + 1 < WakeTick(x)
  {
    hide Due, Class, Sorted, WakeAll;
    DueSplits(ByDeadline, c.sleeping, c.now + 1, x);
    assert x in c.sleeping;
  }

  lemma TickWakes(c: Clock, w: Wake)
    requires ClockOk(c) && w in Next(c, Tick).wakes
    ensures w.tick == WakeTick(w.sleeper) <= c.now + 1
  {
    hide Due, Class, Sorted, WakeAll;
    if w !in c.wakes {
      var s := c.sleeping[..Due(ByDeadline, c.sleeping, c.now + 1)];
      var i :| 0 <= i < |s| && w == WakeAll(s, c.now + 1)[i];
      assert s[i] == c.sleeping[i] && c.sleeping[i] in c.sleeping;
    }
  }

  /** After each interrupt all remaining sleepers have later deadlines. */
  lemma TickKeeps(c: Clock)
    requires ClockOk(c)
    ensures ClockOk(Next(c, Tick)) && forall x | x in Next(c, Tick).sleeping :: Next(c, Tick).now < x.deadline
  {
    var c', n := Next(c, Tick), Due(ByDeadline, c.sleeping, c.now + 1);
    TickHistory(c.wakes, c.sleeping, n, c.now + 1);
    SortedRest(Earlier(ByDeadline), c.sleeping, n);
    assert c'.now == c.now + 1;
    forall x | x in c'.sleeping ensures c'.now < x.deadline && x.enqueued <= c'.now < WakeTick(x) {
      TickSleepers(c, x);
    }
    forall w | w in c'.wakes ensures w.tick == WakeTick(w.sleeper) <= c'.now {
      TickWakes(c, w);
    }
    hide Due, Class, Sorted, WakeAll, Woken;
  }

  /** Every start tick was read before the call. */
  predicate Timely(c: Clock, ev: Event) {
    ev.GoToSleep? ==> ev.start <= c.now
  }

  predicate Possible(c: Clock, evs: seq<Event>)
    decreases |evs|
  {
    evs != [] ==> Timely(c, evs[0]) && Possible(Next(c, evs[0]), evs[1..])
  }

  function After(c: Clock, evs: seq<Event>): Clock
    decreases |evs|
  {
    if evs == [] then c else After(Next(c, evs[0]), evs[1..])
  }

  lemma {:induction false} RunKeeps(c: Clock, evs: seq<Event>)
    requires ClockOk(c) && Possible(c, evs)
    ensures ClockOk(After(c, evs))
    decreases |evs|
  {
    hide ClockOk, Next;
    if evs != [] {
      match evs[0]
      case GoToSleep(thread, start, duration) => SleepKeeps(c, thread, start, duration);
          RunKeeps(Next(c, evs[0]), evs[1..]);
      case Tick => TickKeeps(c); RunKeeps(Next(c, evs[0]), evs[1..]);
    }
  }

  // ---- what a run asks for ---------------------------------------------------------------------

  function TicksIn(evs: seq<Event>): nat {
    if evs == [] then 0 else (if evs[0].Tick? then 1 else 0) + TicksIn(evs[1..])
  }

  /** The calls of timer_sleep in a run that begins at tick now, in order. */
  function Calls(now: int, evs: seq<Event>): seq<Sleeper>
    decreases |evs|
  {
    if evs == [] then []
    else match evs[0]
      case GoToSleep(thread, start, duration) =>
        [Sleeper(thread, start + duration, now)] + Calls(now, evs[1..])
      case Tick => Calls(now + 1, evs[1..])
  }

  /** The clock's history is that of the run. */
  lemma {:induction false} HistoryIs(c: Clock, evs: seq<Event>)
    ensures After(c, evs).now == c.now + TicksIn(evs) && After(c, evs).slept == c.slept + Calls(c.now, evs)
    decreases |evs|
  {
    hide Inserted, Due, WakeAll;
    if evs != [] {
      HistoryIs(Next(c, evs[0]), evs[1..]);
      if evs[0].GoToSleep? {
        Assoc(c.slept, [Sleeper(evs[0].thread, evs[0].start + evs[0].duration, c.now)], Calls(c.now, evs[1..]));
      }
    }
  }

  /** The call that event i makes. */
  function CallOf(now: int, evs: seq<Event>, i: nat): Sleeper
    requires i < |evs| && evs[i].GoToSleep?
  {
    Sleeper(evs[i].thread, evs[i].start + evs[i].duration, now + TicksIn(evs[..i]))
  }

  lemma {:induction false} CallIsMade(now: int, evs: seq<Event>, i: nat)
    requires i < |evs| && evs[i].GoToSleep?
    ensures CallOf(now, evs, i) in Calls(now, evs)
    decreases i
  {
    if i > 0 {
      var rest, t := evs[1..], if evs[0].Tick? then 1 else 0;
      CallIsMade(now + t, rest, i - 1);
      assert evs[..i][0] == evs[0] && evs[..i][1..] == rest[..i - 1];
      assert CallOf(now, evs, i) == CallOf(now + t, rest, i - 1);
    }
  }

  /** Over every run from an empty clock: each call of timer_sleep in the run is answered by
      exactly one wakeup, at its due tick and not before; a call is unanswered exactly while its
      due tick has not come; and calls with equal deadlines are answered in the order they were
      made. */
  lemma WokenOnceOnTime(now: int, evs: seq<Event>)
    requires Possible(Clock(now, [], [], []), evs)
    ensures var c, calls := After(Clock(now, [], [], []), evs), Calls(now, evs);
            && c.now == now + TicksIn(evs)
            && multiset(Woken(c.wakes)) + multiset(c.sleeping) == multiset(calls)
            && (forall w | w in c.wakes :: w.tick == WakeTick(w.sleeper) <= c.now)
            && (forall x | x in c.sleeping :: c.now < WakeTick(x))
            && (forall y :: Class(Earlier(ByDeadline), y, Woken(c.wakes)) <= Class(Earlier(ByDeadline), y, calls))
  {
    var c0 := Clock(now, [], [], []);
    assert Woken(c0.wakes) + c0.sleeping == [];
    RunKeeps(c0, evs);
    HistoryIs(c0, evs);
    var c := After(c0, evs);
    hide Class, After;
    assert c.slept == Calls(now, evs);
    forall y ensures Class(Earlier(ByDeadline), y, Woken(c.wakes)) <= Class(Earlier(ByDeadline), y, c.slept) {
      ClassConcat(Earlier(ByDeadline), y, Woken(c.wakes), c.sleeping);
    }
  }

  /** A thread that calls timer_sleep for some ticks is woken at that many ticks after its start,
      or at the next tick if that is past; until then it sleeps. */
  lemma CallIsAnswered(now: int, evs: seq<Event>, i: nat)
    requires Possible(Clock(now, [], [], []), evs) && i < |evs| && evs[i].GoToSleep?
    ensures var c, x := After(Clock(now, [], [], []), evs), CallOf(now, evs, i);
            var before, asked := now + TicksIn(evs[..i]), evs[i].start + evs[i].duration;
            var due := if before < asked then asked else before + 1;
            if due <= now + TicksIn(evs) then Wake(x, due) in c.wakes else x in c.sleeping
  {
    hide Class, After, Possible, Calls;
    WokenOnceOnTime(now, evs);
    CallIsMade(now, evs, i);
    var c, x := After(Clock(now, [], [], []), evs), CallOf(now, evs, i);
    assert x in multiset(Woken(c.wakes)) + multiset(c.sleeping);
    if x !in c.sleeping {
      var j :| 0 <= j < |c.wakes| && Woken(c.wakes)[j] == x;
      assert c.wakes[j] in c.wakes;
    }
  }

  // ---- the code takes these steps ----------------------------------------------------------------

  /** The linked list holds the clock's sleepers. */
  ghost predicate Shows(a: AlarmClock, c: Clock, who: map<Elem, Sleeper>)
    reads a, a.list, a.list.Nodes()
  {
    && a.Valid() && a.ticks == c.now && Named(a.list.elems, c.sleeping, a.tickToWake, who)
  }

  ghost predicate Named(elems: seq<Elem>, sleeping: seq<Sleeper>, wake: map<Elem, int>, who: map<Elem, Sleeper>) {
    && |elems| == |sleeping|
    && forall i | 0 <= i < |elems| ::
         && elems[i] in who && who[elems[i]] == sleeping[i]
         && elems[i] in wake && wake[elems[i]] == sleeping[i].deadline
  }

  lemma {:induction false} SameDue(elems: seq<Elem>, sleeping: seq<Sleeper>, wake: map<Elem, int>,
                                   who: map<Elem, Sleeper>, tick: int)
    requires Named(elems, sleeping, wake, who)
    ensures Due(WakeOf(wake), elems, tick) == Due(ByDeadline, sleeping, tick)
    decreases |elems|
  {
    if elems != [] {
      SameDue(elems[1..], sleeping[1..], wake, who, tick);
    }
  }

  lemma NamedInsertion(elems: seq<Elem>, sleeping: seq<Sleeper>, wake: map<Elem, int>, who: map<Elem, Sleeper>, e: Elem,
                       x: Sleeper)
    requires Named(elems, sleeping, wake, who) && e !in elems
    ensures Named(Inserted(WakeOf(wake[e := x.deadline]), elems, e), Inserted(ByDeadline, sleeping, x),
            wake[e := x.deadline], who[e := x])
  {
    hide Due;
    SameDue(elems, sleeping, wake[e := x.deadline], who[e := x], x.deadline);
  }

  /** timer_sleep takes the clock's step. */
  method TimerSleep(a: AlarmClock, e: Elem, thread: nat, start: int, duration: int, ghost c: Clock,
                    ghost who: map<Elem, Sleeper>)
    requires Shows(a, c, who) && e !in a.list.Nodes()
    modifies a`tickToWake, a.list, a.list.Nodes(), e
    ensures Shows(a, Next(c, GoToSleep(thread, start, duration)),
            who[e := Sleeper(thread, start + duration, c.now)])
  {
    hide Inserted, Sorted, Linked, ChainOf, Named;
    ghost var elems := a.list.elems;
    NamedInsertion(elems, c.sleeping, a.tickToWake, who, e, Sleeper(thread, start + duration, c.now));
    a.Sleep(e, start, duration);
  }

  /** The sleepers that list elements stand for. */
  ghost function Sleepers(elems: seq<Elem>, who: map<Elem, Sleeper>): (s: seq<Sleeper>)
    requires forall e | e in elems :: e in who
    ensures |s| == |elems| && forall i | 0 <= i < |s| :: s[i] == who[elems[i]]
  {
    seq(|elems|, i requires 0 <= i < |elems| => who[elems[i]])
  }

  lemma NamedSplit(elems: seq<Elem>, sleeping: seq<Sleeper>, wake: map<Elem, int>, who: map<Elem, Sleeper>, n: nat)
    requires Named(elems, sleeping, wake, who) && n <= |elems|
    ensures Named(elems[n..], sleeping[n..], wake, who)
    ensures (forall e | e in elems[..n] :: e in who) && Sleepers(elems[..n], who) == sleeping[..n]
  {
  }

  /** timer_interrupt takes the clock's step; the threads it wakes are the step's wakeups. */
  method TimerInterrupt(a: AlarmClock, ghost c: Clock, ghost who: map<Elem, Sleeper>) returns (woken: seq<Elem>)
    requires Shows(a, c, who)
    modifies a`ticks, a.list, a.list.Nodes()
    ensures Shows(a, Next(c, Tick), who)
    ensures forall e | e in woken :: e in who
    ensures Next(c, Tick).wakes == c.wakes + WakeAll(Sleepers(woken, who), c.now + 1)
  {
    hide Due, Sorted, Linked, ChainOf, Named, WakeAll, Sleepers;
    ghost var elems := a.list.elems;
    SameDue(elems, c.sleeping, a.tickToWake, who, c.now + 1);
    NamedSplit(elems, c.sleeping, a.tickToWake, who, Due(ByDeadline, c.sleeping, c.now + 1));
    woken := a.Interrupt();
  }
}
