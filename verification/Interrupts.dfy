/** The interrupt hardware and the simulated clock: pending interrupts fire in the order of
    their times, never early, and time is what the three kinds of ticks add up to. */
module Interrupts {
  import opened SortedList

  datatype IntType = TimerInt | DiskInt | ConsoleWriteInt | ConsoleReadInt | NetworkSendInt | NetworkRecvInt

  datatype MachineStatus = IdleMode | SystemMode | UserMode

  const USER_TICK := 1
  const SYSTEM_TICK := 10

  datatype Pending = Pending(handler: int, when: int, kind: IntType)

  type Delay = n: int | n > 0 witness 1

  /** Arguments of `Schedule`; it insists on a time strictly in the future. */
  datatype Request = Request(handler: int, fromNow: Delay, kind: IntType)

  /** What an interrupt handler does to the interrupt hardware: it schedules further interrupts
      and may ask for a context switch. */
  datatype Effect = Effect(requests: seq<Request>, switch: bool)

  /** The effect of the n-th handler invocation, for every n: any behaviour of any handlers. */
  type Handlers = nat -> Effect

  datatype Firing = Firing(what: Pending, at: int)

  /** `fired` and `scheduled` are the history. */
  datatype Clock = Clock(
    status: MachineStatus, pending: seq<Keyed<Pending>>, yieldOnReturn: bool,
    total: int, idle: int, system: int, user: int, fired: seq<Firing>, scheduled: seq<Pending>)

  // ---------------------------------------------------------------- the operations

  function Schedule(c: Clock, r: Request): Clock {
    var p := Pending(r.handler, c.total + r.fromNow, r.kind);
    c.(pending := Insert(c.pending, p.when, p), scheduled := c.scheduled + [p])
  }

  function ScheduleAll(c: Clock, rs: seq<Request>): Clock
    decreases |rs|
  {
    if rs == [] then c else ScheduleAll(Schedule(c, rs[0]), rs[1..])
  }

  /** Take the first pending interrupt off the list and run its handler, in system mode. */
  function Fire(c: Clock, handlers: Handlers): Clock
    requires c.pending != []
  {
    var effect := handlers(|c.fired|);
    var started := c.(pending := c.pending[1..], status := SystemMode, fired := c.fired + [Firing(c.pending[0].1, c.total)]);
    ScheduleAll(started, effect.requests).(status := c.status, yieldOnReturn := c.yieldOnReturn || effect.switch)
  }

  /** `SortedRemove` followed by `SortedInsert` of the same interrupt: among interrupts of equal
      time it goes to the back. */
  function PutBack(c: Clock): Clock
    requires c.pending != []
  {
    c.(pending := Insert(c.pending[1..], c.pending[0].0, c.pending[0].1))
  }

  /** The clock moved up to the first pending interrupt, when idle. */
  function Advanced(c: Clock, advanceClock: bool): Clock
    requires c.pending != []
  {
    var when := c.pending[0].0;
    if advanceClock && when > c.total then c.(idle := c.idle + (when - c.total), total := when) else c
  }

  /** An idle machine with only the timer left has nothing more to do. */
  predicate OnlyTimer(c: Clock)
    requires c.pending != []
  {
    c.status == IdleMode && c.pending[0].1.kind == TimerInt && |c.pending| == 1
  }

  function CheckIfDue(c: Clock, advanceClock: bool, handlers: Handlers): (Clock, bool) {
    if c.pending == [] then (c, false)
    else
      var a := Advanced(c, advanceClock);
      if a.pending[0].0 > a.total || OnlyTimer(a) then (PutBack(a), false)
      else (Fire(a, handlers), true)
  }

  /** How many pending interrupts are due. */
  function NumDue(pending: seq<Keyed<Pending>>, now: int): nat {
    if pending == [] then 0 else NumDue(pending[1..], now) + if pending[0].0 <= now then 1 else 0
  }

  lemma {:induction false} NumDueConcat(a: seq<Keyed<Pending>>, b: seq<Keyed<Pending>>, now: int)
    ensures NumDue(a + b, now) == NumDue(a, now) + NumDue(b, now)
  {
    if a == [] {
      assert a + b == b;
    } else {
      assert (a + b)[1..] == a[1..] + b;
      NumDueConcat(a[1..], b, now);
    }
  }

  lemma NumDueInsert(pending: seq<Keyed<Pending>>, key: int, p: Pending, now: int)
    ensures NumDue(Insert(pending, key, p), now) == NumDue(pending, now) + if key <= now then 1 else 0
  {
    var at := Position(pending, key);
    assert pending == pending[..at] + pending[at..];
    NumDueConcat(pending[..at], pending[at..], now);
    NumDueConcat(pending[..at] + [(key, p)], pending[at..], now);
    NumDueConcat(pending[..at], [(key, p)], now);
    assert [(key, p)][1..] == [];
  }

  lemma {:induction false} ScheduleAllFrame(c: Clock, rs: seq<Request>)
    ensures var r := ScheduleAll(c, rs);
            && r.total == c.total && r.idle == c.idle && r.system == c.system && r.user == c.user
            && r.fired == c.fired && r.status == c.status && r.yieldOnReturn == c.yieldOnReturn
            && NumDue(r.pending, c.total) == NumDue(c.pending, c.total)
    decreases |rs|
  {
    hide Insert, NumDue;
    if rs != [] {
      NumDueInsert(c.pending, c.total + rs[0].fromNow, Pending(rs[0].handler, c.total + rs[0].fromNow, rs[0].kind), c.total);
      ScheduleAllFrame(Schedule(c, rs[0]), rs[1..]);
    }
  }

  /** Handlers schedule strictly in the future, so firing uses up one due interrupt. */
  lemma FireDescends(c: Clock, handlers: Handlers)
    requires c.pending != [] && c.pending[0].0 <= c.total
    ensures Fire(c, handlers).total == c.total && Fire(c, handlers).status == c.status
    ensures NumDue(Fire(c, handlers).pending, c.total) == NumDue(c.pending, c.total) - 1
  {
    ScheduleAllFrame(c.(pending := c.pending[1..], status := SystemMode, fired := c.fired + [Firing(c.pending[0].1, c.total)]),
                     handlers(|c.fired|).requests);
  }

  /** `while (CheckIfDue(FALSE))`: it ends because firing uses up due interrupts. */
  function Drain(c: Clock, handlers: Handlers): (r: Clock)
    ensures r.total == c.total && r.status == c.status
    decreases NumDue(c.pending, c.total)
  {
    var (c', fired) := CheckIfDue(c, false, handlers);
    if fired then
      FireDescends(c, handlers);
      Drain(c', handlers)
    else c'
  }

  function Ticked(c: Clock): Clock {
    if c.status == SystemMode then c.(total := c.total + SYSTEM_TICK, system := c.system + SYSTEM_TICK)
    else c.(total := c.total + USER_TICK, user := c.user + USER_TICK)
  }

  /** `OneTick`, up to the context switch that `yieldOnReturn` asks for. */
  function OneTick(c: Clock, handlers: Handlers): Clock {
    Drain(Ticked(c), handlers).(yieldOnReturn := false)
  }

  /** `Idle`: the second result tells whether something happened; otherwise the machine halts. */
  function Idle(c: Clock, handlers: Handlers): (Clock, bool) {
    var (c', fired) := CheckIfDue(c.(status := IdleMode), true, handlers);
    if fired then (Drain(c', handlers).(yieldOnReturn := false, status := SystemMode), true)
    else (c', false)
  }

  // ---------------------------------------------------------------- the invariant

  ghost predicate Chronological(fired: seq<Firing>) {
    forall i, j :: 0 <= i < j < |fired| ==> fired[i].what.when <= fired[j].what.when
  }

  /** Never early, and at most one system tick late. */
  ghost predicate Prompt(fired: seq<Firing>, now: int) {
    forall i :: 0 <= i < |fired| ==> fired[i].what.when <= fired[i].at <= fired[i].what.when + SYSTEM_TICK && fired[i].at <= now
  }

  /** Everything that fired was due no later than anything still pending. */
  ghost predicate Behind(fired: seq<Firing>, pending: seq<Keyed<Pending>>) {
    forall i, j :: 0 <= i < |fired| && 0 <= j < |pending| ==> fired[i].what.when <= pending[j].0
  }

  /** The pending list is sorted by time, and no entry is overdue by more than `lag`. */
  ghost predicate Timely(pending: seq<Keyed<Pending>>, now: int, lag: int) {
    Sorted(pending) && forall j :: 0 <= j < |pending| ==> pending[j].0 == pending[j].1.when && pending[j].0 >= now - lag
  }

  ghost function Items(pending: seq<Keyed<Pending>>): (m: multiset<Pending>) {
    if pending == [] then multiset{} else multiset{pending[0].1} + Items(pending[1..])
  }

  ghost function Happened(fired: seq<Firing>): (m: multiset<Pending>) {
    if fired == [] then multiset{} else Happened(fired[..|fired| - 1]) + multiset{fired[|fired| - 1].what}
  }

  /** What holds between, and with `lag` within, the operations.  The last clause is conservation:
      what was scheduled has fired once or is pending once. */
  ghost predicate Inv(c: Clock, lag: int) {
    && 0 <= lag <= SYSTEM_TICK
    && Timely(c.pending, c.total, lag)
    && Behind(c.fired, c.pending) && Chronological(c.fired) && Prompt(c.fired, c.total)
    && c.total == c.idle + c.system + c.user
    && multiset(c.scheduled) == Items(c.pending) + Happened(c.fired)
  }

  lemma {:induction false} ItemsConcat(a: seq<Keyed<Pending>>, b: seq<Keyed<Pending>>)
    ensures Items(a + b) == Items(a) + Items(b)
  {
    if a == [] {
      assert a + b == b;
    } else {
      assert (a + b)[1..] == a[1..] + b;
      ItemsConcat(a[1..], b);
    }
  }

  lemma ItemsFront(pending: seq<Keyed<Pending>>)
    requires pending != []
    ensures Items(pending) == multiset{pending[0].1} + Items(pending[1..])
  {
  }

  lemma ItemsSingle(key: int, p: Pending)
    ensures Items([(key, p)]) == multiset{p}
  {
    assert [(key, p)][1..] == [];
  }

  lemma ItemsInsert(pending: seq<Keyed<Pending>>, key: int, p: Pending)
    ensures Items(Insert(pending, key, p)) == Items(pending) + multiset{p}
  {
    hide Items;
    var at := Position(pending, key);
    assert pending == pending[..at] + pending[at..];
    ItemsConcat(pending[..at], pending[at..]);
    ItemsConcat(pending[..at] + [(key, p)], pending[at..]);
    ItemsConcat(pending[..at], [(key, p)]);
    ItemsSingle(key, p);
  }

  lemma HappenedAdd(fired: seq<Firing>, f: Firing)
    ensures Happened(fired + [f]) == Happened(fired) + multiset{f.what}
  {
    assert (fired + [f])[..|fired|] == fired;
  }

  /** Inserting a timely interrupt. */
  lemma InsertTimely(pending: seq<Keyed<Pending>>, p: Pending, now: int, lag: int, fired: seq<Firing>)
    requires Timely(pending, now, lag) && Behind(fired, pending)
    requires p.when >= now - lag && forall i :: 0 <= i < |fired| ==> fired[i].what.when <= p.when
    ensures Timely(Insert(pending, p.when, p), now, lag) && Behind(fired, Insert(pending, p.when, p))
  {
    var r := Insert(pending, p.when, p);
    InsertIsStable(pending, p.when, p);
    forall j | 0 <= j < |r|
      ensures r[j].0 == r[j].1.when && r[j].0 >= now - lag
      ensures forall i :: 0 <= i < |fired| ==> fired[i].what.when <= r[j].0
    {
      InsertMembers(pending, p.when, p, r[j]);
      assert r[j] in r;
    }
  }

  lemma ScheduleKeeps(c: Clock, r: Request, lag: int)
    requires Inv(c, lag)
    ensures Inv(Schedule(c, r), lag)
  {
    hide Insert, Items, Happened, Sorted;
    var p := Pending(r.handler, c.total + r.fromNow, r.kind);
    InsertTimely(c.pending, p, c.total, lag, c.fired);
    ItemsInsert(c.pending, p.when, p);
  }

  lemma {:induction false} ScheduleAllKeeps(c: Clock, rs: seq<Request>, lag: int)
    requires Inv(c, lag)
    ensures Inv(ScheduleAll(c, rs), lag)
    decreases |rs|
  {
    hide Inv, Schedule;
    if rs != [] {
      ScheduleKeeps(c, rs[0], lag);
      ScheduleAllKeeps(Schedule(c, rs[0]), rs[1..], lag);
    }
  }

  /** The first interrupt, which is due, moves from the pending ones to the fired ones. */
  lemma StartKeeps(c: Clock, lag: int)
    requires Inv(c, lag) && c.pending != [] && c.pending[0].0 <= c.total
    ensures Inv(c.(pending := c.pending[1..], status := SystemMode, fired := c.fired + [Firing(c.pending[0].1, c.total)]), lag)
  {
    hide Items, Happened;
    var f := Firing(c.pending[0].1, c.total);
    ItemsFront(c.pending);
    HappenedAdd(c.fired, f);
    StartInOrder(c, f, lag);
    hide Timely, Behind, Chronological, Prompt;
  }

  lemma StartInOrder(c: Clock, f: Firing, lag: int)
    requires Timely(c.pending, c.total, lag) && Behind(c.fired, c.pending) && Chronological(c.fired) && Prompt(c.fired, c.total)
    requires 0 <= lag <= SYSTEM_TICK && c.pending != [] && c.pending[0].0 <= c.total && f == Firing(c.pending[0].1, c.total)
    ensures Timely(c.pending[1..], c.total, lag) && Behind(c.fired + [f], c.pending[1..])
    ensures Chronological(c.fired + [f]) && Prompt(c.fired + [f], c.total)
  {
  }

  lemma SameHistory(c: Clock, c': Clock, lag: int)
    requires Inv(c, lag) && c' == c.(status := c'.status, yieldOnReturn := c'.yieldOnReturn)
    ensures Inv(c', lag)
  {
  }

  lemma FireKeeps(c: Clock, handlers: Handlers, lag: int)
    requires Inv(c, lag) && c.pending != [] && c.pending[0].0 <= c.total
    ensures Inv(Fire(c, handlers), lag)
  {
    hide Inv;
    var started := c.(pending := c.pending[1..], status := SystemMode, fired := c.fired + [Firing(c.pending[0].1, c.total)]);
    StartKeeps(c, lag);
    ScheduleAllKeeps(started, handlers(|c.fired|).requests, lag);
    SameHistory(ScheduleAll(started, handlers(|c.fired|).requests), Fire(c, handlers), lag);
  }

  lemma PutBackKeeps(c: Clock, lag: int)
    requires Inv(c, lag) && c.pending != []
    ensures Inv(PutBack(c), lag)
    ensures multiset(PutBack(c).pending) == multiset(c.pending)
  {
    hide Items, Insert, Happened, Sorted;
    var p, rest := c.pending[0].1, c.pending[1..];
    ItemsFront(c.pending);
    TimelyRest(c, lag);
    InsertTimely(rest, p, c.total, lag, c.fired);
    ItemsInsert(rest, p.when, p);
    InsertIsStable(rest, p.when, p);
    assert c.pending == [c.pending[0]] + rest;
    hide Timely, Behind, Chronological, Prompt;
  }

  lemma TimelyRest(c: Clock, lag: int)
    requires Timely(c.pending, c.total, lag) && Behind(c.fired, c.pending) && c.pending != []
    ensures Timely(c.pending[1..], c.total, lag) && Behind(c.fired, c.pending[1..])
    ensures Sorted(c.pending[1..])
  {
  }

  /** Looking at an interrupt that is not due yet costs it its place: when the next one has the
      same time that one is first afterwards, and otherwise the list is as it was. */
  lemma PutBackYieldsToTies(c: Clock)
    requires Sorted(c.pending) && c.pending != []
    ensures |c.pending| > 1 && c.pending[1].0 == c.pending[0].0 ==> PutBack(c).pending[0] == c.pending[1]
    ensures |c.pending| > 1 && c.pending[1].0 == c.pending[0].0 ==> PutBack(c).pending != c.pending || c.pending[1] == c.pending[0]
    ensures |c.pending| == 1 || c.pending[0].0 < c.pending[1].0 ==> PutBack(c).pending == c.pending
  {
    var head, rest := c.pending[0], c.pending[1..];
    InsertAtEnds(rest, head.0, head.1);
    if |c.pending| == 1 || c.pending[0].0 < c.pending[1].0 {
      assert Position(rest, head.0) == 0;
      assert c.pending == [head] + rest;
    }
  }

  /** Nothing is due any more. */
  ghost predicate NothingDue(c: Clock) {
    forall j :: 0 <= j < |c.pending| ==> c.pending[j].0 > c.total
  }

  /** The drain loop leaves nothing due; an idle machine may leave a lone timer. */
  lemma {:induction false} DrainKeeps(c: Clock, handlers: Handlers, lag: int)
    requires Inv(c, lag)
    ensures Inv(Drain(c, handlers), lag)
    ensures NothingDue(Drain(c, handlers)) || (c.status == IdleMode && |Drain(c, handlers).pending| == 1)
    decreases NumDue(c.pending, c.total)
  {
    hide Inv, Fire, Items;
    var (c', fired) := CheckIfDue(c, false, handlers);
    if fired {
      FireDescends(c, handlers);
      FireKeeps(c, handlers, lag);
      DrainKeeps(Fire(c, handlers), handlers, lag);
    } else if c.pending != [] {
      PutBackKeeps(c, lag);
      if !OnlyTimer(c) { StaysUndue(c, lag); }
    }
  }

  lemma StaysUndue(c: Clock, lag: int)
    requires Inv(c, lag) && c.pending != [] && c.pending[0].0 > c.total
    ensures NothingDue(PutBack(c))
  {
    hide Insert;
    PutBackKeeps(c, lag);
    var r := PutBack(c).pending;
    forall j | 0 <= j < |r| ensures r[j].0 > c.total {
      assert r[j] in multiset(c.pending);
    }
  }

  /** Between operations no pending interrupt is overdue. */
  ghost predicate Steady(c: Clock) { Inv(c, 0) }

  lemma LessLag(c: Clock)
    requires Inv(c, SYSTEM_TICK) && forall j :: 0 <= j < |c.pending| ==> c.pending[j].0 >= c.total
    ensures Steady(c)
  {
    hide Items, Happened;
  }

  /** A tick fires everything that became due and leaves nothing due. */
  lemma OneTickKeeps(c: Clock, handlers: Handlers)
    requires Steady(c) && c.status != IdleMode
    ensures Steady(OneTick(c, handlers)) && NothingDue(OneTick(c, handlers))
    ensures OneTick(c, handlers).total == c.total + if c.status == SystemMode then SYSTEM_TICK else USER_TICK
  {
    hide Items, Happened, Drain;
    assert Inv(Ticked(c), SYSTEM_TICK);
    DrainKeeps(Ticked(c), handlers, SYSTEM_TICK);
    LessLag(Drain(Ticked(c), handlers));
  }

  /** When idle, the clock moves straight to the next interrupt, which is then exactly on time. */
  lemma AdvancedKeeps(c: Clock)
    requires Steady(c) && c.pending != []
    ensures Steady(Advanced(c, true)) && Advanced(c, true).pending == c.pending
    ensures c.pending[0].0 == Advanced(c, true).total
  {
    hide Items, Happened;
  }

  lemma IdleKeeps(c: Clock, handlers: Handlers)
    requires Steady(c)
    ensures var (c', happened) := Idle(c, handlers);
            && Steady(c')
            && c'.system == c.system && c'.user == c.user
            && (happened <==> c.pending != [] && (c.pending[0].1.kind != TimerInt || |c.pending| > 1))
            && (happened ==> NothingDue(c') || |c'.pending| == 1)
  {
    hide Inv, Fire, Drain, Insert;
    var idle := c.(status := IdleMode);
    SameHistory(c, idle, 0);
    if c.pending != [] {
      var a := Advanced(idle, true);
      AdvancedKeeps(idle);
      if OnlyTimer(a) {
        PutBackKeeps(a, 0);
      } else {
        FireKeeps(a, handlers, 0);
        DrainKeeps(Fire(a, handlers), handlers, 0);
        FireTicks(a, handlers);
        DrainTicks(Fire(a, handlers), handlers);
        SameHistory(Drain(Fire(a, handlers), handlers), Idle(c, handlers).0, 0);
      }
    }
  }

  lemma FireTicks(c: Clock, handlers: Handlers)
    requires c.pending != []
    ensures var r := Fire(c, handlers); r.system == c.system && r.user == c.user && r.status == c.status
  {
    ScheduleAllFrame(c.(pending := c.pending[1..], status := SystemMode, fired := c.fired + [Firing(c.pending[0].1, c.total)]),
                     handlers(|c.fired|).requests);
  }

  lemma {:induction false} DrainTicks(c: Clock, handlers: Handlers)
    ensures var r := Drain(c, handlers); r.system == c.system && r.user == c.user
    decreases NumDue(c.pending, c.total)
  {
    hide Fire;
    if CheckIfDue(c, false, handlers).1 {
      FireDescends(c, handlers);
      FireTicks(c, handlers);
      DrainTicks(Fire(c, handlers), handlers);
    }
  }

  // ---------------------------------------------------------------- every run

  datatype Event = Tick | Device(r: Request) | GoIdle | SetStatus(status: MachineStatus)

  /** A machine left in idle mode has halted. */
  ghost predicate Enabled(c: Clock, e: Event) {
    c.status != IdleMode && (e.SetStatus? ==> e.status != IdleMode)
  }

  ghost function Step(c: Clock, e: Event, handlers: Handlers): Clock {
    match e
    case Tick => OneTick(c, handlers)
    case Device(r) => Schedule(c, r)
    case GoIdle => Idle(c, handlers).0
    case SetStatus(status) => c.(status := status)
  }

  lemma StepKeeps(c: Clock, e: Event, handlers: Handlers)
    requires Steady(c) && Enabled(c, e)
    ensures Steady(Step(c, e, handlers))
  {
    hide Inv, OneTick, Idle;
    match e
    case Tick => OneTickKeeps(c, handlers);
    case Device(r) => ScheduleKeeps(c, r, 0);
    case GoIdle => IdleKeeps(c, handlers);
    case SetStatus(status) => SameHistory(c, c.(status := status), 0);
  }

  const BOOT := Clock(SystemMode, [], false, 0, 0, 0, 0, [], [])

  ghost predicate IsRun(run: seq<Clock>, events: seq<Event>, handlers: Handlers) {
    && |run| == |events| + 1 && run[0] == BOOT
    && forall i, j :: 0 <= i < |events| && j == i + 1 ==> Enabled(run[i], events[i]) && run[j] == Step(run[i], events[i], handlers)
  }

  lemma {:induction false} RunIsSteady(run: seq<Clock>, events: seq<Event>, handlers: Handlers, n: nat)
    requires IsRun(run, events, handlers) && n <= |events|
    ensures Steady(run[n])
  {
    hide Step, Enabled;
    if n > 0 {
      hide Inv;
      RunIsSteady(run, events, handlers, n - 1);
      assert Enabled(run[n - 1], events[n - 1]) && run[n] == Step(run[n - 1], events[n - 1], handlers);
      StepKeeps(run[n - 1], events[n - 1], handlers);
    }
  }

  /** In every run, whatever the handlers do: interrupts fire in nondecreasing scheduled time,
      never early and at most one system tick late; total time is idle, system and user time; and
      what was scheduled has fired once or is still pending once, due now or later. */
  lemma InterruptsAreOnTime(run: seq<Clock>, events: seq<Event>, handlers: Handlers, n: nat)
    requires IsRun(run, events, handlers) && n <= |events|
    ensures var c := run[n];
            && (forall i, j :: 0 <= i < j < |c.fired| ==> c.fired[i].what.when <= c.fired[j].what.when)
            && (forall i :: 0 <= i < |c.fired| ==> c.fired[i].what.when <= c.fired[i].at <= c.fired[i].what.when + SYSTEM_TICK)
            && (forall j :: 0 <= j < |c.pending| ==> c.total <= c.pending[j].1.when)
            && c.total == c.idle + c.system + c.user
            && multiset(c.scheduled) == Items(c.pending) + Happened(c.fired)
  {
    hide IsRun, Items, Happened;
    RunIsSteady(run, events, handlers, n);
  }

  // ---------------------------------------------------------------- a run in which ties swap

  /** Handlers that touch nothing. */
  const QUIET: Handlers := n => Effect([], false)

  const FIRST := Request(1, 100, DiskInt)
  const SECOND := Request(2, 100, ConsoleWriteInt)

  function TieEvents(): seq<Event> { [Device(FIRST), Device(SECOND)] + seq(10, _ => Tick) }

  ghost function TieRun(n: nat): Clock {
    if n == 0 then BOOT else Step(TieRun(n - 1), if n == 1 then Device(FIRST) else if n == 2 then Device(SECOND) else Tick, QUIET)
  }

  ghost function TieStates(): (run: seq<Clock>)
    ensures |run| == 13 && forall n :: 0 <= n < 13 ==> run[n] == TieRun(n)
  {
    seq(13, n requires 0 <= n => TieRun(n))
  }

  function At100(r: Request): Keyed<Pending> { (100, Pending(r.handler, 100, r.kind)) }

  /** A tick before two interrupts of the same time swaps them. */
  lemma TickSwaps(c: Clock, a: Keyed<Pending>, b: Keyed<Pending>)
    requires c.pending == [a, b] && a.0 == b.0 > c.total + SYSTEM_TICK && c.status == SystemMode && !c.yieldOnReturn
    ensures OneTick(c, QUIET) == Ticked(c).(pending := [b, a])
  {
    hide Insert;
    InsertBehind(b, a.0, a.1);
    assert c.pending[1..] == [b];
  }

  lemma {:induction false} TieRunBefore(n: nat)
    requires 2 <= n <= 11
    ensures var c := TieRun(n);
            && c.total == 10 * (n - 2) && c.status == SystemMode && !c.yieldOnReturn && c.fired == []
            && c.pending == if n % 2 == 0 then [At100(FIRST), At100(SECOND)] else [At100(SECOND), At100(FIRST)]
  {
    hide OneTick, Idle, Schedule;
    if n == 2 {
      TieRunStart();
    } else {
      TieRunBefore(n - 1);
      var c := TieRun(n - 1);
      TickSwaps(c, c.pending[0], c.pending[1]);
      assert TieRun(n) == OneTick(c, QUIET);
    }
  }

  lemma TieRunStart()
    ensures TieRun(2) == BOOT.(pending := [At100(FIRST), At100(SECOND)], scheduled := [At100(FIRST).1, At100(SECOND).1])
  {
    hide Insert, OneTick, Idle;
    InsertBehind(At100(FIRST), 100, At100(FIRST).1);
    InsertBehind(At100(FIRST), 100, At100(SECOND).1);
    assert TieRun(1) == Schedule(TieRun(0), FIRST) == BOOT.(pending := [At100(FIRST)], scheduled := [At100(FIRST).1]);
    assert TieRun(2) == Schedule(TieRun(1), SECOND);
  }

  lemma InsertBehind(e: Keyed<Pending>, key: int, p: Pending)
    requires e.0 <= key
    ensures Insert([], key, p) == [(key, p)] && Insert([e], key, p) == [e, (key, p)]
  {
    assert Position([e], key) == 1;
  }

  lemma QuietFire(c: Clock)
    requires c.pending != []
    ensures Fire(c, QUIET) == c.(pending := c.pending[1..], fired := c.fired + [Firing(c.pending[0].1, c.total)])
  {
  }

  /** The order of equal times is lost in a run: of two interrupts scheduled one after the other
      for the same time, the second fires first. */
  lemma TiesCanSwap()
    ensures var run := TieStates();
            && IsRun(run, TieEvents(), QUIET)
            && run[12].scheduled == [At100(FIRST).1, At100(SECOND).1]
            && run[12].fired == [Firing(At100(SECOND).1, 100), Firing(At100(FIRST).1, 100)]
  {
    hide OneTick, Idle, Insert, TieStates;
    var run, events := TieStates(), TieEvents();
    assert TieRun(0) == BOOT && TieRun(1) == Schedule(BOOT, FIRST);
    forall i, j | 0 <= i < |events| && j == i + 1 ensures Enabled(run[i], events[i]) && run[j] == Step(run[i], events[i], QUIET) {
      if i >= 2 { TieRunBefore(i); }
      assert TieRun(j) == Step(TieRun(i), events[i], QUIET);
    }
    TieRunBefore(11);
    LastTick(TieRun(11));
    assert TieRun(12) == OneTick(TieRun(11), QUIET) && run[12] == TieRun(12);
    TieScheduled(12);
  }

  lemma LastTick(c: Clock)
    requires c.total == 90 && c.status == SystemMode && c.fired == [] && c.pending == [At100(SECOND), At100(FIRST)]
    ensures OneTick(c, QUIET).fired == [Firing(At100(SECOND).1, 100), Firing(At100(FIRST).1, 100)]
  {
    var c0 := Ticked(c);
    QuietFire(c0);
    var c1 := Fire(c0, QUIET);
    assert c1.pending == [At100(FIRST)];
    QuietFire(c1);
    var c2 := Fire(c1, QUIET);
    assert c2.pending == [] && c2.fired == [Firing(At100(SECOND).1, 100), Firing(At100(FIRST).1, 100)];
    assert Drain(c2, QUIET) == c2;
    assert Drain(c1, QUIET) == c2;
  }

  lemma {:induction false} TieScheduled(n: nat)
    requires 2 <= n <= 12
    ensures TieRun(n).scheduled == [At100(FIRST).1, At100(SECOND).1]
  {
    if n == 2 { TieRunStart(); } else { TieScheduled(n - 1); TieRunBefore(n - 1); QuietKeepsScheduled(TieRun(n - 1)); }
  }

  lemma QuietKeepsScheduled(c: Clock)
    ensures OneTick(c, QUIET).scheduled == c.scheduled
  {
    QuietDrain(Ticked(c));
  }

  lemma {:induction false} QuietDrain(c: Clock)
    ensures Drain(c, QUIET).scheduled == c.scheduled
    decreases NumDue(c.pending, c.total)
  {
    if CheckIfDue(c, false, QUIET).1 {
      FireDescends(c, QUIET);
      QuietFire(c);
      QuietDrain(Fire(c, QUIET));
    }
  }
}
