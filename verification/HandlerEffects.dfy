/** What interrupt handlers ask for takes effect: the interrupts they schedule and the context
    switches they request, and what the ticks add up to. */
module HandlerEffects {
  import opened SortedList
  import opened Interrupts

  /** The interrupts that requests made at time `now` are for. */
  function Asked(rs: seq<Request>, now: int): (ps: seq<Pending>)
    ensures |ps| == |rs|
    ensures forall i :: 0 <= i < |rs| ==> ps[i] == Pending(rs[i].handler, now + rs[i].fromNow, rs[i].kind)
  {
    seq(|rs|, i requires 0 <= i < |rs| => Pending(rs[i].handler, now + rs[i].fromNow, rs[i].kind))
  }

  /** What the handler invocations from `a` up to `b` ask for, one after the other. */
  function AskedBetween(handlers: Handlers, a: nat, b: nat, now: int): seq<Pending>
    requires a <= b
    decreases b - a
  {
    if a == b then [] else Asked(handlers(a).requests, now) + AskedBetween(handlers, a + 1, b, now)
  }

  /** Some handler invocation from `a` up to `b` asks for a context switch. */
  ghost predicate SwitchAsked(handlers: Handlers, a: nat, b: nat) {
    exists i: nat :: a <= i < b && handlers(i).switch
  }

  lemma AskedFront(rs: seq<Request>, now: int)
    ensures rs == [] ==> Asked(rs, now) == []
    ensures rs != [] ==> Asked(rs, now) == [Pending(rs[0].handler, now + rs[0].fromNow, rs[0].kind)] + Asked(rs[1..], now)
  {
  }

  lemma {:induction false} ScheduleAllAsks(c: Clock, rs: seq<Request>)
    ensures ScheduleAll(c, rs).scheduled == c.scheduled + Asked(rs, c.total)
    decreases |rs|
  {
    hide Insert, Asked;
    AskedFront(rs, c.total);
    if rs != [] {
      ScheduleAllAsks(Schedule(c, rs[0]), rs[1..]);
    }
  }

  /** One firing: exactly what its handler asks for. */
  lemma FireAsks(c: Clock, handlers: Handlers)
    requires c.pending != []
    ensures var r, n := Fire(c, handlers), |c.fired|;
            && r.fired == c.fired + [Firing(c.pending[0].1, c.total)]
            && r.scheduled == c.scheduled + Asked(handlers(n).requests, c.total)
            && (r.yieldOnReturn <==> c.yieldOnReturn || handlers(n).switch)
  {
    hide Schedule;
    var started := c.(pending := c.pending[1..], status := SystemMode, fired := c.fired + [Firing(c.pending[0].1, c.total)]);
    ScheduleAllFrame(started, handlers(|c.fired|).requests);
    ScheduleAllAsks(started, handlers(|c.fired|).requests);
  }

  /** What the handlers invoked between `c` and `r` asked for, and nothing else, has been done. */
  ghost predicate Obeyed(c: Clock, r: Clock, handlers: Handlers) {
    && |c.fired| <= |r.fired| && r.fired[..|c.fired|] == c.fired
    && (forall i :: |c.fired| <= i < |r.fired| ==> r.fired[i].at == c.total)
    && r.scheduled == c.scheduled + AskedBetween(handlers, |c.fired|, |r.fired|, c.total)
    && (r.yieldOnReturn <==> c.yieldOnReturn || SwitchAsked(handlers, |c.fired|, |r.fired|))
  }

  lemma NoneAsked(handlers: Handlers, n: nat, now: int)
    ensures AskedBetween(handlers, n, n, now) == []
  {
  }

  lemma ObeyedNone(c: Clock, r: Clock, handlers: Handlers)
    requires r.fired == c.fired && r.scheduled == c.scheduled && r.yieldOnReturn == c.yieldOnReturn
    ensures Obeyed(c, r, handlers)
  {
  }

  lemma ObeyedFirst(c: Clock, d: Clock, r: Clock, handlers: Handlers, f: Firing)
    requires d.fired == c.fired + [f] && f.at == c.total && d.total == c.total
    requires d.scheduled == c.scheduled + Asked(handlers(|c.fired|).requests, c.total)
    requires d.yieldOnReturn <==> c.yieldOnReturn || handlers(|c.fired|).switch
    requires Obeyed(d, r, handlers)
    ensures Obeyed(c, r, handlers)
  {
    hide Asked;
    var n, m := |c.fired|, |r.fired|;
    assert r.fired[..n] == r.fired[..n + 1][..n] == c.fired;
    assert r.fired[n] == r.fired[..n + 1][n] == f;
    assert AskedBetween(handlers, n, m, c.total) == Asked(handlers(n).requests, c.total) + AskedBetween(handlers, n + 1, m, c.total);
    assert SwitchAsked(handlers, n, m) <==> handlers(n).switch || SwitchAsked(handlers, n + 1, m) by {
      if SwitchAsked(handlers, n, m) {
        var i: nat :| n <= i < m && handlers(i).switch;
        assert i == n || n + 1 <= i < m;
      }
    }
  }

  lemma {:induction false} DrainObeys(c: Clock, handlers: Handlers)
    ensures Obeyed(c, Drain(c, handlers), handlers)
    decreases NumDue(c.pending, c.total)
  {
    hide Fire, Obeyed, Insert;
    if CheckIfDue(c, false, handlers).1 {
      FireDescends(c, handlers);
      FireAsks(c, handlers);
      DrainObeys(Fire(c, handlers), handlers);
      ObeyedFirst(c, Fire(c, handlers), Drain(c, handlers), handlers, Firing(c.pending[0].1, c.total));
    } else {
      ObeyedNone(c, Drain(c, handlers), handlers);
    }
  }

  /** Whether `OneTick` ends with a context switch. */
  function MustYield(c: Clock, handlers: Handlers): bool {
    Drain(Ticked(c), handlers).yieldOnReturn
  }

  /** A tick: the counter of its mode advances by the tick of that mode, what its handlers ask for is
      scheduled, and it yields exactly if a switch was asked for before or by one of them. */
  lemma TickIsExact(c: Clock, handlers: Handlers)
    ensures var r := OneTick(c, handlers);
            && r.system == c.system + (if c.status == SystemMode then 10 else 0)
            && r.user == c.user + (if c.status == SystemMode then 0 else 1)
            && r.total - c.total == (if c.status == SystemMode then 10 else 1) && !r.yieldOnReturn
            && |c.fired| <= |r.fired| && r.fired[..|c.fired|] == c.fired
            && r.scheduled == c.scheduled + AskedBetween(handlers, |c.fired|, |r.fired|, r.total)
            && (MustYield(c, handlers) <==> c.yieldOnReturn || SwitchAsked(handlers, |c.fired|, |r.fired|))
  {
    hide Drain, AskedBetween, SwitchAsked;
    DrainObeys(Ticked(c), handlers);
    DrainTicks(Ticked(c), handlers);
  }

  lemma FireTimes(c: Clock, handlers: Handlers)
    requires c.pending != []
    ensures var r := Fire(c, handlers); r.total == c.total && r.idle == c.idle
  {
    ScheduleAllFrame(c.(pending := c.pending[1..], status := SystemMode, fired := c.fired + [Firing(c.pending[0].1, c.total)]),
                     handlers(|c.fired|).requests);
  }

  lemma {:induction false} DrainTimes(c: Clock, handlers: Handlers)
    ensures Drain(c, handlers).idle == c.idle
    decreases NumDue(c.pending, c.total)
  {
    hide Fire;
    if CheckIfDue(c, false, handlers).1 {
      FireDescends(c, handlers);
      FireTimes(c, handlers);
      DrainTimes(Fire(c, handlers), handlers);
    }
  }

  /** Idling: time moves to the first pending interrupt, which fires, and goes to idle ticks alone;
      requests are obeyed, but a switch that is asked for needs no yield, as the idle loop looks at the
      ready list again. */
  lemma IdleIsExact(c: Clock, handlers: Handlers)
    ensures var (r, happened) := Idle(c, handlers);
            && r.system == c.system && r.user == c.user
            && r.total - c.total == r.idle - c.idle
            && r.total == (if c.pending != [] && c.pending[0].0 > c.total then c.pending[0].0 else c.total)
            && |c.fired| <= |r.fired| && r.fired[..|c.fired|] == c.fired
            && r.scheduled == c.scheduled + AskedBetween(handlers, |c.fired|, |r.fired|, r.total)
            && (happened <==> |r.fired| > |c.fired|)
            && (r.yieldOnReturn <==> !happened && c.yieldOnReturn)
            && (happened ==> r.status == SystemMode && r.fired[|c.fired|] == Firing(c.pending[0].1, r.total))
  {
    hide Drain, AskedBetween, SwitchAsked, Fire, Insert, Asked;
    var idle := c.(status := IdleMode);
    if c.pending == [] {
      ObeyedNone(c, idle, handlers);
    } else {
      var a := Advanced(idle, true);
      if OnlyTimer(a) {
        NoneAsked(handlers, |c.fired|, a.total);
        ObeyedNone(c, PutBack(a), handlers);
      } else {
        FireAsks(a, handlers);
        FireTicks(a, handlers);
        FireTimes(a, handlers);
        DrainTicks(Fire(a, handlers), handlers);
        DrainObeys(Fire(a, handlers), handlers);
        DrainTimes(Fire(a, handlers), handlers);
        ObeyedFirst(a, Fire(a, handlers), Drain(Fire(a, handlers), handlers), handlers, Firing(a.pending[0].1, a.total));
      }
    }
  }

  // ---------------------------------------------------------------- every run

  /** How many of the first `n` events of a run were ticks in the given mode. */
  ghost function TicksIn(run: seq<Clock>, events: seq<Event>, status: MachineStatus, n: nat): nat
    requires n <= |events| && n <= |run|
  {
    if n == 0 then 0
    else TicksIn(run, events, status, n - 1) + if events[n - 1] == Tick && run[n - 1].status == status then 1 else 0
  }

  /** In every run, for any handlers: system time is ten for each tick in system mode and user time
      one for each tick in user mode; a device's interrupt is scheduled for the time asked for; and
      the machine yields after a tick exactly if a handler invoked in that tick asked for it. */
  lemma {:induction false} RunIsExact(run: seq<Clock>, events: seq<Event>, handlers: Handlers, n: nat)
    requires IsRun(run, events, handlers) && n <= |events|
    ensures run[n].system == 10 * TicksIn(run, events, SystemMode, n) && run[n].user == TicksIn(run, events, UserMode, n)
    ensures n < |events| ==> !run[n].yieldOnReturn
    ensures n < |events| && events[n] == Tick ==>
              (MustYield(run[n], handlers) <==> SwitchAsked(handlers, |run[n].fired|, |run[n + 1].fired|))
    ensures n < |events| && events[n].Device? ==>
              var r := events[n].r;
              run[n + 1].scheduled == run[n].scheduled + [Pending(r.handler, run[n].total + r.fromNow, r.kind)]
  {
    hide OneTick, Idle, MustYield, SwitchAsked, AskedBetween, Insert;
    if n > 0 {
      var c, e := run[n - 1], events[n - 1];
      RunIsExact(run, events, handlers, n - 1);
      assert Enabled(c, e) && run[n] == Step(c, e, handlers);
      TickIsExact(c, handlers);
      IdleIsExact(c, handlers);
      if n < |events| { assert Enabled(run[n], events[n]); }
    }
    if n < |events| {
      assert Enabled(run[n], events[n]) && run[n + 1] == Step(run[n], events[n], handlers);
      TickIsExact(run[n], handlers);
    }
  }
}
