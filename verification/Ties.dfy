/** In which order interrupts of equal time fire.  Each tick before they are due looks at the first of
    them and puts it back behind the others. */
module Ties {
  import opened SortedList
  import opened Interrupts

  type Entries = seq<Keyed<Pending>>

  /** `g` has time `w` throughout, and `rest` comes later than `after`. */
  ghost predicate IsGroup(g: Entries, w: int, rest: Entries, after: int) {
    (forall i :: 0 <= i < |g| ==> g[i].0 == w) && forall i :: 0 <= i < |rest| ==> rest[i].0 > after
  }

  function Rotated(g: Entries, k: nat): Entries
    requires k <= |g|
  {
    g[k..] + g[..k]
  }

  /** The group after `n` looks. */
  function Looked(g: Entries, n: nat): (r: Entries)
    requires g != []
    ensures |r| == |g|
  {
    Rotated(g, n % |g|)
  }

  // ---------------------------------------------------------------- one look

  lemma {:induction false} PositionBehindGroup(g: Entries, rest: Entries, key: int)
    requires forall i :: 0 <= i < |g| ==> g[i].0 <= key
    ensures Position(g + rest, key) == |g| + Position(rest, key)
  {
    if g == [] {
      assert g + rest == rest;
    } else {
      assert (g + rest)[1..] == g[1..] + rest;
      PositionBehindGroup(g[1..], rest, key);
    }
  }

  lemma InsertBehindGroup(g: Entries, rest: Entries, key: int, p: Pending)
    requires forall i :: 0 <= i < |g| ==> g[i].0 <= key
    ensures Insert(g + rest, key, p) == g + Insert(rest, key, p)
  {
    hide Position;
    PositionBehindGroup(g, rest, key);
    Spliced(g, rest, Position(rest, key), (key, p));
  }

  lemma Spliced(a: Entries, b: Entries, at: nat, e: Keyed<Pending>)
    requires at <= |b|
    ensures (a + b)[..|a| + at] + [e] + (a + b)[|a| + at..] == a + (b[..at] + [e] + b[at..])
  {
    assert (a + b)[..|a| + at] == a + b[..at];
    assert (a + b)[|a| + at..] == b[at..];
  }

  lemma InsertBeforeLater(rest: Entries, key: int, p: Pending)
    requires forall i :: 0 <= i < |rest| ==> rest[i].0 > key
    ensures Insert(rest, key, p) == [(key, p)] + rest
  {
  }

  lemma PutBackRotates(c: Clock, g: Entries, w: int, rest: Entries)
    requires g != [] && c.pending == g + rest && IsGroup(g, w, rest, w)
    ensures PutBack(c).pending == Rotated(g, 1) + rest
  {
    hide Insert;
    var p := g[0].1;
    assert c.pending[1..] == g[1..] + rest;
    InsertBehindGroup(g[1..], rest, w, p);
    InsertBeforeLater(rest, w, p);
    assert g[0] == (w, p) && g[..1] == [g[0]];
  }

  lemma LookedOnce(g: Entries, n: nat)
    requires g != []
    ensures Rotated(Looked(g, n), 1) == Looked(g, n + 1)
  {
    var k := n % |g|;
    NextLook(n, |g|);
    if k + 1 < |g| {
      assert Rotated(Looked(g, n), 1) == g[k + 1..] + g[..k + 1];
    } else {
      assert Looked(g, n) == [g[k]] + g[..k];
      assert Rotated(Looked(g, n), 1) == g[..k] + [g[k]] == g;
    }
  }

  lemma NextLook(n: nat, m: nat)
    requires m > 0
    ensures (n + 1) % m == if n % m + 1 < m then n % m + 1 else 0
  {
    var q, k := n / m, n % m;
    assert n == m * q + k;
    if k + 1 < m {
      assert n + 1 == m * q + (k + 1);
      Remainder(m, q, k + 1);
    } else {
      assert n + 1 == m * (q + 1) + 0;
      Remainder(m, q + 1, 0);
    }
  }

  lemma Remainder(m: nat, q: int, k: nat)
    requires k < m
    ensures (m * q + k) % m == k
  {
    var x := m * q + k;
    var e := x / m - q;
    assert m * e == k - x % m;
    MultipleApart(m, e);
  }

  lemma MultipleApart(m: int, e: int)
    requires m > 0
    ensures (e >= 1 ==> m * e >= m) && (e <= -1 ==> m * e <= -m)
  {
  }

  // ---------------------------------------------------------------- ticks

  function TickOf(c: Clock): int { if c.status == SystemMode then SYSTEM_TICK else USER_TICK }

  ghost function Ticks(c: Clock, n: nat, handlers: Handlers): Clock {
    if n == 0 then c else OneTick(Ticks(c, n - 1, handlers), handlers)
  }

  /** A tick before the group is due rotates it by one. */
  lemma TickRotates(c: Clock, g: Entries, w: int, rest: Entries, handlers: Handlers)
    requires g != [] && c.pending == g + rest && IsGroup(g, w, rest, w) && c.status != IdleMode && c.total + TickOf(c) < w
    ensures var r := OneTick(c, handlers);
            r.pending == Rotated(g, 1) + rest && r.fired == c.fired && r.status == c.status && r.total == c.total + TickOf(c)
  {
    hide Insert;
    PutBackRotates(Ticked(c), g, w, rest);
  }

  lemma RotatedIsGroup(g: Entries, w: int, rest: Entries, after: int, n: nat)
    requires g != [] && IsGroup(g, w, rest, after)
    ensures IsGroup(Looked(g, n), w, rest, after)
  {
  }

  lemma {:induction false} TicksRotate(c: Clock, g: Entries, w: int, rest: Entries, n: nat, handlers: Handlers)
    requires g != [] && c.pending == g + rest && IsGroup(g, w, rest, w) && c.status != IdleMode && c.total + n * TickOf(c) < w
    ensures var r := Ticks(c, n, handlers);
            r.pending == Looked(g, n) + rest && r.fired == c.fired && r.status == c.status && r.total == c.total + n * TickOf(c)
  {
    hide OneTick, Looked;
    if n == 0 {
      assert Looked(g, 0) == g by { NoLook(g); }
    } else {
      assert n * TickOf(c) == (n - 1) * TickOf(c) + TickOf(c);
      TicksRotate(c, g, w, rest, n - 1, handlers);
      RotatedIsGroup(g, w, rest, w, n - 1);
      TickRotates(Ticks(c, n - 1, handlers), Looked(g, n - 1), w, rest, handlers);
      LookedOnce(g, n - 1);
    }
  }

  lemma NoLook(g: Entries)
    requires g != []
    ensures Looked(g, 0) == g
  {
  }

  // ---------------------------------------------------------------- firing

  function Firings(g: Entries, at: int): (r: seq<Firing>)
    ensures |r| == |g| && forall i :: 0 <= i < |r| ==> r[i] == Firing(g[i].1, at)
  {
    seq(|g|, i requires 0 <= i < |g| => Firing(g[i].1, at))
  }

  /** What handlers schedule goes behind everything that is due. */
  lemma {:induction false} ScheduledBehind(c: Clock, g: Entries, rest: Entries, rs: seq<Request>) returns (rest': Entries)
    requires c.pending == g + rest && (forall i :: 0 <= i < |g| ==> g[i].0 <= c.total) && forall i :: 0 <= i < |rest| ==> rest[i].0 > c.total
    ensures ScheduleAll(c, rs).pending == g + rest' && forall i :: 0 <= i < |rest'| ==> rest'[i].0 > c.total
    decreases |rs|
  {
    hide Insert;
    if rs == [] {
      rest' := rest;
    } else {
      var key := c.total + rs[0].fromNow;
      var p := Pending(rs[0].handler, key, rs[0].kind);
      InsertBehindGroup(g, rest, key, p);
      var next := Insert(rest, key, p);
      forall i | 0 <= i < |next| ensures next[i].0 > c.total {
        InsertMembers(rest, key, p, next[i]);
      }
      rest' := ScheduledBehind(Schedule(c, rs[0]), g, next, rs[1..]);
    }
  }

  lemma FiringsFront(g: Entries, at: int)
    requires g != []
    ensures Firings(g, at) == [Firing(g[0].1, at)] + Firings(g[1..], at)
  {
  }

  lemma NothingDueNothingFired(c: Clock, handlers: Handlers)
    requires forall i :: 0 <= i < |c.pending| ==> c.pending[i].0 > c.total
    ensures Drain(c, handlers).fired == c.fired
  {
    hide Insert;
  }

  lemma DueFires(c: Clock, handlers: Handlers)
    requires c.pending != [] && c.pending[0].0 <= c.total && c.status != IdleMode
    ensures Drain(c, handlers) == Drain(Fire(c, handlers), handlers)
  {
    hide Fire;
    FireDescends(c, handlers);
  }

  /** The drain loop fires what is due in the order of the list, whatever the handlers do. */
  lemma {:induction false} DrainFiresInOrder(c: Clock, g: Entries, rest: Entries, handlers: Handlers)
    requires c.pending == g + rest && c.status != IdleMode
    requires (forall i :: 0 <= i < |g| ==> g[i].0 <= c.total) && forall i :: 0 <= i < |rest| ==> rest[i].0 > c.total
    ensures Drain(c, handlers).fired == c.fired + Firings(g, c.total)
    decreases |g|
  {
    hide Insert, Drain, Firings, ScheduleAll;
    if g == [] {
      assert Firings(g, c.total) == [] && c.pending == rest;
      NothingDueNothingFired(c, handlers);
    } else {
      var rs := handlers(|c.fired|).requests;
      var started := c.(pending := c.pending[1..], status := SystemMode, fired := c.fired + [Firing(c.pending[0].1, c.total)]);
      assert started.pending == g[1..] + rest;
      var rest' := ScheduledBehind(started, g[1..], rest, rs);
      ScheduleAllFrame(started, rs);
      DueFires(c, handlers);
      DrainFiresInOrder(Fire(c, handlers), g[1..], rest', handlers);
      FiringsFront(g, c.total);
    }
  }

  /** The exact order, for any group of interrupts of equal time and any handlers: after `n` ticks that
      find it not due, a tick that does fires the group rotated by `n`. */
  lemma TiesFireRotated(c: Clock, g: Entries, w: int, rest: Entries, n: nat, handlers: Handlers)
    requires g != [] && c.pending == g + rest && IsGroup(g, w, rest, w) && c.status != IdleMode
    requires c.total + n * TickOf(c) < w <= c.total + (n + 1) * TickOf(c)
    requires forall i :: 0 <= i < |rest| ==> rest[i].0 > c.total + (n + 1) * TickOf(c)
    ensures OneTick(Ticks(c, n, handlers), handlers).fired == c.fired + Firings(Looked(g, n), c.total + (n + 1) * TickOf(c))
  {
    hide Drain, Looked, Ticks;
    TicksRotate(c, g, w, rest, n, handlers);
    RotatedIsGroup(g, w, rest, w, n);
    assert (n + 1) * TickOf(c) == n * TickOf(c) + TickOf(c);
    DrainFiresInOrder(Ticked(Ticks(c, n, handlers)), Looked(g, n), rest, handlers);
  }

  /** So interrupts of equal time fire in the order in which they are listed if and only if the number
      of ticks before is a multiple of how many they are. */
  lemma TiesKeepOrderIff(c: Clock, g: Entries, w: int, rest: Entries, n: nat, handlers: Handlers)
    requires g != [] && c.pending == g + rest && IsGroup(g, w, rest, w) && c.status != IdleMode
    requires c.total + n * TickOf(c) < w <= c.total + (n + 1) * TickOf(c)
    requires forall i :: 0 <= i < |rest| ==> rest[i].0 > c.total + (n + 1) * TickOf(c)
    requires forall i, j :: 0 <= i < j < |g| ==> g[i].1 != g[j].1
    ensures OneTick(Ticks(c, n, handlers), handlers).fired == c.fired + Firings(g, c.total + (n + 1) * TickOf(c)) <==> n % |g| == 0
  {
    hide OneTick, Ticks;
    TiesFireRotated(c, g, w, rest, n, handlers);
    var at, k := c.total + (n + 1) * TickOf(c), n % |g|;
    var first, second := Firings(Looked(g, n), at), Firings(g, at);
    if k == 0 {
      assert Looked(g, n) == g;
    } else {
      assert Looked(g, n)[0] == g[k];
      assert (c.fired + first)[|c.fired|] == first[0] && (c.fired + second)[|c.fired|] == second[0];
    }
  }
}
