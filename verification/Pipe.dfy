/** `Pipe`: a ring buffer of characters between two user programs.  Under the pipe's lock,
    `Read` and `Write` are sequences of passes: each pass returns, or waits on the condition
    and is followed by another pass.  No simulated time passes within one, so passes of any
    number of threads, and openings and closings of the ends, interleave arbitrarily. */
module Pipe {

  /** The pipe's fields. `start` wraps when it is next used, `end` as soon as it is advanced. */
  datatype Ring = Ring(cells: seq<int>, size: int, start: int, end: int, inOpen: int, outOpen: int)

  const END_OF_STREAM := 1000000

  datatype Outcome = Waits | Returns(value: int)

  /** The cell that holds the `i`-th unread character. */
  function Cell(r: Ring, i: nat): int {
    if r.start + i < |r.cells| then r.start + i else r.start + i - |r.cells|
  }

  ghost predicate Valid(r: Ring) {
    && 0 <= r.size <= |r.cells| && 0 <= r.start <= |r.cells| && 0 <= r.end
    && (r.end < |r.cells| || |r.cells| == 0)
    && (r.size < |r.cells| ==> r.end == Cell(r, r.size))
    && (r.size == |r.cells| ==> r.end == r.start || r.end == r.start - |r.cells|)
  }

  /** The unread characters, oldest first. */
  ghost function Contents(r: Ring): (s: seq<int>)
    requires Valid(r)
  {
    seq(r.size, i requires 0 <= i < r.size => r.cells[Cell(r, i)])
  }

  // ---------------------------------------------------------------- the passes

  function ReadPass(r: Ring): (Ring, Outcome)
    requires 0 <= r.start <= |r.cells| && 0 <= r.size <= |r.cells|
  {
    if r.size == 0 then (r, if r.outOpen == 0 then Returns(END_OF_STREAM) else Waits)
    else
      var start := if r.start == |r.cells| then 0 else r.start;
      (r.(size := r.size - 1, start := start + 1, cells := r.cells[start := 0]), Returns(r.cells[start]))
  }

  function WritePass(r: Ring, ch: int): (Ring, Outcome)
    requires 0 <= r.size <= |r.cells| && 0 <= r.end && (r.end < |r.cells| || |r.cells| == 0)
  {
    if r.size == |r.cells| then (r, if r.inOpen == 0 then Returns(0) else Waits)
    else
      var end := r.end + 1;
      (r.(size := r.size + 1, end := if end == |r.cells| then 0 else end, cells := r.cells[r.end := ch]), Returns(1))
  }

  /** `Read` takes the oldest character; end of stream is for an empty pipe whose writing end is
      closed, and an empty pipe whose writing end is open waits. */
  lemma ReadTakesOldest(r: Ring)
    requires Valid(r)
    ensures var (r', out) := ReadPass(r);
            && Valid(r') && |r'.cells| == |r.cells|
            && (Contents(r) != [] ==> out == Returns(Contents(r)[0]) && Contents(r') == Contents(r)[1..])
            && (Contents(r) == [] ==> r' == r && out == if r.outOpen == 0 then Returns(END_OF_STREAM) else Waits)
  {
    var (r', out) := ReadPass(r);
    if r.size > 0 {
      var was, now := Contents(r), Contents(r');
      forall i | 0 <= i < |now| ensures now[i] == was[i + 1] {
        assert Cell(r', i) == Cell(r, i + 1) && Cell(r, i + 1) != Cell(r, 0);
      }
      assert now == was[1..];
    }
  }

  /** `Write` adds the character behind the others; a full pipe waits, or refuses with 0 when
      its reading end is closed. */
  lemma WriteAddsNewest(r: Ring, ch: int)
    requires Valid(r)
    ensures var (r', out) := WritePass(r, ch);
            && Valid(r') && |r'.cells| == |r.cells|
            && (|Contents(r)| < |r.cells| ==> out == Returns(1) && Contents(r') == Contents(r) + [ch])
            && (|Contents(r)| == |r.cells| ==> r' == r && out == if r.inOpen == 0 then Returns(0) else Waits)
  {
  }

  // ---------------------------------------------------------------- every run

  datatype Event = Read | Write(ch: int) | SetInOpen(v: int) | SetOutOpen(v: int)

  /** The pipe with the characters accepted and returned so far. */
  datatype System = System(ring: Ring, accepted: seq<int>, returned: seq<int>)

  /** Character arguments are C `char`s. */
  predicate IsChar(ch: int) { -128 <= ch < 128 }

  ghost function Step(s: System, e: Event): (System, Outcome)
    requires Valid(s.ring)
  {
    match e
    case Read =>
      var (ring, out) := ReadPass(s.ring);
      (System(ring, s.accepted, if s.ring.size > 0 && out.Returns? then s.returned + [out.value] else s.returned), out)
    case Write(ch) =>
      var (ring, out) := WritePass(s.ring, ch);
      (System(ring, if out == Returns(1) then s.accepted + [ch] else s.accepted, s.returned), out)
    case SetInOpen(v) => (s.(ring := s.ring.(inOpen := v)), Waits)
    case SetOutOpen(v) => (s.(ring := s.ring.(outOpen := v)), Waits)
  }

  /** Nothing is lost, duplicated or reordered. */
  ghost predicate Fifo(s: System) {
    && Valid(s.ring)
    && s.accepted == s.returned + Contents(s.ring)
    && forall i :: 0 <= i < |s.accepted| ==> IsChar(s.accepted[i])
  }

  lemma OpeningKeepsContents(r: Ring, r': Ring)
    requires Valid(r) && r'.cells == r.cells && r'.size == r.size && r'.start == r.start && r'.end == r.end
    ensures Valid(r') && Contents(r') == Contents(r)
  {
  }

  lemma StepKeeps(s: System, e: Event)
    requires Fifo(s) && (e.Write? ==> IsChar(e.ch))
    ensures Fifo(Step(s, e).0)
  {
    hide Valid, Contents;
    match e
    case Read => ReadFifo(s);
    case Write(ch) => WriteFifo(s, ch);
    case SetInOpen(v) => OpeningKeepsContents(s.ring, s.ring.(inOpen := v));
    case SetOutOpen(v) => OpeningKeepsContents(s.ring, s.ring.(outOpen := v));
  }

  lemma ContentsLength(r: Ring)
    requires Valid(r)
    ensures |Contents(r)| == r.size
  {
  }

  lemma ReadFifo(s: System)
    requires Fifo(s)
    ensures Fifo(Step(s, Read).0)
  {
    hide Valid, Contents, ReadPass;
    ReadTakesOldest(s.ring);
    var c := Contents(s.ring);
    ContentsLength(s.ring);
    if c != [] { assert c == [c[0]] + c[1..]; }
  }

  lemma WriteFifo(s: System, ch: int)
    requires Fifo(s) && IsChar(ch)
    ensures Fifo(Step(s, Write(ch)).0)
  {
    WriteAddsNewest(s.ring, ch);
  }

  ghost predicate IsRun(run: seq<System>, events: seq<Event>) {
    && |run| == |events| + 1
    && (exists capacity: nat :: run[0] == Empty(capacity))
    && (forall i :: 0 <= i < |events| && events[i].Write? ==> IsChar(events[i].ch))
    && forall i, j :: 0 <= i < |events| && j == i + 1 && Valid(run[i].ring) ==> run[j] == Step(run[i], events[i]).0
  }

  function Empty(capacity: nat): System {
    System(Ring(seq(capacity, _ => 0), 0, 0, 0, 0, 0), [], [])
  }

  lemma EmptyIsFifo(capacity: nat)
    ensures Fifo(Empty(capacity))
  {
  }

  lemma {:induction false} RunIsFifo(run: seq<System>, events: seq<Event>, n: nat)
    requires IsRun(run, events) && n <= |events|
    ensures Fifo(run[n])
  {
    hide Fifo, Step;
    if n == 0 {
      var capacity: nat :| run[0] == Empty(capacity);
      EmptyIsFifo(capacity);
    } else {
      RunIsFifo(run, events, n - 1);
      assert Valid(run[n - 1].ring) by { FifoIsValid(run[n - 1]); }
      assert run[n] == Step(run[n - 1], events[n - 1]).0;
      StepKeeps(run[n - 1], events[n - 1]);
    }
  }

  lemma FifoIsValid(s: System)
    requires Fifo(s)
    ensures Valid(s.ring)
  {
  }

  /** In every interleaving, for every capacity: what `Read` returned is a prefix of what `Write`
      accepted, the rest are the `size` cells from `start`; a `Read` returns the end-of-stream
      value exactly when the pipe is empty and its writing end is closed, and never as data. */
  lemma PipeIsFifo(run: seq<System>, events: seq<Event>, n: nat)
    requires IsRun(run, events) && n <= |events|
    ensures var s := run[n];
            && Valid(s.ring)
            && s.accepted == s.returned + Contents(s.ring)
            && (n < |events| && events[n] == Read ==>
                  (Step(s, Read).1 == Returns(END_OF_STREAM) <==> s.returned == s.accepted && s.ring.outOpen == 0))
  {
    hide Step;
    RunIsFifo(run, events, n);
    ReadTakesOldest(run[n].ring);
    ReadOutcome(run[n]);
  }

  lemma ReadOutcome(s: System)
    requires Fifo(s)
    ensures Step(s, Read).1 == Returns(END_OF_STREAM) <==> s.returned == s.accepted && s.ring.outOpen == 0
  {
    ReadTakesOldest(s.ring);
    var c := Contents(s.ring);
    if c != [] {
      assert s.accepted[|s.returned|] == c[0];
    }
  }

  // ---------------------------------------------------------------- the object

  class Pipe {
    var buffer: array<int>
    var size: int
    var start: int
    var end: int
    var inOpen: int
    var outOpen: int

    ghost function Model(): Ring
      reads this, buffer
    {
      Ring(buffer[..], size, start, end, inOpen, outOpen)
    }

    constructor (bufferSize: nat)
      ensures Valid(Model()) && Contents(Model()) == [] && buffer.Length == bufferSize && fresh(buffer)
    {
      buffer := new int[bufferSize](_ => 0);
      size, start, end, inOpen, outOpen := 0, 0, 0, 0, 0;
    }

    /** One pass of `Read` under the lock. */
    method Read() returns (out: Outcome)
      requires Valid(Model())
      modifies this, buffer
      ensures buffer == old(buffer)
      ensures (Model(), out) == ReadPass(old(Model()))
    {
      if size == 0 {
        if outOpen == 0 {
          return Returns(END_OF_STREAM);
        }
        return Waits;
      }
      size := size - 1;
      if start == buffer.Length {
        start := 0;
      }
      out := Returns(buffer[start]);
      buffer[start] := 0;
      start := start + 1;
    }

    /** One pass of `Write` under the lock. */
    method Write(ch: int) returns (out: Outcome)
      requires Valid(Model())
      modifies this, buffer
      ensures buffer == old(buffer)
      ensures (Model(), out) == WritePass(old(Model()), ch)
    {
      if size == buffer.Length {
        if inOpen == 0 {
          return Returns(0);
        }
        return Waits;
      }
      buffer[end] := ch;
      end := end + 1;
      size := size + 1;
      if end == buffer.Length {
        end := 0;
      }
      out := Returns(1);
    }
  }
}
