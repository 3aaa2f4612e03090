/** The timing of the simulated disk: seeking, rotation and the track buffer.  The disk turns one
    sector per `ROTATION_TIME` ticks, so time falls into slots of that length, and in slot `n` of
    any track the sector at offset `n % SECTORS_PER_TRACK` passes under the head. */
module DiskTiming {
  import opened Basics
  import DiskLayout

  const SECTORS_PER_TRACK := 32
  const NUM_TRACKS := 32
  const ROTATION_TIME := 500
  const SEEK_TIME := 500

  type Sector = s: nat | s < DiskLayout.NUM_SECTORS

  /** `lastSector` and `bufferInit`: where the head is, and since when it has been reading its
      track into the buffer. */
  datatype Head = Head(lastSector: Sector, bufferInit: int)

  function Track(sector: Sector): (t: nat)
    ensures t < NUM_TRACKS
  {
    sector / SECTORS_PER_TRACK
  }

  // ---------------------------------------------------------------- the computation

  /** How long until the head is on the track, and then until the next slot begins. */
  function TimeToSeek(h: Head, now: nat, newSector: Sector): (r: (nat, nat))
    ensures r.0 <= 15500 && r.1 < ROTATION_TIME
    ensures (now + r.0 + r.1) % ROTATION_TIME == 0
    ensures r.0 == 0 <==> Track(newSector) == Track(h.lastSector)
  {
    var seek := Magnitude(Track(newSector) - Track(h.lastSector)) * SEEK_TIME;
    var over := (now + seek) % ROTATION_TIME;
    (seek, if over > 0 then ROTATION_TIME - over else 0)
  }

  function ModuloDiff(to: nat, from: nat): (d: nat)
    ensures d < SECTORS_PER_TRACK
  {
    ((to % SECTORS_PER_TRACK - from % SECTORS_PER_TRACK) + SECTORS_PER_TRACK) % SECTORS_PER_TRACK
  }

  /** Whether a request is served from the track buffer. */
  predicate FromBuffer(h: Head, now: nat, newSector: Sector, writing: bool)
    requires h.bufferInit >= 0
  {
    var (seek, rotation) := TimeToSeek(h, now, newSector);
    !writing && seek == 0
    && (now + seek + rotation - h.bufferInit) / ROTATION_TIME > ModuloDiff(newSector, h.bufferInit / ROTATION_TIME)
  }

  function ComputeLatency(h: Head, now: nat, newSector: Sector, writing: bool): (ticks: int)
    requires h.bufferInit >= 0
  {
    var (seek, rotation) := TimeToSeek(h, now, newSector);
    if FromBuffer(h, now, newSector, writing) then ROTATION_TIME
    else seek + rotation + ModuloDiff(newSector, (now + seek + rotation) / ROTATION_TIME) * ROTATION_TIME + ROTATION_TIME
  }

  function UpdateLast(h: Head, now: nat, newSector: Sector): Head {
    var (seek, rotation) := TimeToSeek(h, now, newSector);
    Head(newSector, if seek != 0 then now + seek + rotation else h.bufferInit)
  }

  // ---------------------------------------------------------------- what it means

  predicate Passes(sector: Sector, slot: nat) {
    slot % SECTORS_PER_TRACK == sector % SECTORS_PER_TRACK
  }

  /** `ModuloDiff` finds the first slot, from a given one on, in which a sector passes. */
  lemma FirstPass(sector: Sector, from: nat)
    ensures Passes(sector, from + ModuloDiff(sector, from))
    ensures forall slot: nat :: from <= slot && Passes(sector, slot) ==> from + ModuloDiff(sector, from) <= slot
  {
    var k, turn, at := sector % SECTORS_PER_TRACK, from / SECTORS_PER_TRACK, from % SECTORS_PER_TRACK;
    var d := ModuloDiff(sector, from);
    assert d == if k >= at then k - at else k - at + SECTORS_PER_TRACK;
    assert from == SECTORS_PER_TRACK * turn + at;
    assert from + d == SECTORS_PER_TRACK * (if k >= at then turn else turn + 1) + k;
    forall slot: nat | from <= slot && Passes(sector, slot) ensures from + d <= slot {
      var turn' := slot / SECTORS_PER_TRACK;
      assert slot == SECTORS_PER_TRACK * turn' + k;
      assert turn' >= turn;
    }
  }

  /** Every request takes between one sector time and 31999 ticks. */
  lemma LatencyBounds(h: Head, now: nat, newSector: Sector, writing: bool)
    requires h.bufferInit >= 0
    ensures 500 <= ComputeLatency(h, now, newSector, writing) <= 31999
  {
  }

  lemma LatencyBoundsAreTight()
    ensures ComputeLatency(Head(0, 0), 1, 1023, true) == 31999
    ensures ComputeLatency(Head(0, 0), 0, 0, true) == 500
  {
    assert TimeToSeek(Head(0, 0), 1, 1023) == (15500, 499);
    assert TimeToSeek(Head(0, 0), 0, 0) == (0, 0);
    assert ModuloDiff(1023, 32) == 31 && ModuloDiff(0, 0) == 0;
    hide TimeToSeek, ModuloDiff;
  }

  /** The slots at whose start the head can be over the sector: it is on the track by then. */
  ghost predicate Reaches(h: Head, now: nat, sector: Sector, slot: nat) {
    slot * ROTATION_TIME >= now + Magnitude(Track(sector) - Track(h.lastSector)) * SEEK_TIME && Passes(sector, slot)
  }

  ghost predicate IsFirstReach(h: Head, now: nat, sector: Sector, slot: nat) {
    Reaches(h, now, sector, slot) && forall other: nat :: Reaches(h, now, sector, other) ==> slot <= other
  }

  /** A request not served from the buffer ends exactly when the sector has passed under the head
      for the first time once the head is on its track. */
  lemma LatencyIsExact(h: Head, now: nat, newSector: Sector, writing: bool) returns (slot: nat)
    requires h.bufferInit >= 0 && !FromBuffer(h, now, newSector, writing)
    ensures now + ComputeLatency(h, now, newSector, writing) == (slot + 1) * ROTATION_TIME
    ensures IsFirstReach(h, now, newSector, slot)
  {
    var (seek, rotation) := TimeToSeek(h, now, newSector);
    var from := (now + seek + rotation) / ROTATION_TIME;
    assert now + seek + rotation == from * ROTATION_TIME;
    FirstPass(newSector, from);
    slot := from + ModuloDiff(newSector, from);
    forall other: nat | Reaches(h, now, newSector, other) ensures slot <= other {
      assert other >= from;
    }
  }

  ghost predicate Steady(h: Head) {
    h.bufferInit >= 0 && h.bufferInit % ROTATION_TIME == 0
  }

  /** The first slot boundary at or after `now`. */
  function SlotAfter(now: nat): nat { (now + ROTATION_TIME - 1) / ROTATION_TIME }

  /** The sector has gone past the head, from its beginning to its end, since the buffer began to
      load and before the next slot begins. */
  ghost predicate Loaded(h: Head, now: nat, sector: Sector, slot: nat) {
    h.bufferInit <= slot * ROTATION_TIME && slot + 1 <= SlotAfter(now) && Passes(sector, slot)
  }

  /** A read of the current track that the buffer holds. */
  ghost predicate IsLoadedRead(h: Head, now: nat, sector: Sector, writing: bool) {
    !writing && Track(sector) == Track(h.lastSector) && exists slot: nat :: Loaded(h, now, sector, slot)
  }

  /** The buffer serves a request exactly when it is a read of the current track and the sector
      has been loaded. */
  lemma FromBufferIff(h: Head, now: nat, newSector: Sector, writing: bool)
    requires Steady(h)
    ensures FromBuffer(h, now, newSector, writing) <==> IsLoadedRead(h, now, newSector, writing)
  {
    var (seek, rotation) := TimeToSeek(h, now, newSector);
    if !writing && seek == 0 {
      var b, d := h.bufferInit / ROTATION_TIME, ModuloDiff(newSector, h.bufferInit / ROTATION_TIME);
      assert now + rotation == SlotAfter(now) * ROTATION_TIME;
      assert (now + rotation - h.bufferInit) / ROTATION_TIME == SlotAfter(now) - b;
      FirstPass(newSector, b);
      if FromBuffer(h, now, newSector, writing) {
        assert Loaded(h, now, newSector, b + d);
      }
      if slot: nat :| Loaded(h, now, newSector, slot) {
        assert b <= slot;
      }
    }
  }

  /** After a request the head is over its sector.  Only a seek starts the buffer again, at the first
      slot boundary at which the head is on the new track. */
  lemma UpdateIsExact(h: Head, now: nat, newSector: Sector)
    ensures var h', tracks := UpdateLast(h, now, newSector), Magnitude(newSector / 32 - h.lastSector / 32);
            && h'.lastSector == newSector
            && (tracks == 0 ==> h'.bufferInit == h.bufferInit)
            && (tracks > 0 ==> h'.bufferInit % 500 == 0 && now + 500 * tracks <= h'.bufferInit < now + 500 * tracks + 500)
  {
  }

  // ---------------------------------------------------------------- every run

  /** A request that was made at `at` and took `latency`. */
  datatype Served = Served(at: nat, sector: Sector, latency: int)

  function Done(s: Served): int { s.at + s.latency }

  /** The disk over time: one request at a time, so the next is made when the last is done. */
  datatype Timeline = Timeline(head: Head, history: seq<Served>)

  ghost predicate Idle(d: Timeline, now: nat) {
    forall i :: 0 <= i < |d.history| ==> Done(d.history[i]) <= now
  }

  function Request(d: Timeline, now: nat, sector: Sector, writing: bool): Timeline
    requires d.head.bufferInit >= 0
  {
    Timeline(UpdateLast(d.head, now, sector), d.history + [Served(now, sector, ComputeLatency(d.head, now, sector, writing))])
  }

  /** The head has stayed on its track since the buffer began to load: whatever was served on
      another track was done before. */
  ghost predicate Inv(d: Timeline) {
    && Steady(d.head)
    && (forall i :: 0 <= i < |d.history| ==> 500 <= d.history[i].latency <= 31999)
    && (forall i :: 0 <= i < |d.history| && Track(d.history[i].sector) != Track(d.head.lastSector) ==> Done(d.history[i]) <= d.head.bufferInit)
    && (d.history == [] ==> d.head.bufferInit == 0)
    && (d.history != [] ==> d.history[|d.history| - 1].sector == d.head.lastSector && d.head.bufferInit <= Done(d.history[|d.history| - 1]))
  }

  lemma RequestKeeps(d: Timeline, now: nat, sector: Sector, writing: bool)
    requires Inv(d) && Idle(d, now)
    ensures Inv(Request(d, now, sector, writing))
    ensures d.head.bufferInit <= now
  {
  }

  datatype Ask = Ask(now: nat, sector: Sector, writing: bool)

  ghost predicate IsRun(run: seq<Timeline>, asks: seq<Ask>) {
    && |run| == |asks| + 1 && run[0] == Timeline(Head(0, 0), [])
    && forall i, j :: 0 <= i < |asks| && j == i + 1 ==> IsStep(run[i], asks[i], run[j])
  }

  ghost predicate IsStep(d: Timeline, a: Ask, d': Timeline) {
    Idle(d, a.now) && (d.head.bufferInit >= 0 ==> d' == Request(d, a.now, a.sector, a.writing))
  }

  lemma {:induction false} RunIsSteady(run: seq<Timeline>, asks: seq<Ask>, n: nat)
    requires IsRun(run, asks) && n <= |asks|
    ensures Inv(run[n])
  {
    hide Request;
    if n > 0 {
      RunIsSteady(run, asks, n - 1);
      assert IsStep(run[n - 1], asks[n - 1], run[n]);
      RequestKeeps(run[n - 1], asks[n - 1].now, asks[n - 1].sector, asks[n - 1].writing);
    }
  }

  /** In every run, a read is served from the buffer exactly when the sector has gone past the
      head in full since the head came to its track, where it has been ever since. */
  lemma BufferHoldsWhatPassed(run: seq<Timeline>, asks: seq<Ask>, n: nat)
    requires IsRun(run, asks) && n < |asks|
    ensures var h, a := run[n].head, asks[n];
            && h.bufferInit >= 0 && h.bufferInit <= a.now
            && (FromBuffer(h, a.now, a.sector, a.writing) <==> IsLoadedRead(h, a.now, a.sector, a.writing))
            && forall i :: 0 <= i < n && i < |run[n].history| && Track(run[n].history[i].sector) != Track(h.lastSector) ==>
                 Done(run[n].history[i]) <= h.bufferInit
  {
    hide FromBuffer, Request, Track;
    RunIsSteady(run, asks, n);
    var d, a := run[n], asks[n];
    assert IsStep(d, a, run[n + 1]);
    FromBufferIff(d.head, a.now, a.sector, a.writing);
    RequestKeeps(d, a.now, a.sector, a.writing);
  }

  // ---------------------------------------------------------------- the object

  class Disk {
    var lastSector: Sector
    var bufferInit: int
    var active: bool

    ghost function Model(): Head
      reads this
    {
      Head(lastSector, bufferInit)
    }

    constructor ()
      ensures Model() == Head(0, 0) && !active
    {
      lastSector, bufferInit, active := 0, 0, false;
    }

    /** `ReadRequest` and `WriteRequest`; the result is when the interrupt is to come.  A read of a
        sector that has gone past the head since the buffer began to load takes one sector time.
        Any other request ends when the sector has passed for the first time once the head is on
        its track.  Only a seek starts the buffer again, at the first slot on the new track. */
    method StartRequest(now: nat, sectorNumber: Sector, writing: bool) returns (ticks: int)
      requires !active && Steady(Model())
      modifies this
      ensures active && Steady(Model()) && lastSector == sectorNumber
      ensures Model() == UpdateLast(old(Model()), now, sectorNumber) && ticks == ComputeLatency(old(Model()), now, sectorNumber, writing)
      ensures 500 <= ticks <= 31999
      ensures if IsLoadedRead(old(Model()), now, sectorNumber, writing) then ticks == ROTATION_TIME
              else exists slot: nat :: now + ticks == (slot + 1) * ROTATION_TIME && IsFirstReach(old(Model()), now, sectorNumber, slot)
      ensures Track(sectorNumber) == Track(old(lastSector)) ==> bufferInit == old(bufferInit)
      ensures Track(sectorNumber) != Track(old(lastSector)) ==>
                var arrival := now + Magnitude(Track(sectorNumber) - Track(old(lastSector))) * SEEK_TIME;
                arrival <= bufferInit < arrival + ROTATION_TIME
    {
      ghost var h := Model();
      FromBufferIff(h, now, sectorNumber, writing);
      LatencyBounds(h, now, sectorNumber, writing);
      var (seek, rotation) := TimeToSeek(Head(lastSector, bufferInit), now, sectorNumber);
      var timeAfter := now + seek + rotation;
      if !writing && seek == 0 && (timeAfter - bufferInit) / ROTATION_TIME > ModuloDiff(sectorNumber, bufferInit / ROTATION_TIME) {
        ticks := ROTATION_TIME;
      } else {
        ghost var slot := LatencyIsExact(h, now, sectorNumber, writing);
        ticks := seek + rotation + ModuloDiff(sectorNumber, timeAfter / ROTATION_TIME) * ROTATION_TIME + ROTATION_TIME;
        assert IsFirstReach(h, now, sectorNumber, slot);
      }
      active := true;
      if seek != 0 {
        bufferInit := timeAfter;
      }
      lastSector := sectorNumber;
    }

    method HandleInterrupt()
      modifies this
      ensures !active && Model() == old(Model())
    {
      active := false;
    }
  }
}
