/** Synchronous sector access, and `ReadAt`/`WriteAt` on an open file: unaligned transfers done
    by whole sectors, with read-modify-write at both ends. */
module OpenFile {
  import opened Basics
  import opened Bytes
  import opened BitMapSpec
  import opened DiskLayout
  import opened FileSystemSpec

  class SynchDisk {
    const sectors: array<seq<Byte>>

    ghost predicate Valid()
      reads sectors
    {
      DiskShape(sectors[..])
    }

    ghost function View(): Disk
      reads sectors
    {
      sectors[..]
    }

    constructor (d: Disk)
      requires DiskShape(d)
      ensures Valid() && View() == d && fresh(sectors)
    {
      sectors := new seq<Byte>[NUM_SECTORS](i requires 0 <= i < NUM_SECTORS => d[i]);
    }

    method ReadSector(sector: nat) returns (data: seq<Byte>)
      requires Valid() && sector < NUM_SECTORS
      ensures data == View()[sector] && |data| == SECTOR_SIZE
    {
      data := sectors[sector];
      assert |sectors[..][sector]| == SECTOR_SIZE;
    }

    method WriteSector(sector: nat, data: seq<Byte>)
      requires Valid() && sector < NUM_SECTORS && |data| == SECTOR_SIZE
      modifies sectors
      ensures Valid() && View() == old(View())[sector := data]
    {
      sectors[sector] := data;
    }
  }

  // ---------------------------------------------------------------- blocks of a buffer

  function Block(buf: seq<Byte>, k: nat): (b: seq<Byte>)
    requires (k + 1) * SECTOR_SIZE <= |buf|
    ensures |b| == SECTOR_SIZE
  {
    buf[k * SECTOR_SIZE..(k + 1) * SECTOR_SIZE]
  }

  /** `bcopy` into a buffer. */
  method CopyInto(buf: array<Byte>, at: nat, data: seq<Byte>)
    requires at + |data| <= buf.Length
    modifies buf
    ensures buf[..] == Patch(old(buf[..]), at, data)
  {
    for j := 0 to |data|
      invariant forall i :: 0 <= i < buf.Length ==>
                  buf[i] == if at <= i < at + j then data[i - at] else old(buf[i])
    {
      buf[at + j] := data[j];
    }
  }

  lemma PatchBlock(buf: seq<Byte>, k: nat, data: seq<Byte>, j: nat)
    requires |data| == SECTOR_SIZE && (k + 1) * SECTOR_SIZE <= |buf| && (j + 1) * SECTOR_SIZE <= |buf|
    ensures Block(Patch(buf, k * SECTOR_SIZE, data), j) == if j == k then data else Block(buf, j)
  {
  }

  /** Byte `p` of the file, found in a buffer that holds its sectors from `first` on. */
  lemma ByteInBuffer(d: Disk, h: Header, first: nat, last: nat, buf: seq<Byte>, p: int)
    requires DiskShape(d) && HeaderOk(h) && first <= last < |h.dataSectors|
    requires |buf| == (last - first + 1) * SECTOR_SIZE
    requires forall q :: first <= q <= last ==> Block(buf, q - first) == d[h.dataSectors[q]]
    requires first * SECTOR_SIZE <= p < (last + 1) * SECTOR_SIZE && p < h.numBytes
    ensures buf[p - first * SECTOR_SIZE] == ByteAt(d, h, p)
  {
    var q, o := p / SECTOR_SIZE, p % SECTOR_SIZE;
    assert first <= q <= last;
    assert Block(buf, q - first)[o] == buf[(q - first) * SECTOR_SIZE + o];
  }

  lemma RangeInBuffer(d: Disk, h: Header, first: nat, last: nat, buf: seq<Byte>, position: nat, n: nat)
    requires DiskShape(d) && HeaderOk(h) && first <= last < |h.dataSectors|
    requires |buf| == (last - first + 1) * SECTOR_SIZE
    requires forall q :: first <= q <= last ==> Block(buf, q - first) == d[h.dataSectors[q]]
    requires first * SECTOR_SIZE <= position && position + n <= (last + 1) * SECTOR_SIZE && position + n <= h.numBytes
    ensures var off := position - first * SECTOR_SIZE;
            buf[off..off + n] == FileBytes(d, h)[position..position + n]
  {
    hide Block, HeaderOk;
    var off := position - first * SECTOR_SIZE;
    var a, b := buf[off..off + n], FileBytes(d, h)[position..position + n];
    forall j | 0 <= j < n ensures a[j] == b[j] {
      ByteInBuffer(d, h, first, last, buf, position + j);
    }
  }

  // ---------------------------------------------------------------- open files

  function Min(a: int, b: int): int { if a < b then a else b }

  /** How many bytes a request transfers: none past the end, and no more than are left. */
  function Transferred(length: nat, numBytes: int, position: nat): (n: nat)
    ensures numBytes <= 0 || position >= length ==> n == 0
    ensures 0 < numBytes && position + numBytes <= length ==> n == numBytes
    ensures position < length < position + numBytes ==> position + n == length
  {
    if numBytes <= 0 || position >= length then 0 else Min(numBytes, length - position)
  }

  class OpenFile {
    const disk: SynchDisk
    const hdr: Header
    var seekPosition: nat

    ghost predicate Valid()
      reads disk.sectors
    {
      disk.Valid() && HeaderOk(hdr) && NoDup(hdr.dataSectors)
    }

    ghost function Contents(): (bs: seq<Byte>)
      reads disk.sectors
      requires Valid()
      ensures |bs| == hdr.numBytes
    {
      FileBytes(disk.View(), hdr)
    }

    constructor (disk: SynchDisk, hdr: Header)
      requires disk.Valid() && HeaderOk(hdr) && NoDup(hdr.dataSectors)
      ensures Valid() && this.disk == disk && this.hdr == hdr && seekPosition == 0
    {
      this.disk, this.hdr, seekPosition := disk, hdr, 0;
    }

    method Seek(position: nat)
      modifies this
      ensures seekPosition == position
    {
      seekPosition := position;
    }

    /** Read the sectors `first..last` of the file into a buffer. */
    method ReadSectors(first: nat, last: nat) returns (buf: array<Byte>)
      requires Valid() && first <= last < |hdr.dataSectors|
      ensures fresh(buf) && buf.Length == (last - first + 1) * SECTOR_SIZE
      ensures forall q :: first <= q <= last ==> Block(buf[..], q - first) == disk.View()[hdr.dataSectors[q]]
    {
      buf := new Byte[(last - first + 1) * SECTOR_SIZE];
      for i := first to last + 1
        invariant disk.View() == old(disk.View())
        invariant forall q :: first <= q < i ==> Block(buf[..], q - first) == disk.View()[hdr.dataSectors[q]]
      {
        var data := disk.ReadSector(hdr.dataSectors[i]);
        ghost var was := buf[..];
        CopyInto(buf, (i - first) * SECTOR_SIZE, data);
        forall k | 0 <= k <= i - first
          ensures Block(buf[..], k) == if k == i - first then data else Block(was, k)
        {
          PatchBlock(was, i - first, data, k);
        }
      }
    }

    /** `OpenFile::ReadAt`: the bytes of the file in range, however the request is aligned. */
    method ReadAt(numBytes: int, position: nat) returns (into: seq<Byte>)
      requires Valid()
      ensures numBytes <= 0 || position >= hdr.numBytes ==> |into| == 0
      ensures 0 < numBytes && position + numBytes <= hdr.numBytes ==> |into| == numBytes
      ensures position < hdr.numBytes < position + numBytes ==> position + |into| == hdr.numBytes
      ensures into == if into == [] then [] else Contents()[position..position + |into|]
    {
      hide FileBytes, Block;
      var n := Transferred(hdr.numBytes, numBytes, position);
      if n == 0 {
        return [];
      }
      var first, last := position / SECTOR_SIZE, (position + n - 1) / SECTOR_SIZE;
      SectorOfByte(hdr, position);
      SectorOfByte(hdr, position + n - 1);
      var buf := ReadSectors(first, last);
      var off := position - first * SECTOR_SIZE;
      into := buf[off..off + n];
      RangeInBuffer(disk.View(), hdr, first, last, buf[..], position, n);
    }

    /** Read the sector-sized piece at offset `at`, as far as the file goes. */
    method ReadPiece(at: nat) returns (piece: seq<Byte>)
      requires Valid() && at < hdr.numBytes
      ensures piece == Piece(Contents(), at) && |piece| <= SECTOR_SIZE
    {
      hide FileBytes;
      piece := ReadAt(SECTOR_SIZE, at);
    }

    /** Prepare the sectors at offsets `lo` to `hi` of the file for writing: the ends that are
        only partly replaced are read first, the rest of the buffer is whatever was in it. */
    method BufferFor(from: seq<Byte>, position: nat, lo: nat, hi: nat) returns (buf: seq<Byte>)
      requires Valid() && |from| > 0 && position + |from| <= hdr.numBytes
      requires lo <= position < lo + SECTOR_SIZE && hi < position + |from| <= hi + SECTOR_SIZE && lo <= hi
      requires lo == hi || lo + SECTOR_SIZE <= hi
      ensures |buf| == hi - lo + SECTOR_SIZE
      ensures Prepared(Contents(), from, position, lo, buf)
    {
      hide FileBytes, Valid, Piece, Prepared, Patch;
      var garbage := new Byte[hi - lo + SECTOR_SIZE];
      var b0 := garbage[..];
      var firstAligned := position == lo;
      var lastAligned := position + |from| == hi + SECTOR_SIZE;
      var b1 := b0;
      if !firstAligned {
        var head := ReadPiece(lo);
        b1 := Patch(b0, 0, head);
      }
      var b2 := b1;
      if !lastAligned && (lo != hi || firstAligned) {
        var tail := ReadPiece(hi);
        b2 := Patch(b1, hi - lo, tail);
      }
      buf := Patch(b2, position - lo, from);
      EndsAreKept(Contents(), from, position, lo, hi, b0, b1, b2);
    }

    /** Write the blocks of `buf` to the sectors `first..last` of the file. */
    method WriteSectors(first: nat, last: nat, buf: seq<Byte>)
      requires Valid() && first <= last < |hdr.dataSectors| && |buf| == (last - first + 1) * SECTOR_SIZE
      modifies disk.sectors
      ensures Valid() && Rewritten(old(disk.View()), hdr, first, last + 1, buf, disk.View())
    {
      hide Block, DivRoundUp;
      for i := first to last + 1
        invariant Valid() && Rewritten(old(disk.View()), hdr, first, i, buf, disk.View())
      {
        disk.WriteSector(hdr.dataSectors[i], Block(buf, i - first));
      }
    }

    /** `OpenFile::WriteAt`: exactly the bytes in range change, in this file and on the disk. */
    method WriteAt(from: seq<Byte>, position: nat) returns (n: nat)
      requires Valid()
      modifies disk.sectors
      ensures Valid()
      ensures |from| <= 0 || position >= hdr.numBytes ==> n == 0
      ensures 0 < |from| && position + |from| <= hdr.numBytes ==> n == |from|
      ensures position < hdr.numBytes < position + |from| ==> position + n == hdr.numBytes
      ensures n == 0 ==> disk.View() == old(disk.View())
      ensures n > 0 ==> Wrote(old(disk.View()), hdr, position, from[..n], disk.View())
    {
      hide HeaderOk, NoDup, FileBytes, Patch, Block, Prepared, Rewritten, Wrote;
      n := Transferred(hdr.numBytes, |from|, position);
      if n == 0 {
        return;
      }
      var first, last := position / SECTOR_SIZE, (position + n - 1) / SECTOR_SIZE;
      SectorOfByte(hdr, position);
      SectorOfByte(hdr, position + n - 1);
      var buf := BufferFor(from[..n], position, first * SECTOR_SIZE, last * SECTOR_SIZE);
      WriteSectors(first, last, buf);
      RewrittenIsWrote(old(disk.View()), hdr, first, last, from[..n], position, buf, disk.View());
    }

    method Read(numBytes: int) returns (into: seq<Byte>)
      requires Valid()
      modifies this
      ensures Valid()
      ensures numBytes <= 0 || old(seekPosition) >= hdr.numBytes ==> |into| == 0
      ensures 0 < numBytes && old(seekPosition) + numBytes <= hdr.numBytes ==> |into| == numBytes
      ensures old(seekPosition) < hdr.numBytes < old(seekPosition) + numBytes ==> old(seekPosition) + |into| == hdr.numBytes
      ensures into == if into == [] then [] else Contents()[old(seekPosition)..old(seekPosition) + |into|]
      ensures seekPosition == old(seekPosition) + |into|
    {
      into := ReadAt(numBytes, seekPosition);
      seekPosition := seekPosition + |into|;
    }

    method Write(from: seq<Byte>) returns (n: nat)
      requires Valid()
      modifies this, disk.sectors
      ensures Valid()
      ensures |from| <= 0 || old(seekPosition) >= hdr.numBytes ==> n == 0
      ensures 0 < |from| && old(seekPosition) + |from| <= hdr.numBytes ==> n == |from|
      ensures old(seekPosition) < hdr.numBytes < old(seekPosition) + |from| ==> old(seekPosition) + n == hdr.numBytes
      ensures n == 0 ==> disk.View() == old(disk.View())
      ensures n > 0 ==> Wrote(old(disk.View()), hdr, old(seekPosition), from[..n], disk.View())
      ensures seekPosition == old(seekPosition) + n
    {
      n := WriteAt(from, seekPosition);
      seekPosition := seekPosition + n;
    }
  }

  /** The file's sectors from `first` up to `upto` now hold the blocks of `buf`. */
  ghost predicate Rewritten(d: Disk, h: Header, first: nat, upto: nat, buf: seq<Byte>, d': Disk)
    requires first <= upto <= |h.dataSectors| && (upto - first) * SECTOR_SIZE <= |buf|
  {
    && DiskShape(d) && DiskShape(d') && HeaderOk(h)
    && (forall q :: first <= q < upto ==> d'[h.dataSectors[q]] == Block(buf, q - first))
    && (forall s :: 0 <= s < NUM_SECTORS && (forall q :: first <= q < upto ==> h.dataSectors[q] != s) ==> d'[s] == d[s])
  }

  /** Byte `p` after the sectors from `first` to `last` were rewritten. */
  lemma RewrittenByte(d: Disk, h: Header, first: nat, last: nat, buf: seq<Byte>, d': Disk, p: nat)
    requires first <= last < |h.dataSectors| && |buf| == (last - first + 1) * SECTOR_SIZE
    requires Rewritten(d, h, first, last + 1, buf, d') && NoDup(h.dataSectors) && p < h.numBytes
    ensures ByteAt(d', h, p) == if first * SECTOR_SIZE <= p < (last + 1) * SECTOR_SIZE
                                then buf[p - first * SECTOR_SIZE] else ByteAt(d, h, p)
  {
    var q, o := p / SECTOR_SIZE, p % SECTOR_SIZE;
    SectorOfByte(h, p);
    if first <= q <= last {
      assert Block(buf, q - first)[o] == buf[(q - first) * SECTOR_SIZE + o];
    } else {
      assert forall r :: first <= r <= last ==> h.dataSectors[r] != h.dataSectors[q];
    }
  }

  lemma RewrittenIsWrote(d: Disk, h: Header, first: nat, last: nat, from: seq<Byte>, position: nat,
                         buf: seq<Byte>, d': Disk)
    requires first <= last < |h.dataSectors| && |buf| == (last - first + 1) * SECTOR_SIZE
    requires Rewritten(d, h, first, last + 1, buf, d') && NoDup(h.dataSectors)
    requires position + |from| <= h.numBytes
    requires first * SECTOR_SIZE <= position && position + |from| <= (last + 1) * SECTOR_SIZE
    requires Prepared(FileBytes(d, h), from, position, first * SECTOR_SIZE, buf)
    ensures Wrote(d, h, position, from, d')
  {
    hide Block, HeaderOk, NoDup, Patch;
    var after, wanted := FileBytes(d', h), Patch(FileBytes(d, h), position, from);
    forall p | 0 <= p < h.numBytes ensures after[p] == wanted[p] {
      RewrittenByte(d, h, first, last, buf, d', p);
    }
    forall s | 0 <= s < NUM_SECTORS && s !in h.dataSectors ensures d'[s] == d[s] {
      assert forall q :: first <= q < last + 1 ==> h.dataSectors[q] != s;
    }
  }

  /** A sector-sized piece of the file, cut off at its end. */
  function Piece(content: seq<Byte>, at: nat): seq<Byte>
    requires at <= |content|
  {
    content[at..Min(at + SECTOR_SIZE, |content|)]
  }

  /** The two reads put the old bytes wherever the new ones do not go. */
  lemma EndsAreKept(content: seq<Byte>, from: seq<Byte>, position: nat, lo: nat, hi: nat,
                    b0: seq<Byte>, b1: seq<Byte>, b2: seq<Byte>)
    requires |from| > 0 && position + |from| <= |content|
    requires lo <= position < lo + SECTOR_SIZE && hi < position + |from| <= hi + SECTOR_SIZE
    requires lo == hi || lo + SECTOR_SIZE <= hi
    requires |b0| == hi - lo + SECTOR_SIZE
    requires b1 == if position == lo then b0 else Patch(b0, 0, Piece(content, lo))
    requires b2 == if position + |from| != hi + SECTOR_SIZE && (lo != hi || position == lo)
                   then Patch(b1, hi - lo, Piece(content, hi)) else b1
    ensures Prepared(content, from, position, lo, Patch(b2, position - lo, from))
  {
    hide Patch;
  }

  /** Every byte of the file that the buffer, starting at offset `lo`, covers is the new one or
      the old one. */
  ghost predicate Prepared(content: seq<Byte>, from: seq<Byte>, position: nat, lo: nat, buf: seq<Byte>)
    requires position + |from| <= |content|
  {
    forall p :: lo <= p < lo + |buf| && p < |content| ==> buf[p - lo] == Patch(content, position, from)[p]
  }

  /** Reading a range back gives what was written there; everything else reads as before. */
  lemma ReadBackWritten(d: Disk, h: Header, at: nat, part: seq<Byte>, d': Disk, p: nat)
    requires DiskShape(d) && HeaderOk(h) && at + |part| <= h.numBytes && Wrote(d, h, at, part, d')
    requires p < h.numBytes
    ensures FileBytes(d', h)[at..at + |part|] == part
    ensures !(at <= p < at + |part|) ==> FileBytes(d', h)[p] == FileBytes(d, h)[p]
  {
  }
}
