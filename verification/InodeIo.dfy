/** Byte-range input and output on an inode's sectors (src/filesys/inode.c): inode_read_at and
    inode_write_at against a flat array of bytes. */
module InodeIo {

  type Bytes = seq<bv8>

  const SECTOR: nat := 512
  const ZEROS: Bytes := seq(SECTOR, _ => 0)

  /** struct inode, as far as reading and writing go. */
  datatype Inode = Inode(start: nat, length: nat, denyWriteCnt: nat)

  ghost predicate Formatted(disk: seq<Bytes>) {
    forall s | 0 <= s < |disk| :: |disk[s]| == SECTOR
  }

  /** bytes_to_sectors */
  function Sectors(length: nat): nat {
    (length + SECTOR - 1) / SECTOR
  }

  /** The inode's data lies on the device. */
  predicate OnDisk(inode: Inode, disk: seq<Bytes>) {
    inode.start + Sectors(inode.length) <= |disk|
  }

  /** The device as one array of bytes. */
  ghost function Flat(disk: seq<Bytes>): (f: Bytes)
    requires Formatted(disk)
    ensures |f| == SECTOR * |disk|
  {
    seq(SECTOR * |disk|, i requires 0 <= i < SECTOR * |disk| => disk[i / SECTOR][i % SECTOR])
  }

  /** The file's content: length bytes from its first sector on. */
  ghost function Content(disk: seq<Bytes>, inode: Inode): (c: Bytes)
    requires Formatted(disk) && OnDisk(inode, disk)
    ensures |c| == inode.length
  {
    Flat(disk)[SECTOR * inode.start..SECTOR * inode.start + inode.length]
  }

  ghost function Overlay(f: Bytes, at: nat, buf: Bytes): (r: Bytes)
    requires at + |buf| <= |f|
    ensures |r| == |f|
  {
    f[..at] + buf + f[at + |buf|..]
  }

  function Min(a: int, b: int): int {
    if a < b then a else b
  }

  /** How many of size bytes at offset lie inside the file. */
  function Inside(inode: Inode, size: int, offset: nat): (n: nat)
    ensures n == 0 || (n <= size && offset + n <= inode.length)
    ensures n < size ==> offset + n >= inode.length
  {
    if size <= 0 || offset >= inode.length then 0 else Min(size, inode.length - offset)
  }

  /** How many bytes get through: all that lie inside, or, without memory for a bounce
      buffer, whole sectors up to the first partial one. */
  function Moved(inode: Inode, size: int, offset: nat, bounce: bool): (n: nat)
    ensures n <= Inside(inode, size, offset)
    ensures n < Inside(inode, size, offset) ==>
              !bounce && ((offset + n) % SECTOR != 0 || Inside(inode, size, offset) - n < SECTOR)
    ensures !bounce && n > 0 ==> offset % SECTOR == 0 && n % SECTOR == 0
  {
    var n := Inside(inode, size, offset);
    if bounce then n else if offset % SECTOR != 0 then 0 else n - n % SECTOR
  }

  // ---- one sector -----------------------------------------------------------------------------

  lemma DivMod(s: nat, b: nat)
    requires b < SECTOR
    ensures (SECTOR * s + b) / SECTOR == s && (SECTOR * s + b) % SECTOR == b
  {
  }

  /** Where byte pos of the file lies. */
  lemma Position(inode: Inode, pos: nat)
    ensures SECTOR * (inode.start + pos / SECTOR) + pos % SECTOR == SECTOR * inode.start + pos
    ensures pos < inode.length ==> inode.start + pos / SECTOR < inode.start + Sectors(inode.length)
  {
  }

  lemma FlatSlice(disk: seq<Bytes>, s: nat, ofs: nat, n: nat)
    requires Formatted(disk) && s < |disk| && ofs + n <= SECTOR
    ensures SECTOR * s + ofs + n <= |Flat(disk)|
    ensures Flat(disk)[SECTOR * s + ofs..SECTOR * s + ofs + n] == disk[s][ofs..ofs + n]
  {
    var f := Flat(disk)[SECTOR * s + ofs..SECTOR * s + ofs + n];
    forall i | 0 <= i < n ensures f[i] == disk[s][ofs..ofs + n][i] {
      DivMod(s, ofs + i);
    }
  }

  /** Rewriting part of a sector rewrites those bytes of the device and no others. */
  lemma FlatUpdate(disk: seq<Bytes>, s: nat, ofs: nat, chunk: Bytes)
    requires Formatted(disk) && s < |disk| && ofs + |chunk| <= SECTOR
    ensures var disk' := disk[s := Overlay(disk[s], ofs, chunk)];
            Formatted(disk') && SECTOR * s + ofs + |chunk| <= |Flat(disk)|
            && Flat(disk') == Overlay(Flat(disk), SECTOR * s + ofs, chunk)
  {
    var disk' := disk[s := Overlay(disk[s], ofs, chunk)];
    var f, g := Flat(disk'), Overlay(Flat(disk), SECTOR * s + ofs, chunk);
    forall i | 0 <= i < |f| ensures f[i] == g[i] {
      var k, b := i / SECTOR, i % SECTOR;
      assert i == SECTOR * k + b;
      if k == s {
        assert f[i] == Overlay(disk[s], ofs, chunk)[b];
      } else {
        assert f[i] == disk[k][b];
      }
    }
  }

  lemma OverlayTwice(f: Bytes, at: nat, a: Bytes, b: Bytes)
    requires at + |a| + |b| <= |f|
    ensures Overlay(Overlay(f, at, a), at + |a|, b) == Overlay(f, at, a + b)
  {
  }

  // ---- one turn of the loops --------------------------------------------------------------------

  /** The chunk that a turn moves when done bytes have been moved already. */
  function Chunk(inode: Inode, size: int, offset: nat, done: nat): int {
    Min(size - done, Min(inode.length - (offset + done), SECTOR - (offset + done) % SECTOR))
  }

  predicate Whole(inode: Inode, size: int, offset: nat, done: nat) {
    (offset + done) % SECTOR == 0 && Chunk(inode, size, offset, done) == SECTOR
  }

  /** What the loops know after done bytes: all of it inside the file, and whole sectors only
      if there is no bounce buffer. */
  predicate Underway(inode: Inode, size: int, offset: nat, bounce: bool, done: nat) {
    && done <= Inside(inode, size, offset)
    && (!bounce ==> done % SECTOR == 0 && (done > 0 ==> offset % SECTOR == 0))
  }

  lemma Continues(inode: Inode, size: int, offset: nat, bounce: bool, done: nat)
    requires Underway(inode, size, offset, bounce, done) && done < size && Chunk(inode, size, offset, done) > 0
    requires bounce || Whole(inode, size, offset, done)
    ensures Underway(inode, size, offset, bounce, done + Chunk(inode, size, offset, done))
  {
  }

  lemma Stops(inode: Inode, size: int, offset: nat, bounce: bool, done: nat)
    requires Underway(inode, size, offset, bounce, done)
    requires || done >= size || Chunk(inode, size, offset, done) <= 0
             || (!bounce && !Whole(inode, size, offset, done))
    ensures done == Moved(inode, size, offset, bounce)
  {
  }

  // ---- the code -------------------------------------------------------------------------------

  /** The computations at the head of both loops: the sector, the offset in it, and how many
      bytes of it to move. */
  method NextChunk(inode: Inode, size: int, offset: nat, done: nat) returns (sector: nat, sectorOfs: nat, chunk: int)
    ensures chunk == Chunk(inode, size, offset, done)
    ensures chunk > 0 ==>
            sector < inode.start + Sectors(inode.length) && sectorOfs + chunk <= SECTOR && chunk <= size - done
    ensures SECTOR * sector + sectorOfs == SECTOR * inode.start + offset + done
    ensures Whole(inode, size, offset, done) <==> sectorOfs == 0 && chunk == SECTOR
  {
    var ofs := offset + done;
    sector, sectorOfs := inode.start + ofs / SECTOR, ofs % SECTOR;
    var minLeft := Min(inode.length - ofs, SECTOR - sectorOfs);
    chunk := Min(size - done, minLeft);
    Position(inode, ofs);
  }

  class Device {
    var disk: seq<Bytes>

    /** inode_read_at; bounce says whether the bounce buffer can be allocated. */
    method ReadAt(inode: Inode, size: int, offset: nat, bounce: bool) returns (buffer: Bytes)
      requires Formatted(disk) && OnDisk(inode, disk)
      ensures |buffer| == Moved(inode, size, offset, bounce)
      ensures buffer == [] || buffer == Content(disk, inode)[offset..offset + |buffer|]
    {
      hide Flat, Moved, Inside, Underway, Sectors, Chunk, Whole, Content;
      buffer := [];
      ghost var base := SECTOR * inode.start + offset;
      UnderwayStarts(inode, size, offset, bounce);
      while |buffer| < size
        invariant Underway(inode, size, offset, bounce, |buffer|)
        invariant buffer == [] || (base + |buffer| <= |Flat(disk)| && buffer == Flat(disk)[base..base + |buffer|])
        decreases size - |buffer|
      {
        var sector, sectorOfs, chunk := NextChunk(inode, size, offset, |buffer|);
        if chunk <= 0 {
          break;
        }
        FlatSlice(disk, sector, sectorOfs, chunk);
        var piece: Bytes;
        if sectorOfs == 0 && chunk == SECTOR {
          piece := disk[sector];
          assert piece == disk[sector][0..SECTOR];
        } else {
          if !bounce {
            break;
          }
          piece := disk[sector][sectorOfs..sectorOfs + chunk];
        }
        SliceGrows(Flat(disk), base, buffer, piece);
        Continues(inode, size, offset, bounce, |buffer|);
        buffer := buffer + piece;
      }
      Stops(inode, size, offset, bounce, |buffer|);
      if buffer != [] {
        ContentSlice(disk, inode, size, offset, bounce, |buffer|);
      }
    }

    /** inode_write_at; a positive deny_write_cnt refuses the write. */
    method WriteAt(inode: Inode, buffer: Bytes, offset: nat, bounce: bool) returns (written: nat)
      requires Formatted(disk) && OnDisk(inode, disk)
      modifies this
      ensures Formatted(disk) && |disk| == |old(disk)|
      ensures written == if inode.denyWriteCnt > 0 then 0 else Moved(inode, |buffer|, offset, bounce)
      ensures written == 0 ==> disk == old(disk)
      ensures written > 0 ==>
                && written <= |buffer| && offset + written <= inode.length
                && SECTOR * inode.start + offset + written <= |Flat(old(disk))|
                && Flat(disk) == Overlay(Flat(old(disk)), SECTOR * inode.start + offset, buffer[..written])
    {
      hide Flat, Overlay, Moved, Inside, Underway, Sectors, Chunk, Whole;
      written := 0;
      if inode.denyWriteCnt > 0 {
        return;
      }
      var size := |buffer|;
      ghost var base := SECTOR * inode.start + offset;
      UnderwayStarts(inode, size, offset, bounce);
      while written < size
        invariant written <= size && Formatted(disk) && |disk| == |old(disk)|
        invariant Underway(inode, size, offset, bounce, written)
        invariant written == 0 ==> disk == old(disk)
        invariant written > 0 ==>
                    base + written <= |Flat(old(disk))|
                        && Flat(disk) == Overlay(Flat(old(disk)), base, buffer[..written])
        decreases size - written
      {
        var sector, sectorOfs, chunk := NextChunk(inode, size, offset, written);
        if chunk <= 0 {
          break;
        }
        ghost var before := disk;
        var data := buffer[written..written + chunk];
        FlatUpdate(disk, sector, sectorOfs, data);
        if sectorOfs == 0 && chunk == SECTOR {
          WholeSector(disk[sector], data);
          disk := disk[sector := data];
        } else {
          if !bounce {
            break;
          }
          var sectorData := disk[sector];
          if sectorOfs == 0 && chunk >= SECTOR - sectorOfs {
            sectorData := ZEROS;
          }
          PartOfSector(disk[sector], sectorOfs, data);
          disk := disk[sector := sectorData[..sectorOfs] + data + sectorData[sectorOfs + chunk..]];
        }
        OverlayGrows(Flat(old(disk)), Flat(before), Flat(disk), base, buffer, written, chunk);
        Continues(inode, size, offset, bounce, written);
        written := written + chunk;
      }
      Stops(inode, size, offset, bounce, written);
      MovedInside(inode, size, offset, bounce);
    }
  }

  lemma UnderwayStarts(inode: Inode, size: int, offset: nat, bounce: bool)
    ensures Underway(inode, size, offset, bounce, 0)
  {
  }

  lemma SliceGrows(f: Bytes, base: nat, a: Bytes, b: Bytes)
    requires a == [] || (base + |a| <= |f| && a == f[base..base + |a|])
    requires base + |a| + |b| <= |f| && b == f[base + |a|..base + |a| + |b|]
    ensures a + b == f[base..base + |a + b|]
  {
  }

  lemma ContentSlice(disk: seq<Bytes>, inode: Inode, size: int, offset: nat, bounce: bool, n: nat)
    requires Formatted(disk) && OnDisk(inode, disk) && n == Moved(inode, size, offset, bounce) > 0
    ensures offset + n <= inode.length && SECTOR * inode.start + offset + n <= |Flat(disk)|
    ensures Content(disk, inode)[offset..offset + n] ==
            Flat(disk)[SECTOR * inode.start + offset..SECTOR * inode.start + offset + n]
  {
    hide Flat;
    var f, a, c := Flat(disk), SECTOR * inode.start, Content(disk, inode);
    assert SECTOR * Sectors(inode.length) >= inode.length;
    SliceOfSlice(f, a, a + inode.length, offset, offset + n);
  }

  lemma SliceOfSlice(f: Bytes, a: nat, b: nat, c: nat, d: nat)
    requires a <= b <= |f| && c <= d <= b - a
    ensures f[a..b][c..d] == f[a + c..a + d]
  {
    assert forall i | 0 <= i < d - c :: f[a..b][c..d][i] == f[a + c..a + d][i];
  }

  lemma WholeSector(old_: Bytes, data: Bytes)
    requires |old_| == |data|
    ensures Overlay(old_, 0, data) == data
  {
  }

  lemma PartOfSector(sector: Bytes, ofs: nat, data: Bytes)
    requires ofs + |data| <= |sector|
    ensures Overlay(sector, ofs, data) == sector[..ofs] + data + sector[ofs + |data|..]
  {
  }

  lemma OverlayGrows(f: Bytes, g: Bytes, h: Bytes, base: nat, buffer: Bytes, written: nat, chunk: nat)
    requires written + chunk <= |buffer| && base + written + chunk <= |f| == |g|
    requires g == if written == 0 then f else Overlay(f, base, buffer[..written])
    requires h == Overlay(g, base + written, buffer[written..written + chunk])
    ensures h == Overlay(f, base, buffer[..written + chunk])
  {
    var a, b := buffer[..written], buffer[written..written + chunk];
    assert a + b == buffer[..written + chunk];
    if written == 0 {
      assert b == buffer[..written + chunk];
    } else {
      OverlayTwice(f, base, a, b);
    }
  }

  lemma MovedInside(inode: Inode, size: int, offset: nat, bounce: bool)
    ensures var n := Moved(inode, size, offset, bounce); n > 0 ==> n <= size && offset + n <= inode.length
  {
  }

  // ---- what a caller sees -------------------------------------------------------------------------

  /** A write changes exactly the bytes it covers: in its own file ... */
  lemma WriteIsOverlay(disk: seq<Bytes>, disk': seq<Bytes>, inode: Inode, buffer: Bytes, offset: nat)
    requires Formatted(disk) && Formatted(disk') && |disk'| == |disk| && OnDisk(inode, disk)
             && offset + |buffer| <= inode.length
    requires SECTOR * inode.start + offset + |buffer| <= |Flat(disk)|
    requires Flat(disk') == Overlay(Flat(disk), SECTOR * inode.start + offset, buffer)
    ensures Content(disk', inode) == Overlay(Content(disk, inode), offset, buffer)
  {
    hide Flat, Overlay;
    assert SECTOR * Sectors(inode.length) >= inode.length;
    OverlaySlice(Flat(disk), SECTOR * inode.start, inode.length, offset, buffer);
  }

  lemma OverlaySlice(f: Bytes, a: nat, n: nat, offset: nat, buffer: Bytes)
    requires a + n <= |f| && offset + |buffer| <= n
    ensures Overlay(f, a + offset, buffer)[a..a + n] == Overlay(f[a..a + n], offset, buffer)
  {
    var l, r := Overlay(f, a + offset, buffer)[a..a + n], Overlay(f[a..a + n], offset, buffer);
    assert forall i | 0 <= i < n :: l[i] == r[i];
  }

  /** ... and nothing in a file whose sectors are others. */
  lemma WriteLeavesOthers(disk: seq<Bytes>, disk': seq<Bytes>, inode: Inode, other: Inode, buffer: Bytes, offset: nat)
    requires Formatted(disk) && Formatted(disk') && |disk'| == |disk| && OnDisk(inode, disk) && OnDisk(other, disk)
    requires offset + |buffer| <= inode.length && SECTOR * inode.start + offset + |buffer| <= |Flat(disk)|
    requires Flat(disk') == Overlay(Flat(disk), SECTOR * inode.start + offset, buffer)
    requires inode.start + Sectors(inode.length) <= other.start || other.start + Sectors(other.length) <= inode.start
    ensures Content(disk', other) == Content(disk, other)
  {
    hide Flat;
    assert SECTOR * Sectors(inode.length) >= inode.length && SECTOR * Sectors(other.length) >= other.length;
  }
}
