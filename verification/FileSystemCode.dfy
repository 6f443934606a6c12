/** The file system's operations on mutable tables, with the free map as a bitmap, proved
    against the ownership model. */
module FileSystemCode {
  import opened Bitmap
  import opened FileSystem

  lemma LookupIs(dir: seq<Slot>, name: string, i: nat)
    requires i <= |dir| && (i < |dir| ==> dir[i].Used? && dir[i].name == name)
    requires forall j | 0 <= j < i :: !(dir[j].Used? && dir[j].name == name)
    ensures Lookup(dir, name) == i
  {
  }

  lemma FreeSlotIs(dir: seq<Slot>, i: nat)
    requires i <= |dir| && (i < |dir| ==> dir[i].Empty?) && forall j | 0 <= j < i :: dir[j].Used?
    ensures FreeSlot(dir) == i
  {
  }

  lemma FindOpenIs(open: seq<MemInode>, sector: nat, i: nat)
    requires i <= |open| && (i < |open| ==> open[i].sector == sector) && forall j | 0 <= j < i ::
             open[j].sector != sector
    ensures FindOpen(open, sector) == i
  {
  }

  class FileSys {
    const freeMap: Bitmap
    var disk: map<nat, DiskInode>
    var dir: seq<Slot>
    var open: seq<MemInode>
    var files: map<nat, File>
    var nextId: nat
    ghost var reserved: set<nat>
    ghost var leaked: set<nat>
    ghost var owner: map<nat, nat>

    ghost predicate Valid()
      reads this, freeMap
    {
      freeMap.Valid()
    }

    ghost function S(): Fs
      requires Valid()
      reads this, freeMap, freeMap.words
    {
      Fs(freeMap.Bits(), disk, dir, open, files, nextId, reserved, leaked, owner)
    }

    /** A new file system whose free map and root directory use the given sectors, their inodes
        in sectors 0 and 1. */
    constructor (sectorCnt: nat, slots: nat, system: seq<nat>)
      requires FREE_MAP_SECTOR in system && ROOT_DIR_SECTOR in system && forall x | x in system :: x < sectorCnt
      ensures Valid() && Formatted(S())
    {
      freeMap := new Bitmap(sectorCnt);
      disk, dir, open, files, nextId := map[], seq(slots, _ => Empty), [], map[], 0;
      reserved, leaked, owner := set x | x in system, {}, map[];
      new;
      hide BitsOf;
      var i := 0;
      while i < |system|
        invariant 0 <= i <= |system| && freeMap.Valid() && freeMap.bitCnt == sectorCnt
        invariant forall x: nat | x < sectorCnt :: freeMap.Bits()[x] <==> x in system[..i]
        modifies freeMap.words
      {
        assert system[i] in system && system[..i + 1] == system[..i] + [system[i]];
        freeMap.Set(system[i], true);
        i := i + 1;
      }
      assert system[..i] == system;
    }

    /** lookup */
    method FindName(name: string) returns (i: nat)
      ensures i == Lookup(dir, name)
    {
      hide Lookup;
      i := 0;
      while i < |dir|
        invariant 0 <= i <= |dir| && forall j | 0 <= j < i :: !(dir[j].Used? && dir[j].name == name)
      {
        if dir[i].Used? && dir[i].name == name {
          break;
        }
        i := i + 1;
      }
      LookupIs(dir, name, i);
    }

    /** The search for a slot in dir_add. */
    method FindFreeSlot() returns (i: nat)
      ensures i == FreeSlot(dir)
    {
      hide FreeSlot;
      i := 0;
      while i < |dir| && dir[i].Used?
        invariant 0 <= i <= |dir| && forall j | 0 <= j < i :: dir[j].Used?
      {
        i := i + 1;
      }
      FreeSlotIs(dir, i);
    }

    /** dir_add */
    method AddName(name: string, sector: nat) returns (ok: bool)
      modifies this`dir
      ensures ok == CanAdd(old(dir), name)
      ensures dir == if ok then old(dir)[FreeSlot(old(dir)) := Used(name, sector)] else old(dir)
    {
      hide Lookup, FreeSlot;
      if |name| == 0 || |name| > NAME_MAX {
        return false;
      }
      var i := FindName(name);
      if i < |dir| {
        return false;
      }
      var slot := FindFreeSlot();
      if slot == |dir| {
        return false;
      }
      dir := dir[slot := Used(name, sector)];
      ok := true;
    }

    /** filesys_create, with inode_create */
    method CreateFile(name: string, sectors: nat) returns (r: Created)
      requires Valid()
      modifies this, freeMap.words
      ensures Valid() && (S(), r) == Create(old(S()), name, sectors)
    {
      hide Scan, SetRange, Give, Footprint, Extent, CanAdd, BitsOf, FreeSlot;
      ghost var fs := S();
      var inodeSector := freeMap.ScanAndFlip(0, 1, false);
      if inodeSector.Error? {
        return NoInodeSector;
      }
      var s := inodeSector.idx;
      var start := freeMap.ScanAndFlip(0, sectors, false);
      if start.Error? {
        if s != 0 { freeMap.SetMultiple(s, 1, false); }
        return NoDataSectors;
      }
      disk := disk[s := DiskInode(start.idx, sectors)];
      var added := AddName(name, s);
      if added {
        owner := Give(owner, Footprint(s, DiskInode(start.idx, sectors)), s);
        r := Done;
      } else {
        if s != 0 { freeMap.SetMultiple(s, 1, false); }
        leaked := leaked + Extent(start.idx, sectors);
        r := NotAdded;
      }
    }

    /** inode_open; place is where the inode stands in the open list. */
    method OpenInode(sector: nat) returns (id: nat, place: nat)
      requires Valid() && sector in disk
      modifies this
      ensures Valid() && (S(), id) == Opened(old(S()), sector)
      ensures place == if FindOpen(old(open), sector) < |old(open)| then FindOpen(old(open), sector) else 0
    {
      hide FindOpen, BitsOf;
      var i := 0;
      while i < |open|
        invariant 0 <= i <= |open| && open == old(open) && S() == old(S()) && forall j | 0 <= j < i ::
                  open[j].sector != sector
      {
        if open[i].sector == sector {
          break;
        }
        i := i + 1;
      }
      FindOpenIs(open, sector, i);
      if i < |open| {
        id, place := open[i].id, i;
        open := open[i := open[i].(openCnt := open[i].openCnt + 1)];
      } else {
        id, place := nextId, 0;
        open := [MemInode(nextId, sector, 1, false, 0, disk[sector])] + open;
        nextId := nextId + 1;
      }
    }

    /** filesys_open */
    method OpenFile(name: string, f: nat) returns (ok: bool)
      requires Valid() && Inv(S())
      modifies this
      ensures Valid() && (S(), ok) == Open(old(S()), name, f)
    {
      hide Inv, Lookup, Opened, BitsOf;
      var i := FindName(name);
      ok := i < |dir|;
      if ok {
        NamedOnDisk(S(), i);
        var id, _ := OpenInode(dir[i].sector);
        files := files[f := File(id, false)];
      }
    }

    /** inode_close of the inode at position i of the open list; the assertions of
        free_map_release are the requirements for a removed inode. */
    method CloseInode(i: nat)
      requires Valid() && i < |open|
      requires open[i].removed && open[i].openCnt == 1 ==>
                 AllAre(freeMap.Bits(), open[i].sector, 1, true)
                 && AllAre(SetRange(freeMap.Bits(), open[i].sector, 1, false), open[i].data.start,
                    open[i].data.sectors, true)
      modifies this, freeMap.words
      ensures Valid() && S() == ClosedInode(old(S()), i)
    {
      hide SetRange, BitsOf, DropAt;
      var m := open[i];
      open := open[i := m.(openCnt := m.openCnt - 1)];
      if m.openCnt - 1 == 0 {
        open := DropAt(open, i);
        DropChanged(old(open), i, m.(openCnt := m.openCnt - 1));
        if m.removed {
          FreeMapRelease(m.sector, 1);
          FreeMapRelease(m.data.start, m.data.sectors);
          owner := map x | x in owner && owner[x] != m.sector :: owner[x];
        }
      }
    }

    /** free_map_release */
    method FreeMapRelease(sector: nat, cnt: nat)
      requires Valid() && AllAre(freeMap.Bits(), sector, cnt, true)
      modifies freeMap.words
      ensures freeMap.Bits() == SetRange(old(freeMap.Bits()), sector, cnt, false)
    {
      freeMap.SetMultiple(sector, cnt, false);
    }

    /** file_close, with file_allow_write */
    method CloseFile(f: nat)
      requires Valid() && Inv(S()) && f in files
      modifies this, freeMap.words
      ensures Valid() && HasId(old(open), old(files)[f].inode) && S() == Close(old(S()), f)
    {
      hide Inv, HasId, PlaceOf, BitsOf, AllAre, SetRange, ClosedInode;
      ghost var fs := S();
      FileHasInode(fs, f);
      PlaceFound(open, files[f].inode);
      AllowKeepsPlace(fs, f);
      var i := PlaceOf(open, files[f].inode);
      if files[f].denyWrite {
        open := open[i := open[i].(denyCnt := open[i].denyCnt - 1)];
        files := files[f := files[f].(denyWrite := false)];
      }
      assert S() == Allow(fs, f);
      ghost var fs1 := S();
      if open[i].openCnt == 1 {
        EndKeeps(fs1, i, f);
      }
      files := files - {f};
      CloseInode(i);
    }

    /** filesys_remove, with dir_remove and inode_remove */
    method RemoveFile(name: string) returns (ok: bool)
      requires Valid() && Inv(S())
      modifies this, freeMap.words
      ensures Valid() && (S(), ok) == Remove(old(S()), name)
    {
      hide Inv, Lookup, FindOpen, BitsOf, AllAre, SetRange, ClosedInode;
      ghost var fs := S();
      var i := FindName(name);
      ok := i < |dir|;
      if ok {
        NamedOnDisk(fs, i);
        ghost var j := FindOpen(open, dir[i].sector);
        if j == |open| {
          RemovedHolds(fs, name);
        } else {
          StillCounted(fs, j);
        }
        var _, k := OpenInode(dir[i].sector);
        dir := dir[i := Empty];
        open := open[k := open[k].(removed := true)];
        CloseInode(k);
      }
    }
  }

  lemma StillCounted(fs: Fs, j: nat)
    requires Inv(fs) && j < |fs.open|
    ensures fs.open[j].openCnt >= 1
  {
    hide DirOk, OpenOk, RemovedOk, OwnsOk, OwnedOk, MarkedOk, FitsOk, LiveSet, IdsOk, Users, Deniers;
    assert CountOk(fs.open[j], fs.files);
  }

  lemma RemovedHolds(fs: Fs, name: string)
    requires Inv(fs) && Lookup(fs.dir, name) < |fs.dir|
    requires FindOpen(fs.open, fs.dir[Lookup(fs.dir, name)].sector) == |fs.open|
    ensures var s := fs.dir[Lookup(fs.dir, name)].sector;
            s in fs.disk && AllAre(fs.freeMap, s, 1, true)
            && AllAre(SetRange(fs.freeMap, s, 1, false), fs.disk[s].start, fs.disk[s].sectors, true)
  {
    hide DirOk, OpenOk, CountsOk, RemovedOk, OwnsOk, OwnedOk, MarkedOk, NamedSet, OpenSet, FindOpen, Lookup, SetRange;
    var i := Lookup(fs.dir, name);
    NamedOnDisk(fs, i);
    var s := fs.dir[i].sector;
    ReleaseMarks(LiveSet(fs), fs.disk, fs.owner, fs.freeMap, fs.reserved + fs.leaked, s);
    OwnsApart(LiveSet(fs), fs.disk, fs.owner, fs.freeMap, s);
  }

  lemma DropChanged(open: seq<MemInode>, i: nat, m: MemInode)
    requires i < |open|
    ensures DropAt(open[i := m], i) == DropAt(open, i)
  {
  }
}
