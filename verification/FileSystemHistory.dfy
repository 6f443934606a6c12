/** What names and open files mean over a run: which sector a name leads to, and which inode an
    open file reads. */
module FileSystemHistory {
  import opened Basics
  import opened Bitmap
  import opened FileSystem

  // ---- names and files ---------------------------------------------------------------------------------

  /** The directory has the name, for the inode in sector s. */
  ghost predicate Named(dir: seq<Slot>, name: string, s: nat) {
    exists i | 0 <= i < |dir| :: dir[i] == Used(name, s)
  }

  /** The struct inode at an address is the one of sector s, with the given data. */
  ghost predicate Holds(open: seq<MemInode>, id: nat, s: nat, d: DiskInode) {
    exists i | 0 <= i < |open| :: open[i].id == id && open[i].sector == s && open[i].data == d
  }

  /** Open file f reads the inode of sector s. */
  ghost predicate On(fs: Fs, f: nat, s: nat, d: DiskInode) {
    f in fs.files && Holds(fs.open, fs.files[f].inode, s, d)
  }

  /** The first sector that the free map does not mark. */
  predicate FirstFree(freeMap: seq<bool>, s: nat) {
    s < |freeMap| && !freeMap[s] && forall x | 0 <= x < s :: freeMap[x]
  }

  lemma NamedAt(dir: seq<Slot>, name: string, s: nat)
    requires DirOk(dir) && Named(dir, name, s)
    ensures var i := Lookup(dir, name); i < |dir| && dir[i] == Used(name, s)
  {
    hide Lookup;
    var j :| 0 <= j < |dir| && dir[j] == Used(name, s);
    assert Lookup(dir, name) <= j;
  }

  lemma Unknown(dir: seq<Slot>, name: string, s: nat)
    requires Lookup(dir, name) == |dir|
    ensures !Named(dir, name, s)
  {
    hide Lookup;
  }

  lemma HoldsOne(open: seq<MemInode>, disk: map<nat, DiskInode>, nextId: nat, i: nat, s: nat, d: DiskInode)
    requires OpenOk(open, disk, nextId) && i < |open|
    ensures Holds(open, open[i].id, s, d) <==> s == open[i].sector && d == open[i].data
  {
  }

  /** A change of counts and marks. */
  lemma HoldsStill(open: seq<MemInode>, i: nat, m: MemInode, id: nat, s: nat, d: DiskInode)
    requires i < |open| && m.id == open[i].id && m.sector == open[i].sector && m.data == open[i].data
    ensures Holds(open[i := m], id, s, d) <==> Holds(open, id, s, d)
  {
    var open' := open[i := m];
    if Holds(open, id, s, d) {
      var j :| 0 <= j < |open| && open[j].id == id && open[j].sector == s && open[j].data == d;
      assert open'[j].id == id && open'[j].sector == s && open'[j].data == d;
    }
    if Holds(open', id, s, d) {
      var j :| 0 <= j < |open'| && open'[j].id == id && open'[j].sector == s && open'[j].data == d;
      assert open[j].id == id && open[j].sector == s && open[j].data == d;
    }
  }

  lemma HoldsMore(open: seq<MemInode>, m: MemInode, id: nat, s: nat, d: DiskInode)
    ensures Holds([m] + open, id, s, d) <==> (id == m.id && s == m.sector && d == m.data) || Holds(open, id, s, d)
  {
    var open' := [m] + open;
    assert open'[0] == m;
    if Holds(open, id, s, d) {
      var j :| 0 <= j < |open| && open[j].id == id && open[j].sector == s && open[j].data == d;
      assert open'[j + 1] == open[j];
    }
    if Holds(open', id, s, d) {
      var j :| 0 <= j < |open'| && open'[j].id == id && open'[j].sector == s && open'[j].data == d;
      assert j > 0 ==> open[j - 1] == open'[j];
    }
  }

  lemma HoldsLess(open: seq<MemInode>, i: nat, id: nat, s: nat, d: DiskInode)
    requires i < |open| && id != open[i].id
    ensures Holds(DropAt(open, i), id, s, d) <==> Holds(open, id, s, d)
  {
    hide DropAt;
    DropIndex(open, i);
    var open' := DropAt(open, i);
    if Holds(open, id, s, d) {
      var j :| 0 <= j < |open| && open[j].id == id && open[j].sector == s && open[j].data == d;
      assert if j < i then open'[j] == open[j] else open'[j - 1] == open[j];
    }
    if Holds(open', id, s, d) {
      var j :| 0 <= j < |open'| && open'[j].id == id && open'[j].sector == s && open'[j].data == d;
      assert open'[j] == if j < i then open[j] else open[j + 1];
    }
  }

  // ---- opening --------------------------------------------------------------------------------------------

  /** inode_open gives an inode of the sector, and leaves the inodes of others alone. */
  lemma OpenedHolds(fs: Fs, sector: nat, id: nat, s: nat, d: DiskInode)
    requires OpenOk(fs.open, fs.disk, fs.nextId) && sector in fs.disk
    ensures var (fs1, got) := Opened(fs, sector);
            Holds(fs1.open, id, s, d) <==>
            (id == got && s == sector && d == fs.disk[sector]) || Holds(fs.open, id, s, d)
  {
    hide FindOpen, Holds, OpenOk;
    var i := FindOpen(fs.open, sector);
    if i < |fs.open| {
      var m := fs.open[i].(openCnt := fs.open[i].openCnt + 1);
      HoldsStill(fs.open, i, m, id, s, d);
      HoldsOne(fs.open, fs.disk, fs.nextId, i, s, d);
      OpenData(fs.open, fs.disk, fs.nextId, i);
    } else {
      HoldsMore(fs.open, MemInode(fs.nextId, sector, 1, false, 0, fs.disk[sector]), id, s, d);
    }
  }

  lemma OpenData(open: seq<MemInode>, disk: map<nat, DiskInode>, nextId: nat, i: nat)
    requires OpenOk(open, disk, nextId) && i < |open|
    ensures open[i].sector in disk && disk[open[i].sector] == open[i].data && open[i].id < nextId
  {
  }

  /** No struct inode has an address that is yet to be given out. */
  lemma NotHeld(fs: Fs, s: nat, d: DiskInode)
    requires OpenOk(fs.open, fs.disk, fs.nextId)
    ensures !Holds(fs.open, fs.nextId, s, d)
  {
  }

  lemma InvParts(fs: Fs)
    requires Inv(fs)
    ensures DirOk(fs.dir) && OpenOk(fs.open, fs.disk, fs.nextId)
  {
  }

  /** filesys_open succeeds if and only if the directory has the name; the file then reads the
      inode that the name leads to, with its data on the disk, and no other file changes. */
  lemma OpenLaw(fs: Fs, name: string, f: nat)
    requires Inv(fs) && f !in fs.files
    ensures Open(fs, name, f).1 <==> exists s :: Named(fs.dir, name, s)
    ensures var fs' := Open(fs, name, f).0;
            && fs'.dir == fs.dir && fs'.disk == fs.disk && fs'.freeMap == fs.freeMap
            && (f in fs'.files ==> !fs'.files[f].denyWrite)
            && (forall g | g != f ::
               (g in fs'.files <==> g in fs.files) && (g in fs.files ==> fs'.files[g] == fs.files[g]))
            && (forall s: nat, d :: On(fs', f, s, d) <==> Named(fs.dir, name, s) && s in fs.disk && fs.disk[s] == d)
            && (forall g, s: nat, d | g != f :: On(fs', g, s, d) <==> On(fs, g, s, d))
  {
    hide Inv, Lookup, Named, Holds, Opened;
    InvParts(fs);
    var i := Lookup(fs.dir, name);
    var fs' := Open(fs, name, f).0;
    if i == |fs.dir| {
      forall s: nat ensures !Named(fs.dir, name, s) { Unknown(fs.dir, name, s); }
    } else {
      var sector := fs.dir[i].sector;
      NamedOnDisk(fs, i);
      NamedHere(fs.dir, i);
      OpenedRest(fs, sector);
      forall s: nat | Named(fs.dir, name, s) ensures s == sector { NamedAt(fs.dir, name, s); }
      forall s: nat, d ensures On(fs', f, s, d) <==> s == sector && fs.disk[s] == d {
        OpenedHolds(fs, sector, fs'.files[f].inode, s, d);
        OpenedOne(fs, sector, s, d);
      }
      forall g, s: nat, d | g != f ensures On(fs', g, s, d) <==> On(fs, g, s, d) {
        if g in fs.files {
          OpenedHolds(fs, sector, fs.files[g].inode, s, d);
          OtherFile(fs, sector, g, s, d);
        }
      }
    }
  }

  lemma NamedHere(dir: seq<Slot>, i: nat)
    requires i < |dir| && dir[i].Used?
    ensures Named(dir, dir[i].name, dir[i].sector)
  {
  }

  lemma OpenedRest(fs: Fs, sector: nat)
    requires sector in fs.disk
    ensures var fs1 := Opened(fs, sector).0;
            fs1 == fs.(open := fs1.open, nextId := fs1.nextId)
  {
  }

  /** The inode that inode_open returns is of no other sector. */
  lemma OpenedOne(fs: Fs, sector: nat, s: nat, d: DiskInode)
    requires OpenOk(fs.open, fs.disk, fs.nextId) && sector in fs.disk
    ensures Holds(fs.open, Opened(fs, sector).1, s, d) ==> s == sector && d == fs.disk[sector]
  {
    hide FindOpen;
    var i := FindOpen(fs.open, sector);
    if i < |fs.open| {
      HoldsOne(fs.open, fs.disk, fs.nextId, i, s, d);
    } else {
      NotHeld(fs, s, d);
    }
  }

  /** A file that is open already and gets the same inode as the new one reads that sector. */
  lemma OtherFile(fs: Fs, sector: nat, g: nat, s: nat, d: DiskInode)
    requires Inv(fs) && sector in fs.disk && g in fs.files
    ensures fs.files[g].inode == Opened(fs, sector).1 && s == sector && d == fs.disk[sector] ==>
              Holds(fs.open, fs.files[g].inode, s, d)
  {
    hide FindOpen, DirOk, CountsOk, RemovedOk, OwnsOk, OwnedOk, MarkedOk, FitsOk, HasId;
    FileHasInode(fs, g);
    IdIsOld(fs.open, fs.disk, fs.nextId, fs.files[g].inode);
    var i := FindOpen(fs.open, sector);
    if i < |fs.open| {
      HoldsOne(fs.open, fs.disk, fs.nextId, i, s, d);
    }
  }

  // ---- the other operations ------------------------------------------------------------------------------

  /** filesys_create of a file, when it succeeds: the name was not there and leads to the first
      free sector, an inode for as many sectors as were asked for; these and the inode's sector
      were free and are marked now, and nothing else changes. */
  lemma CreateLaw(fs: Fs, name: string, sectors: nat)
    requires Inv(fs)
    ensures var (fs', r) := Create(fs, name, sectors);
            && fs'.open == fs.open && fs'.files == fs.files && |fs'.freeMap| == |fs.freeMap|
            && (r != Done ==> fs'.dir == fs.dir)
            && (r == Done ==> exists s: nat ::
                  && FirstFree(fs.freeMap, s) && s in fs'.disk && fs'.disk[s].sectors == sectors
                  && (forall t | t != s ::
                     (t in fs'.disk <==> t in fs.disk) && (t in fs.disk ==> fs'.disk[t] == fs.disk[t]))
                  && (forall x: nat | InFootprint(s, fs'.disk[s], x) :: x < |fs.freeMap| && !fs.freeMap[x])
                  && (forall x: nat | x < |fs.freeMap| ::
                        fs'.freeMap[x] <==> fs.freeMap[x] || InFootprint(s, fs'.disk[s], x))
                  && (forall n, t: nat :: Named(fs'.dir, n, t) <==> if n == name then t == s else Named(fs.dir, n, t))
                  && !(exists t :: Named(fs.dir, name, t)))
  {
    hide Inv, Lookup, FreeSlot, Named, Scan, SetRange, Footprint, Extent, Give, FirstGroup;
    var (fs', r) := Create(fs, name, sectors);
    if r == Done {
      var s := Scan(fs.freeMap, 0, 1, false).idx;
      var start := Scan(SetRange(fs.freeMap, s, 1, true), 0, sectors, false).idx;
      ScansFind(fs.freeMap, sectors, s, start);
      ScanIsFirst(fs.freeMap, s);
      BothRanges(fs.freeMap, s, start, sectors);
      forall n, t: nat ensures Named(fs'.dir, n, t) <==> if n == name then t == s else Named(fs.dir, n, t) {
        Unknown(fs.dir, name, t);
        AddedName(fs.dir, FreeSlot(fs.dir), name, s, n, t);
      }
      forall t: nat ensures !Named(fs.dir, name, t) { Unknown(fs.dir, name, t); }
      assert FirstFree(fs.freeMap, s);
    }
  }

  lemma ScanIsFirst(freeMap: seq<bool>, s: nat)
    requires Scan(freeMap, 0, 1, false) == Found.At(s)
    ensures FirstFree(freeMap, s)
  {
    assert AllAre(freeMap, s, 1, false);
    forall x: nat | x < s ensures freeMap[x] {
      assert !AllAre(freeMap, x, 1, false);
    }
  }

  lemma AddedName(dir: seq<Slot>, i: nat, name: string, s: nat, n: string, t: nat)
    requires i < |dir| && dir[i].Empty?
    ensures Named(dir[i := Used(name, s)], n, t) <==> (n == name && t == s) || Named(dir, n, t)
  {
    var dir' := dir[i := Used(name, s)];
    assert dir'[i] == Used(name, s);
    if Named(dir, n, t) {
      var j :| 0 <= j < |dir| && dir[j] == Used(n, t);
      assert dir'[j] == Used(n, t);
    }
    if Named(dir', n, t) {
      var j :| 0 <= j < |dir'| && dir'[j] == Used(n, t);
      assert j != i ==> dir[j] == Used(n, t);
    }
  }

  lemma ErasedName(dir: seq<Slot>, i: nat, n: string, t: nat)
    requires DirOk(dir) && i < |dir| && dir[i].Used?
    ensures Named(dir[i := Empty], n, t) <==> n != dir[i].name && Named(dir, n, t)
  {
    var dir' := dir[i := Empty];
    if Named(dir, n, t) && n != dir[i].name {
      var j :| 0 <= j < |dir| && dir[j] == Used(n, t);
      assert dir'[j] == Used(n, t);
    }
    if Named(dir', n, t) {
      var j :| 0 <= j < |dir'| && dir'[j] == Used(n, t);
      assert dir[j] == Used(n, t) && j != i;
    }
  }

  /** The one slot that filesys_remove empties. */
  lemma RemoveChanges(fs: Fs, name: string)
    requires Inv(fs) && Lookup(fs.dir, name) < |fs.dir|
    ensures var fs' := Remove(fs, name).0;
            fs'.dir == fs.dir[Lookup(fs.dir, name) := Empty] && fs'.disk == fs.disk && fs'.files == fs.files
  {
    hide Inv, Lookup, FindOpen, Released, SetRange, Unnamed;
    var i := Lookup(fs.dir, name);
    if FindOpen(fs.open, fs.dir[i].sector) < |fs.open| {
      RemoveOpen(fs, name);
    } else {
      RemoveClosed(fs, name);
      ReleasedRest(fs.(dir := fs.dir[i := Empty], nextId := fs.nextId + 1),
                   MemInode(fs.nextId, fs.dir[i].sector, 1, true, 0, fs.disk[fs.dir[i].sector]));
    }
  }

  lemma RemoveFiles(fs: Fs, name: string, g: nat, s: nat, d: DiskInode)
    requires Inv(fs) && Lookup(fs.dir, name) < |fs.dir|
    ensures On(Remove(fs, name).0, g, s, d) <==> On(fs, g, s, d)
  {
    hide Inv, Lookup, Holds, FindOpen, Released, SetRange, Unnamed;
    var i := Lookup(fs.dir, name);
    var j := FindOpen(fs.open, fs.dir[i].sector);
    if j < |fs.open| {
      RemoveOpen(fs, name);
      if g in fs.files {
        HoldsStill(fs.open, j, fs.open[j].(removed := true), fs.files[g].inode, s, d);
      }
    } else {
      RemoveClosed(fs, name);
      ReleasedRest(fs.(dir := fs.dir[i := Empty], nextId := fs.nextId + 1),
                   MemInode(fs.nextId, fs.dir[i].sector, 1, true, 0, fs.disk[fs.dir[i].sector]));
    }
  }

  /** filesys_remove succeeds if and only if the directory has the name, and takes this name
      away; open files go on reading their inodes. */
  lemma RemoveLaw(fs: Fs, name: string)
    requires Inv(fs)
    ensures Remove(fs, name).1 <==> exists s :: Named(fs.dir, name, s)
    ensures var fs' := Remove(fs, name).0;
            && fs'.disk == fs.disk
            && (forall n, t: nat :: Named(fs'.dir, n, t) <==> n != name && Named(fs.dir, n, t))
            && fs'.files == fs.files && (forall g, s: nat, d :: On(fs', g, s, d) <==> On(fs, g, s, d))
  {
    hide Inv, Lookup, Named, On, Unnamed;
    InvParts(fs);
    var i := Lookup(fs.dir, name);
    if i == |fs.dir| {
      forall s: nat ensures !Named(fs.dir, name, s) { Unknown(fs.dir, name, s); }
    } else {
      NamedHere(fs.dir, i);
      RemoveChanges(fs, name);
      forall n, t: nat ensures Named(Remove(fs, name).0.dir, n, t) <==> n != name && Named(fs.dir, n, t) {
        ErasedName(fs.dir, i, n, t);
      }
      forall g, s: nat, d ensures On(Remove(fs, name).0, g, s, d) <==> On(fs, g, s, d) {
        RemoveFiles(fs, name, g, s, d);
      }
    }
  }

  lemma ReleasedRest(fs: Fs, m: MemInode)
    ensures var fs' := Released(fs, m); fs' == fs.(freeMap := fs'.freeMap, owner := fs'.owner)
  {
  }

  /** file_reopen: the new file reads what the old one reads. */
  lemma ReopenLaw(fs: Fs, f: nat, g: nat)
    requires Inv(fs) && f in fs.files && g !in fs.files && HasId(fs.open, fs.files[f].inode)
    ensures var fs' := Reopen(fs, f, g);
            && fs'.dir == fs.dir && fs'.disk == fs.disk && fs'.freeMap == fs.freeMap
            && g in fs'.files && !fs'.files[g].denyWrite
            && (forall h | h != g ::
               (h in fs'.files <==> h in fs.files) && (h in fs.files ==> fs'.files[h] == fs.files[h]))
            && (forall h, s: nat, d :: On(fs', h, s, d) <==> On(fs, if h == g then f else h, s, d))
  {
    hide Inv, Holds, HasId, PlaceOf;
    var fs' := Reopen(fs, f, g);
    PlaceFound(fs.open, fs.files[f].inode);
    var i := PlaceOf(fs.open, fs.files[f].inode);
    forall h, s: nat, d ensures On(fs', h, s, d) <==> On(fs, if h == g then f else h, s, d) {
      if h in fs'.files {
        HoldsStill(fs.open, i, fs.open[i].(openCnt := fs.open[i].openCnt + 1), fs'.files[h].inode, s, d);
      }
    }
  }

  /** file_deny_write and file_allow_write set the file's flag and nothing else of it. */
  lemma DenyLaw(fs: Fs, f: nat, deny: bool)
    requires Inv(fs) && f in fs.files && HasId(fs.open, fs.files[f].inode)
    ensures var fs' := if deny then Deny(fs, f) else Allow(fs, f);
            && fs'.dir == fs.dir && fs'.disk == fs.disk && fs'.freeMap == fs.freeMap
            && fs'.files == fs.files[f := fs.files[f].(denyWrite := deny)]
            && (forall h, s: nat, d :: On(fs', h, s, d) <==> On(fs, h, s, d))
  {
    hide Inv, Holds, HasId, PlaceOf;
    var fs' := if deny then Deny(fs, f) else Allow(fs, f);
    PlaceFound(fs.open, fs.files[f].inode);
    var i := PlaceOf(fs.open, fs.files[f].inode);
    var m := fs.open[i].(denyCnt := fs.open[i].denyCnt + if deny then 1 else -1);
    assert fs.files[f].denyWrite == deny ==> fs.files[f := fs.files[f].(denyWrite := deny)] == fs.files;
    forall h, s: nat, d ensures On(fs', h, s, d) <==> On(fs, h, s, d) {
      if h in fs.files {
        HoldsStill(fs.open, i, m, fs.files[h].inode, s, d);
      }
    }
  }

  /** file_close: the file is gone, and the others read what they did. */
  lemma CloseLaw(fs: Fs, f: nat)
    requires Inv(fs) && f in fs.files && HasId(fs.open, fs.files[f].inode)
    ensures var fs' := Close(fs, f);
            && fs'.dir == fs.dir && fs'.disk == fs.disk && fs'.files == fs.files - {f}
            && (forall h, s: nat, d :: On(fs', h, s, d) <==> h != f && On(fs, h, s, d))
  {
    hide Inv, Holds, HasId, PlaceOf, Allow, Released, DropAt;
    AllowKeepsPlace(fs, f);
    DenyLaw(fs, f, false);
    PlaceFound(fs.open, fs.files[f].inode);
    var fs', fs1, i := Close(fs, f), Allow(fs, f), PlaceOf(fs.open, fs.files[f].inode);
    ReleasedRest(fs1.(files := fs1.files - {f}, open := DropAt(fs1.open, i)), fs1.open[i]);
    assert fs'.files == fs.files - {f};
    forall h, s: nat, d ensures On(fs', h, s, d) <==> h != f && On(fs, h, s, d) {
      if h != f && h in fs.files {
        assert On(fs1, h, s, d) <==> On(fs, h, s, d);
        if fs1.open[i].openCnt == 1 {
          LastUser(fs1, i, f, h);
          HoldsLess(fs1.open, i, fs.files[h].inode, s, d);
        } else {
          HoldsStill(fs1.open, i, fs1.open[i].(openCnt := fs1.open[i].openCnt - 1), fs.files[h].inode, s, d);
        }
      }
    }
  }

  lemma LastUser(fs: Fs, i: nat, f: nat, g: nat)
    requires Inv(fs) && i < |fs.open| && fs.open[i].openCnt == 1 && f in fs.files && fs.files[f].inode == fs.open[i].id
    requires g in fs.files && g != f
    ensures fs.files[g].inode != fs.open[i].id
  {
    hide DirOk, OpenOk, RemovedOk, OwnsOk, OwnedOk, MarkedOk, FitsOk, LiveSet, IdsOk, Users, Deniers;
    OnlyUser(fs.open[i], fs.files, f, g);
  }

  // ---- runs ------------------------------------------------------------------------------------------------

  /** A name comes with a creation that succeeds, on the first free sector, and goes with its
      removal; nothing else changes what it leads to. */
  lemma NamesAfter(fs: Fs, op: Op, name: string, s: nat)
    requires Inv(fs) && Enabled(fs, op)
    ensures Named(Next(fs, op).dir, name, s) <==>
            match op
            case DoCreate(n, k) =>
              if n == name && Create(fs, n, k).1 == Done then FirstFree(fs.freeMap, s) else Named(fs.dir, name, s)
            case DoRemove(n) => n != name && Named(fs.dir, name, s)
            case _ => Named(fs.dir, name, s)
  {
    hide Inv, Named, On, Create, Open, Reopen, Deny, Allow, Close, Remove, HasId;
    match op {
      case DoCreate(n, k) => CreateLaw(fs, n, k);
      case DoOpen(n, f) => OpenLaw(fs, n, f);
      case DoReopen(f, g) => FileHasInode(fs, f); ReopenLaw(fs, f, g);
      case DoDeny(f) => FileHasInode(fs, f); DenyLaw(fs, f, true);
      case DoAllow(f) => FileHasInode(fs, f); DenyLaw(fs, f, false);
      case DoClose(f) => FileHasInode(fs, f); CloseLaw(fs, f);
      case DoRemove(n) => RemoveLaw(fs, n);
    }
  }

  /** An inode stays on the disk while a name leads to it. */
  lemma NextData(fs: Fs, op: Op, name: string, s: nat)
    requires Inv(fs) && Enabled(fs, op) && Named(fs.dir, name, s)
    ensures s in fs.disk && s in Next(fs, op).disk && Next(fs, op).disk[s] == fs.disk[s]
  {
    hide Inv, Named, On, Create, Open, Reopen, Deny, Allow, Close, Remove, HasId;
    NamedData(fs, name, s);
    match op {
      case DoCreate(n, k) => CreateElsewhere(fs, n, k, name, s);
      case DoOpen(n, f) => OpenLaw(fs, n, f);
      case DoReopen(f, g) => FileHasInode(fs, f); ReopenLaw(fs, f, g);
      case DoDeny(f) => FileHasInode(fs, f); DenyLaw(fs, f, true);
      case DoAllow(f) => FileHasInode(fs, f); DenyLaw(fs, f, false);
      case DoClose(f) => FileHasInode(fs, f); CloseLaw(fs, f);
      case DoRemove(n) => RemoveLaw(fs, n);
    }
  }

  lemma NamedData(fs: Fs, name: string, s: nat)
    requires Inv(fs) && Named(fs.dir, name, s)
    ensures s in fs.disk && s < |fs.freeMap| && fs.freeMap[s]
  {
    hide OpenOk, CountsOk, RemovedOk, OwnedOk, OwnsOk, MarkedOk, FitsOk, NamedSet, OpenSet;
    var i :| 0 <= i < |fs.dir| && fs.dir[i] == Used(name, s);
    NamedOnDisk(fs, i);
    FootprintMarked(LiveSet(fs), fs.disk, fs.owner, fs.freeMap, fs.reserved + fs.leaked, s, s);
  }

  lemma CreateElsewhere(fs: Fs, n: string, k: nat, name: string, s: nat)
    requires Inv(fs) && Named(fs.dir, name, s)
    ensures Named(Create(fs, n, k).0.dir, name, s)
    ensures s in fs.disk && s in Create(fs, n, k).0.disk && Create(fs, n, k).0.disk[s] == fs.disk[s]
  {
    hide Inv, Named, Scan, SetRange, Footprint, Extent, Give, FirstGroup, CanAdd, FreeSlot;
    NamedData(fs, name, s);
    CreateLaw(fs, n, k);
    var free := Scan(fs.freeMap, 0, 1, false);
    if free.At? { ScanIsFirst(fs.freeMap, free.idx); }
  }

  /** filesys_create of a name that is there fails. */
  lemma CreatedIsNew(fs: Fs, op: Op, name: string, s: nat)
    requires Inv(fs) && Named(fs.dir, name, s)
    ensures op.DoCreate? && op.name == name ==> Create(fs, name, op.sectors).1 != Done
  {
    hide Inv, Named, Create;
    if op.DoCreate? && op.name == name { CreateLaw(fs, name, op.sectors); }
  }

  lemma {:induction false} NameLasts(fs: Fs, ops: seq<Op>, name: string, s: nat)
    requires Inv(fs) && Possible(fs, ops) && Named(fs.dir, name, s) && DoRemove(name) !in ops
    ensures Named(After(fs, ops).dir, name, s) && s in fs.disk
    ensures s in After(fs, ops).disk && After(fs, ops).disk[s] == fs.disk[s]
    decreases |ops|
  {
    hide Inv, Named, Next, Enabled;
    NamedData(fs, name, s);
    if ops != [] {
      NextKeeps(fs, ops[0]);
      NamesAfter(fs, ops[0], name, s);
      NextData(fs, ops[0], name, s);
      CreatedIsNew(fs, ops[0], name, s);
      NameLasts(Next(fs, ops[0]), ops[1..], name, s);
    }
  }

  /** Over every run: once a name has been created, and until it is removed, opening it yields a
      file on the sector that the creation took, an inode of the size that was asked for. */
  lemma CreatedIsOpened(fs: Fs, before: seq<Op>, name: string, sectors: nat, later: seq<Op>, f: nat) returns (s: nat)
    requires RunFromFormat(fs, before) && Create(Reached(fs, before), name, sectors).1 == Done
    ensures FirstFree(Reached(fs, before).freeMap, s)
    ensures var fs1 := Next(Reached(fs, before), DoCreate(name, sectors));
            && Inv(fs1) && s in fs1.disk && fs1.disk[s].sectors == sectors
            && (Possible(fs1, later) && DoRemove(name) !in later && f !in After(fs1, later).files ==>
                  var (fs2, ok) := Open(After(fs1, later), name, f);
                  ok && (forall t: nat, d :: On(fs2, f, t, d) <==> t == s && d == fs1.disk[s]))
  {
    hide RunFromFormat, Reached, Inv, Named, On, Create, Open, Possible, After;
    var fs0 := Reached(fs, before);
    NextKeeps(fs0, DoCreate(name, sectors));
    CreateLaw(fs0, name, sectors);
    var fs1 := Next(fs0, DoCreate(name, sectors));
    s :| FirstFree(fs0.freeMap, s) && s in fs1.disk && fs1.disk[s].sectors == sectors && Named(fs1.dir, name, s);
    if Possible(fs1, later) && DoRemove(name) !in later && f !in After(fs1, later).files {
      NameLasts(fs1, later, name, s);
      OpenLaw(After(fs1, later), name, f);
      OneSector(After(fs1, later), name, s);
    }
  }

  lemma OneSector(fs: Fs, name: string, s: nat)
    requires Inv(fs) && Named(fs.dir, name, s)
    ensures forall t: nat :: Named(fs.dir, name, t) <==> t == s
  {
    hide Inv, Named, Lookup;
    InvParts(fs);
    NamedAt(fs.dir, name, s);
    forall t: nat | Named(fs.dir, name, t) ensures t == s { NamedAt(fs.dir, name, t); }
  }

  /** Opening a name gives a file on the inode that the name leads to, and reopening a file one on
      the same inode; closing takes a file away; nothing else changes what an open file reads. */
  lemma FilesAfter(fs: Fs, op: Op, f: nat, s: nat, d: DiskInode)
    requires Inv(fs) && Enabled(fs, op)
    ensures On(Next(fs, op), f, s, d) <==>
            match op
            case DoOpen(n, g) =>
              if g == f then Named(fs.dir, n, s) && s in fs.disk && fs.disk[s] == d else On(fs, f, s, d)
            case DoReopen(g, h) => On(fs, if h == f then g else f, s, d)
            case DoClose(g) => g != f && On(fs, f, s, d)
            case _ => On(fs, f, s, d)
  {
    hide Inv, Named, On, Create, Open, Reopen, Deny, Allow, Close, Remove, HasId;
    match op {
      case DoCreate(n, k) => CreateLaw(fs, n, k); SameOn(fs, Next(fs, op), f, s, d);
      case DoOpen(n, g) => OpenLaw(fs, n, g);
      case DoReopen(g, h) => FileHasInode(fs, g); ReopenLaw(fs, g, h);
      case DoDeny(g) => FileHasInode(fs, g); DenyLaw(fs, g, true);
      case DoAllow(g) => FileHasInode(fs, g); DenyLaw(fs, g, false);
      case DoClose(g) => FileHasInode(fs, g); CloseLaw(fs, g);
      case DoRemove(n) => RemoveLaw(fs, n);
    }
  }

  /** The open file denies writes to its inode. */
  predicate Denies(fs: Fs, f: nat) {
    f in fs.files && fs.files[f].denyWrite
  }

  /** What an operation does to the mark of file f. */
  predicate Marked(op: Op, f: nat, was: bool) {
    match op
    case DoOpen(_, g) => g != f && was
    case DoReopen(_, g) => g != f && was
    case DoDeny(g) => g == f || was
    case DoAllow(g) => g != f && was
    case DoClose(g) => g != f && was
    case _ => was
  }

  lemma DeniesAfter(fs: Fs, op: Op, f: nat)
    requires Inv(fs) && Enabled(fs, op)
    ensures Denies(Next(fs, op), f) <==> Marked(op, f, Denies(fs, f))
  {
    hide Inv, Named, On, Create, Open, Reopen, Deny, Allow, Close, Remove, HasId;
    match op {
      case DoCreate(n, k) => CreateLaw(fs, n, k);
      case DoOpen(n, g) => OpenLaw(fs, n, g);
      case DoReopen(g, h) => FileHasInode(fs, g); ReopenLaw(fs, g, h);
      case DoDeny(g) => FileHasInode(fs, g); DenyLaw(fs, g, true);
      case DoAllow(g) => FileHasInode(fs, g); DenyLaw(fs, g, false);
      case DoClose(g) => FileHasInode(fs, g); CloseLaw(fs, g);
      case DoRemove(n) => RemoveLaw(fs, n);
    }
  }

  function MarkedBy(ops: seq<Op>, f: nat, was: bool): bool {
    if ops == [] then was else MarkedBy(ops[1..], f, Marked(ops[0], f, was))
  }

  /** Over every run: a file denies writes if and only if the last call that was about it, among
      those that open, close, deny and allow, was a deny. */
  lemma {:induction false} DeniesIs(fs: Fs, ops: seq<Op>, f: nat)
    requires Inv(fs) && Possible(fs, ops)
    ensures Denies(After(fs, ops), f) <==> MarkedBy(ops, f, Denies(fs, f))
    decreases |ops|
  {
    hide Inv, Denies, Marked, Next, Enabled;
    if ops != [] {
      NextKeeps(fs, ops[0]);
      DeniesAfter(fs, ops[0], f);
      DeniesIs(Next(fs, ops[0]), ops[1..], f);
    }
  }

  lemma OnIsOpen(fs: Fs, f: nat, s: nat, d: DiskInode)
    requires On(fs, f, s, d)
    ensures f in fs.files
  {
  }

  lemma SameOn(fs: Fs, fs': Fs, f: nat, s: nat, d: DiskInode)
    requires fs'.open == fs.open && fs'.files == fs.files
    ensures On(fs', f, s, d) <==> On(fs, f, s, d)
  {
  }

  /** Over every run: an open file goes on reading the inode it was opened on until it is closed,
      whatever happens to its name. */
  lemma {:induction false} FileLasts(fs: Fs, ops: seq<Op>, f: nat, s: nat, d: DiskInode)
    requires Inv(fs) && Possible(fs, ops) && On(fs, f, s, d) && DoClose(f) !in ops
    ensures On(After(fs, ops), f, s, d)
    decreases |ops|
  {
    hide Inv, On, Next;
    if ops != [] {
      NextKeeps(fs, ops[0]);
      OnIsOpen(fs, f, s, d);
      FilesAfter(fs, ops[0], f, s, d);
      FileLasts(Next(fs, ops[0]), ops[1..], f, s, d);
    }
  }
}
