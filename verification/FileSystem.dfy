/** Who owns which sector: creating, opening, removing and closing files (src/filesys/inode.c,
    src/filesys/filesys.c, src/filesys/directory.c, src/filesys/free-map.c,
    src/filesys/file.c). */
module FileSystem {
  import opened Basics
  import opened Bitmap

  const NAME_MAX: nat := 14
  const FREE_MAP_SECTOR: nat := 0
  const ROOT_DIR_SECTOR: nat := 1

  /** The on-disk inode: a run of data sectors. */
  datatype DiskInode = DiskInode(start: nat, sectors: nat)

  /** struct inode; id stands for its address. */
  datatype MemInode = MemInode(id: nat, sector: nat, openCnt: int, removed: bool, denyCnt: int, data: DiskInode)

  /** struct file */
  datatype File = File(inode: nat, denyWrite: bool)

  /** A slot of the root directory. */
  datatype Slot = Empty | Used(name: string, sector: nat)

  /** reserved are the sectors of the free map and the root directory, leaked the data sectors
      that failed creations have left behind.  owner is bookkeeping for the proofs: which
      inode each other used sector was allocated for. */
  datatype Fs = Fs(
    freeMap: seq<bool>,
    disk: map<nat, DiskInode>,
    dir: seq<Slot>,
    open: seq<MemInode>,
    files: map<nat, File>,
    nextId: nat,
    reserved: set<nat>,
    leaked: set<nat>,
    owner: map<nat, nat>)

  // ---- queries --------------------------------------------------------------------------------

  /** lookup */
  function Lookup(dir: seq<Slot>, name: string): (i: nat)
    ensures i <= |dir|
    ensures i < |dir| ==> dir[i].Used? && dir[i].name == name
    ensures forall j | 0 <= j < i :: !(dir[j].Used? && dir[j].name == name)
  {
    if dir == [] || (dir[0].Used? && dir[0].name == name) then 0 else 1 + Lookup(dir[1..], name)
  }

  /** The slot dir_add writes. */
  function FreeSlot(dir: seq<Slot>): (i: nat)
    ensures i <= |dir|
    ensures i < |dir| ==> dir[i].Empty?
    ensures forall j | 0 <= j < i :: dir[j].Used?
  {
    if dir == [] || dir[0].Empty? then 0 else 1 + FreeSlot(dir[1..])
  }

  /** inode_open's search of the open list. */
  function FindOpen(open: seq<MemInode>, sector: nat): (i: nat)
    ensures i <= |open|
    ensures i < |open| ==> open[i].sector == sector
    ensures forall j | 0 <= j < i :: open[j].sector != sector
  {
    if open == [] || open[0].sector == sector then 0 else 1 + FindOpen(open[1..], sector)
  }

  /** The position of the struct inode at an address. */
  function PlaceOf(open: seq<MemInode>, id: nat): (i: nat)
    ensures i <= |open|
    ensures i < |open| ==> open[i].id == id
    ensures forall j | 0 <= j < i :: open[j].id != id
  {
    if open == [] || open[0].id == id then 0 else 1 + PlaceOf(open[1..], id)
  }

  predicate ValidName(name: string) {
    0 < |name| <= NAME_MAX
  }

  // ---- the invariant, table by table -------------------------------------------------------------

  /** Sectors of an inode: its own and its data. */
  predicate InFootprint(sector: nat, data: DiskInode, x: nat) {
    x == sector || data.start <= x < data.start + data.sectors
  }

  function Footprint(sector: nat, data: DiskInode): (xs: set<nat>)
    ensures forall x: nat :: x in xs <==> InFootprint(sector, data, x)
  {
    {sector} + Extent(data.start, data.sectors)
  }

  function Extent(start: nat, n: nat): (xs: set<nat>)
    ensures forall x: nat :: x in xs <==> start <= x < start + n
  {
    if n == 0 then {} else Extent(start, n - 1) + {start + n - 1}
  }

  function NamedSet(dir: seq<Slot>): (s: set<nat>)
    ensures forall i | 0 <= i < |dir| && dir[i].Used? :: dir[i].sector in s
  {
    set i | 0 <= i < |dir| && dir[i].Used? :: dir[i].sector
  }

  function OpenSet(open: seq<MemInode>): (s: set<nat>)
    ensures forall i | 0 <= i < |open| :: open[i].sector in s
  {
    set i | 0 <= i < |open| :: open[i].sector
  }

  /** The live inodes: named or open. */
  function LiveSet(fs: Fs): set<nat> {
    NamedSet(fs.dir) + OpenSet(fs.open)
  }

  ghost predicate DirOk(dir: seq<Slot>) {
    forall i, j | 0 <= i < j < |dir| && dir[i].Used? && dir[j].Used? ::
        dir[i].name != dir[j].name && dir[i].sector != dir[j].sector
  }

  /** One in-memory inode per sector, and its data is the disk's. */
  ghost predicate OpenOk(open: seq<MemInode>, disk: map<nat, DiskInode>, nextId: nat) {
    && (forall i, j | 0 <= i < j < |open| :: open[i].id != open[j].id && open[i].sector != open[j].sector)
    && (forall i | 0 <= i < |open| ::
       open[i].id < nextId && open[i].sector in disk && disk[open[i].sector] == open[i].data)
  }

  ghost function Users(files: map<nat, File>, id: nat): set<nat> {
    set f | f in files && files[f].inode == id
  }

  ghost function Deniers(files: map<nat, File>, id: nat): set<nat> {
    set f | f in files && files[f].inode == id && files[f].denyWrite
  }

  predicate HasId(open: seq<MemInode>, id: nat) {
    exists i | 0 <= i < |open| :: open[i].id == id
  }

  ghost predicate IdsOk(open: seq<MemInode>, files: map<nat, File>) {
    forall f | f in files :: HasId(open, files[f].inode)
  }

  /** The counts are the numbers of open files, and of those that deny writes. */
  ghost predicate CountOk(m: MemInode, files: map<nat, File>) {
    m.openCnt == |Users(files, m.id)| >= 1 && m.denyCnt == |Deniers(files, m.id)|
  }

  ghost predicate CountsOk(open: seq<MemInode>, files: map<nat, File>) {
    IdsOk(open, files) && forall i | 0 <= i < |open| :: CountOk(open[i], files)
  }

  /** An open inode has lost its name exactly if it is marked removed. */
  ghost predicate RemovedOk(open: seq<MemInode>, dir: seq<Slot>) {
    forall i | 0 <= i < |open| :: open[i].removed <==> open[i].sector !in NamedSet(dir)
  }

  /** Live inodes own their footprints ... */
  ghost predicate OwnsOk(live: set<nat>, disk: map<nat, DiskInode>, owner: map<nat, nat>) {
    && (forall s | s in live :: s in disk)
    && (forall s, x: nat | s in live && InFootprint(s, disk[s], x) :: x in owner && owner[x] == s)
  }

  /** ... every owned sector is in a live inode's footprint ... */
  ghost predicate OwnedOk(live: set<nat>, disk: map<nat, DiskInode>, owner: map<nat, nat>) {
    forall x | x in owner :: owner[x] in live && owner[x] in disk && InFootprint(owner[x], disk[owner[x]], x)
  }

  /** ... and the free map marks the owned sectors and the others that are in use, and
      nothing else. */
  ghost predicate MarkedOk(freeMap: seq<bool>, owner: map<nat, nat>, other: set<nat>) {
    && (forall x: nat | x < |freeMap| :: freeMap[x] <==> x in owner || x in other)
    && (forall x | x in owner :: x < |freeMap| && x !in other)
    && (forall x | x in other :: x < |freeMap|)
  }

  /** Data sectors lie on the device, apart from the inode's own sector. */
  ghost predicate FitsOk(disk: map<nat, DiskInode>, size: nat) {
    forall s | s in disk ::
        disk[s].start + disk[s].sectors <= size && !(disk[s].start <= s < disk[s].start + disk[s].sectors)
  }

  ghost predicate Inv(fs: Fs) {
    && DirOk(fs.dir) && OpenOk(fs.open, fs.disk, fs.nextId) && CountsOk(fs.open, fs.files) && RemovedOk(fs.open, fs.dir)
    && OwnsOk(LiveSet(fs), fs.disk, fs.owner) && OwnedOk(LiveSet(fs), fs.disk, fs.owner)
    && MarkedOk(fs.freeMap, fs.owner, fs.reserved + fs.leaked) && FitsOk(fs.disk, |fs.freeMap|)
    && FREE_MAP_SECTOR in fs.reserved && ROOT_DIR_SECTOR in fs.reserved
  }

  // ---- creating ---------------------------------------------------------------------------------

  /** How filesys_create ends. */
  datatype Created = Done | NoInodeSector | NoDataSectors | NotAdded

  /** dir_add succeeds: the name is valid and new, and there is a slot. */
  predicate CanAdd(dir: seq<Slot>, name: string) {
    ValidName(name) && Lookup(dir, name) == |dir| && FreeSlot(dir) < |dir|
  }

  function Give(owner: map<nat, nat>, xs: set<nat>, s: nat): map<nat, nat> {
    map x | x in owner.Keys + xs :: if x in xs then s else owner[x]
  }

  /** filesys_create's rollback, which takes sector 0 for no sector. */
  function Undone(freeMap: seq<bool>, s: nat): seq<bool> {
    if s != 0 then SetRange(freeMap, s, 1, false) else freeMap
  }

  /** filesys_create of a file with the given number of data sectors.  A failing dir_add
      gives back the inode's sector only. */
  function Create(fs: Fs, name: string, sectors: nat): (r: (Fs, Created)) {
    match Scan(fs.freeMap, 0, 1, false)
    case Error => (fs, NoInodeSector)
    case At(s) =>
      var map1 := SetRange(fs.freeMap, s, 1, true);
      match Scan(map1, 0, sectors, false)
      case Error => (fs.(freeMap := Undone(map1, s)), NoDataSectors)
      case At(start) =>
        var map2 := SetRange(map1, start, sectors, true);
        var data := DiskInode(start, sectors);
        var fs2 := fs.(freeMap := map2, disk := fs.disk[s := data]);
        if CanAdd(fs.dir, name) then
          (fs2.(dir := fs.dir[FreeSlot(fs.dir) := Used(name, s)], owner := Give(fs.owner, Footprint(s, data), s)), Done)
        else
          (fs2.(freeMap := Undone(map2, s), leaked := fs.leaked + Extent(start, sectors)), NotAdded)
  }

  lemma NameAdded(dir: seq<Slot>, i: nat, name: string, s: nat)
    requires i < |dir| && dir[i].Empty?
    ensures NamedSet(dir[i := Used(name, s)]) == NamedSet(dir) + {s}
  {
    var dir' := dir[i := Used(name, s)];
    forall x | x in NamedSet(dir) ensures x in NamedSet(dir') {
      var j :| 0 <= j < |dir| && dir[j].Used? && dir[j].sector == x;
      assert dir'[j] == dir[j];
    }
    assert dir'[i].sector == s;
  }

  lemma AddKeepsDir(dir: seq<Slot>, i: nat, name: string, s: nat)
    requires DirOk(dir) && i < |dir| && Lookup(dir, name) == |dir| && s !in NamedSet(dir)
    ensures DirOk(dir[i := Used(name, s)])
  {
  }

  /** A sector that is not marked belongs to nobody. */
  lemma FreeIsUnowned(live: set<nat>, disk: map<nat, DiskInode>, owner: map<nat, nat>, freeMap: seq<bool>,
      other: set<nat>, s: nat)
    requires OwnsOk(live, disk, owner) && MarkedOk(freeMap, owner, other) && s < |freeMap| && !freeMap[s]
    ensures s !in live && s !in owner && s !in other
  {
    if s in live {
      assert InFootprint(s, disk[s], s);
    }
  }

  /** A fresh inode takes over sectors that nobody owned. */
  lemma FreshOwns(live: set<nat>, disk: map<nat, DiskInode>, owner: map<nat, nat>, s: nat, data: DiskInode)
    requires OwnsOk(live, disk, owner) && OwnedOk(live, disk, owner) && s !in live
    requires forall x: nat | InFootprint(s, data, x) :: x !in owner
    ensures OwnsOk(live + {s}, disk[s := data], Give(owner, Footprint(s, data), s))
    ensures OwnedOk(live + {s}, disk[s := data], Give(owner, Footprint(s, data), s))
  {
    hide Footprint;
    var owner', disk' := Give(owner, Footprint(s, data), s), disk[s := data];
    forall t, x: nat | t in live + {s} && InFootprint(t, disk'[t], x) ensures x in owner' && owner'[x] == t {
      if t != s {
        assert InFootprint(t, disk[t], x);
      }
    }
  }

  lemma FreshMarked(freeMap: seq<bool>, freeMap': seq<bool>, owner: map<nat, nat>, other: set<nat>, xs: set<nat>,
      s: nat)
    requires MarkedOk(freeMap, owner, other) && |freeMap'| == |freeMap|
    requires forall x | x in xs :: x < |freeMap| && !freeMap[x]
    requires forall x: nat | x < |freeMap| :: freeMap'[x] == (freeMap[x] || x in xs)
    ensures MarkedOk(freeMap', Give(owner, xs, s), other)
  {
  }

  lemma DiskElsewhere(live: set<nat>, disk: map<nat, DiskInode>, owner: map<nat, nat>, s: nat, data: DiskInode)
    requires OwnsOk(live, disk, owner) && OwnedOk(live, disk, owner) && s !in live
    ensures OwnsOk(live, disk[s := data], owner) && OwnedOk(live, disk[s := data], owner)
  {
    var disk' := disk[s := data];
    forall t, x: nat | t in live && InFootprint(t, disk'[t], x) ensures x in owner && owner[x] == t {
      assert InFootprint(t, disk[t], x);
    }
  }

  lemma OpenElsewhere(open: seq<MemInode>, disk: map<nat, DiskInode>, nextId: nat, s: nat, data: DiskInode)
    requires OpenOk(open, disk, nextId) && s !in OpenSet(open)
    ensures OpenOk(open, disk[s := data], nextId)
  {
  }

  /** What the two scans of a creation find: an unmarked sector, and unmarked sectors beside it. */
  lemma ScansFind(freeMap: seq<bool>, sectors: nat, s: nat, start: nat)
    requires Scan(freeMap, 0, 1, false) == Found.At(s)
             && Scan(SetRange(freeMap, s, 1, true), 0, sectors, false) == Found.At(start)
    ensures s < |freeMap| && start + sectors <= |freeMap|
    ensures forall x: nat | InFootprint(s, DiskInode(start, sectors), x) :: x < |freeMap| && !freeMap[x]
    ensures !(start <= s < start + sectors)
  {
    var map1 := SetRange(freeMap, s, 1, true);
    assert AllAre(freeMap, s, 1, false) && AllAre(map1, start, sectors, false);
    assert map1[s];
    assert forall i | 0 <= i < |freeMap| && i != s :: map1[i] == freeMap[i];
  }

  lemma CreateDone(fs: Fs, name: string, sectors: nat)
    requires Inv(fs) && Create(fs, name, sectors).1 == Done
    ensures Inv(Create(fs, name, sectors).0)
  {
    hide DirOk, OpenOk, CountsOk, OwnsOk, OwnedOk, Footprint, Give, Scan, SetRange, FirstGroup;
    var s := Scan(fs.freeMap, 0, 1, false).idx;
    var map1 := SetRange(fs.freeMap, s, 1, true);
    var start := Scan(map1, 0, sectors, false).idx;
    var map2 := SetRange(map1, start, sectors, true);
    var data := DiskInode(start, sectors);
    ScansFind(fs.freeMap, sectors, s, start);
    FreeIsUnowned(LiveSet(fs), fs.disk, fs.owner, fs.freeMap, fs.reserved + fs.leaked, s);
    forall x: nat | InFootprint(s, data, x) ensures x !in fs.owner {
      FreeIsUnowned(LiveSet(fs), fs.disk, fs.owner, fs.freeMap, fs.reserved + fs.leaked, x);
    }
    FreshOwns(LiveSet(fs), fs.disk, fs.owner, s, data);
    BothRanges(fs.freeMap, s, start, sectors);
    FreshMarked(fs.freeMap, map2, fs.owner, fs.reserved + fs.leaked, Footprint(s, data), s);
    var i := FreeSlot(fs.dir);
    NameAdded(fs.dir, i, name, s);
    AddKeepsDir(fs.dir, i, name, s);
    OpenElsewhere(fs.open, fs.disk, fs.nextId, s, data);
    assert LiveSet(Create(fs, name, sectors).0) == LiveSet(fs) + {s};
    hide MarkedOk;
  }

  lemma BothRanges(freeMap: seq<bool>, s: nat, start: nat, sectors: nat)
    requires s < |freeMap| && start + sectors <= |freeMap|
    ensures var map2 := SetRange(SetRange(freeMap, s, 1, true), start, sectors, true);
            |map2| == |freeMap| && forall x: nat | x < |freeMap| ::
                map2[x] == (freeMap[x] || x in Footprint(s, DiskInode(start, sectors)))
  {
    hide Footprint;
  }

  lemma CreateNotAdded(fs: Fs, name: string, sectors: nat)
    requires Inv(fs) && Create(fs, name, sectors).1 == NotAdded
    ensures Inv(Create(fs, name, sectors).0)
  {
    hide DirOk, OpenOk, CountsOk, OwnsOk, OwnedOk, RemovedOk, Extent, Scan, SetRange, FirstGroup;
    var s := Scan(fs.freeMap, 0, 1, false).idx;
    var map1 := SetRange(fs.freeMap, s, 1, true);
    var start := Scan(map1, 0, sectors, false).idx;
    ScansFind(fs.freeMap, sectors, s, start);
    FreeIsUnowned(LiveSet(fs), fs.disk, fs.owner, fs.freeMap, fs.reserved + fs.leaked, s);
    DiskElsewhere(LiveSet(fs), fs.disk, fs.owner, s, DiskInode(start, sectors));
    OpenElsewhere(fs.open, fs.disk, fs.nextId, s, DiskInode(start, sectors));
    LeftBehind(fs.freeMap, s, start, sectors);
    var fs' := Create(fs, name, sectors).0;
    forall x | x in Extent(start, sectors) ensures x !in fs.owner {
      FreeIsUnowned(LiveSet(fs), fs.disk, fs.owner, fs.freeMap, fs.reserved + fs.leaked, x);
    }
    assert fs'.reserved + fs'.leaked == (fs.reserved + fs.leaked) + Extent(start, sectors);
  }

  lemma LeftBehind(freeMap: seq<bool>, s: nat, start: nat, sectors: nat)
    requires s < |freeMap| && start + sectors <= |freeMap| && !freeMap[s] && !(start <= s < start + sectors)
    ensures var map3 := SetRange(SetRange(SetRange(freeMap, s, 1, true), start, sectors, true), s, 1, false);
            |map3| == |freeMap| && forall x: nat | x < |freeMap| ::
                map3[x] == (freeMap[x] || x in Extent(start, sectors))
  {
    hide Extent;
  }

  lemma GivenBack(freeMap: seq<bool>, s: nat)
    requires s < |freeMap| && !freeMap[s]
    ensures SetRange(SetRange(freeMap, s, 1, true), s, 1, false) == freeMap
  {
  }

  lemma CreateNoData(fs: Fs, name: string, sectors: nat)
    requires Create(fs, name, sectors).1 == NoDataSectors && fs.freeMap != [] && fs.freeMap[0]
    ensures Create(fs, name, sectors).0 == fs
  {
    hide Scan, SetRange;
    var s := Scan(fs.freeMap, 0, 1, false).idx;
    assert AllAre(fs.freeMap, s, 1, false);
    GivenBack(fs.freeMap, s);
  }

  lemma ZeroIsMarked(fs: Fs)
    requires Inv(fs)
    ensures fs.freeMap != [] && fs.freeMap[0]
  {
    hide DirOk, OpenOk, CountsOk, RemovedOk, OwnsOk, OwnedOk, FitsOk;
    assert 0 in fs.reserved + fs.leaked;
  }

  lemma CreateKeeps(fs: Fs, name: string, sectors: nat)
    requires Inv(fs)
    ensures Inv(Create(fs, name, sectors).0)
  {
    hide Inv;
    match Create(fs, name, sectors).1 {
      case Done => CreateDone(fs, name, sectors);
      case NoInodeSector =>
      case NoDataSectors =>
        ZeroIsMarked(fs);
        CreateNoData(fs, name, sectors);
      case NotAdded => CreateNotAdded(fs, name, sectors);
    }
  }

  /** Both allocations of a creation would succeed. */
  predicate HasSpace(freeMap: seq<bool>, sectors: nat) {
    match Scan(freeMap, 0, 1, false)
    case Error => false
    case At(s) => Scan(SetRange(freeMap, s, 1, true), 0, sectors, false).At?
  }

  /** A creation that fails undoes its allocations, except when both were made, there are
      data sectors, and the name cannot be added: then exactly then the free map is not as it
      was before. */
  lemma FailedCreateLeaks(fs: Fs, name: string, sectors: nat)
    requires fs.freeMap != [] && fs.freeMap[0]
    ensures Create(fs, name, sectors).1 == Done <==> HasSpace(fs.freeMap, sectors) && CanAdd(fs.dir, name)
    ensures Create(fs, name, sectors).1 != Done ==>
              (Create(fs, name, sectors).0.freeMap == fs.freeMap <==> !(HasSpace(fs.freeMap, sectors) && sectors > 0))
  {
    hide Scan, SetRange, FirstGroup, CanAdd;
    if Create(fs, name, sectors).1 == NoDataSectors {
      CreateNoData(fs, name, sectors);
    } else if Create(fs, name, sectors).1 == NotAdded {
      var s := Scan(fs.freeMap, 0, 1, false).idx;
      var start := Scan(SetRange(fs.freeMap, s, 1, true), 0, sectors, false).idx;
      ScansFind(fs.freeMap, sectors, s, start);
      LeftBehind(fs.freeMap, s, start, sectors);
      var map3 := Create(fs, name, sectors).0.freeMap;
      if sectors > 0 {
        assert InFootprint(s, DiskInode(start, sectors), start);
        assert map3[start] && !fs.freeMap[start];
      } else {
        assert forall x: nat | x < |fs.freeMap| :: map3[x] == fs.freeMap[x];
      }
    }
  }

  // ---- opening ----------------------------------------------------------------------------------

  /** inode_open: the inode that is open for the sector already, or a new one. */
  function Opened(fs: Fs, sector: nat): (r: (Fs, nat))
    requires sector in fs.disk
    ensures |r.0.open| > if FindOpen(fs.open, sector) < |fs.open| then FindOpen(fs.open, sector) else 0
  {
    var i := FindOpen(fs.open, sector);
    if i < |fs.open| then (fs.(open := fs.open[i := fs.open[i].(openCnt := fs.open[i].openCnt + 1)]), fs.open[i].id)
    else (fs.(open := [MemInode(fs.nextId, sector, 1, false, 0, fs.disk[sector])] + fs.open, nextId := fs.nextId + 1),
        fs.nextId)
  }

  /** filesys_open as file f. */
  function Open(fs: Fs, name: string, f: nat): (Fs, bool)
    requires Inv(fs)
  {
    var i := Lookup(fs.dir, name);
    if i == |fs.dir| then (fs, false)
    else
      NamedOnDisk(fs, i);
      var (fs1, id) := Opened(fs, fs.dir[i].sector);
      (fs1.(files := fs1.files[f := File(id, false)]), true)
  }

  lemma NamedOnDisk(fs: Fs, i: nat)
    requires Inv(fs) && i < |fs.dir| && fs.dir[i].Used?
    ensures fs.dir[i].sector in fs.disk && fs.dir[i].sector in NamedSet(fs.dir)
  {
  }

  /** file_reopen of file f as file g. */
  function Reopen(fs: Fs, f: nat, g: nat): Fs
    requires f in fs.files && HasId(fs.open, fs.files[f].inode)
  {
    var i := PlaceOf(fs.open, fs.files[f].inode);
    PlaceFound(fs.open, fs.files[f].inode);
    fs.(open := fs.open[i := fs.open[i].(openCnt := fs.open[i].openCnt + 1)],
        files := fs.files[g := File(fs.files[f].inode, false)])
  }

  lemma PlaceFound(open: seq<MemInode>, id: nat)
    requires HasId(open, id)
    ensures PlaceOf(open, id) < |open| && open[PlaceOf(open, id)].id == id
  {
  }

  lemma SameSectors(open: seq<MemInode>, i: nat, m: MemInode)
    requires i < |open| && m.sector == open[i].sector
    ensures OpenSet(open[i := m]) == OpenSet(open)
  {
    var open' := open[i := m];
    forall x | x in OpenSet(open) ensures x in OpenSet(open') {
      var j :| 0 <= j < |open| && open[j].sector == x;
      assert open'[j].sector == x;
    }
    forall x | x in OpenSet(open') ensures x in OpenSet(open) {
      var j :| 0 <= j < |open'| && open'[j].sector == x;
      assert open[j].sector == x;
    }
  }

  lemma SameIds(open: seq<MemInode>, i: nat, m: MemInode, id: nat)
    requires i < |open| && m.id == open[i].id
    ensures HasId(open[i := m], id) <==> HasId(open, id)
  {
    var open' := open[i := m];
    if HasId(open, id) {
      var j :| 0 <= j < |open| && open[j].id == id;
      assert open'[j].id == id;
    }
    if HasId(open', id) {
      var j :| 0 <= j < |open'| && open'[j].id == id;
      assert open[j].id == id;
    }
  }

  /** Files of other inodes do not matter. */
  lemma CountIgnores(m: MemInode, files: map<nat, File>, g: nat, file: File)
    requires CountOk(m, files) && file.inode != m.id && (g in files ==> files[g].inode != m.id)
    ensures CountOk(m, files[g := file])
  {
    assert Users(files[g := file], m.id) == Users(files, m.id);
    assert Deniers(files[g := file], m.id) == Deniers(files, m.id);
  }

  lemma CountGains(m: MemInode, files: map<nat, File>, g: nat)
    requires CountOk(m, files) && g !in files
    ensures CountOk(m.(openCnt := m.openCnt + 1), files[g := File(m.id, false)])
  {
    assert Users(files[g := File(m.id, false)], m.id) == Users(files, m.id) + {g};
    assert Deniers(files[g := File(m.id, false)], m.id) == Deniers(files, m.id);
  }

  lemma CountOpens(open: seq<MemInode>, files: map<nat, File>, i: nat, g: nat, disk: map<nat, DiskInode>, nextId: nat)
    requires OpenOk(open, disk, nextId) && CountsOk(open, files) && i < |open| && g !in files
    ensures CountsOk(open[i := open[i].(openCnt := open[i].openCnt + 1)], files[g := File(open[i].id, false)])
  {
    hide CountOk, HasId;
    var m := open[i].(openCnt := open[i].openCnt + 1);
    var open', files' := open[i := m], files[g := File(open[i].id, false)];
    forall id ensures HasId(open', id) <==> HasId(open, id) {
      SameIds(open, i, m, id);
    }
    assert HasId(open, open[i].id) by { HasIdAt(open, i); }
    forall j | 0 <= j < |open'| ensures CountOk(open'[j], files') {
      if j == i {
        CountGains(open[i], files, g);
      } else {
        CountIgnores(open[j], files, g, File(open[i].id, false));
      }
    }
  }

  lemma HasIdAt(open: seq<MemInode>, i: nat)
    requires i < |open|
    ensures HasId(open, open[i].id)
  {
  }

  lemma IdIsOld(open: seq<MemInode>, disk: map<nat, DiskInode>, nextId: nat, id: nat)
    requires OpenOk(open, disk, nextId) && HasId(open, id)
    ensures id < nextId
  {
  }

  lemma CountFirst(open: seq<MemInode>, files: map<nat, File>, m: MemInode, g: nat, disk: map<nat, DiskInode>)
    requires OpenOk(open, disk, m.id) && CountsOk(open, files) && g !in files && m.openCnt == 1 && m.denyCnt == 0
    ensures CountsOk([m] + open, files[g := File(m.id, false)])
  {
    hide CountOk, HasId, OpenOk;
    var open', files' := [m] + open, files[g := File(m.id, false)];
    forall f | f in files ensures files[f].inode < m.id {
      IdIsOld(open, disk, m.id, files[f].inode);
    }
    assert CountOk(m, files') by { CountsItself(m, files, g); }
    forall j | 0 <= j < |open| ensures CountOk(open[j], files') {
      HasIdAt(open, j);
      IdIsOld(open, disk, m.id, open[j].id);
      CountIgnores(open[j], files, g, File(m.id, false));
    }
    forall f | f in files' ensures HasId(open', files'[f].inode) {
      HasIdMore(open, m, files'[f].inode);
    }
  }

  lemma CountsItself(m: MemInode, files: map<nat, File>, g: nat)
    requires (forall f | f in files :: files[f].inode < m.id) && g !in files && m.openCnt == 1 && m.denyCnt == 0
    ensures CountOk(m, files[g := File(m.id, false)])
  {
    assert Users(files[g := File(m.id, false)], m.id) == {g};
    assert Deniers(files[g := File(m.id, false)], m.id) == {};
  }

  lemma HasIdMore(open: seq<MemInode>, m: MemInode, id: nat)
    ensures HasId([m] + open, id) <==> id == m.id || HasId(open, id)
  {
    var open' := [m] + open;
    assert open'[0].id == m.id;
    if HasId(open, id) {
      var j :| 0 <= j < |open| && open[j].id == id;
      assert open'[j + 1].id == id;
    }
  }

  lemma ChangeKeepsList(open: seq<MemInode>, disk: map<nat, DiskInode>, nextId: nat, dir: seq<Slot>, i: nat,
      m: MemInode)
    requires OpenOk(open, disk, nextId) && RemovedOk(open, dir) && i < |open|
    requires m.id == open[i].id && m.sector == open[i].sector && m.data == open[i].data && m.removed == open[i].removed
    ensures OpenOk(open[i := m], disk, nextId) && RemovedOk(open[i := m], dir) && OpenSet(open[i := m]) == OpenSet(open)
  {
    hide OpenSet, NamedSet;
    SameSectors(open, i, m);
  }

  lemma NewKeepsList(open: seq<MemInode>, disk: map<nat, DiskInode>, dir: seq<Slot>, m: MemInode)
    requires OpenOk(open, disk, m.id) && RemovedOk(open, dir) && m.sector in NamedSet(dir) && !m.removed
    requires m.sector in disk && disk[m.sector] == m.data && (forall j | 0 <= j < |open| :: open[j].sector != m.sector)
    ensures OpenOk([m] + open, disk, m.id + 1) && RemovedOk([m] + open, dir)
            && OpenSet([m] + open) == OpenSet(open) + {m.sector}
  {
    hide OpenSet, NamedSet;
    OneMore(open, m);
    var open' := [m] + open;
    assert forall j | 0 <= j < |open'| :: open'[j] == if j == 0 then m else open[j - 1];
  }

  /** The list of open inodes gains a count, or a first entry for the sector. */
  lemma OpenKeepsList(fs: Fs, sector: nat)
    requires OpenOk(fs.open, fs.disk, fs.nextId) && RemovedOk(fs.open, fs.dir) && sector in fs.disk
             && sector in NamedSet(fs.dir)
    ensures var fs1 := Opened(fs, sector).0;
            OpenOk(fs1.open, fs1.disk, fs1.nextId) && RemovedOk(fs1.open, fs1.dir)
                && OpenSet(fs1.open) == OpenSet(fs.open) + {sector}
  {
    hide OpenOk, RemovedOk, OpenSet, NamedSet;
    var i := FindOpen(fs.open, sector);
    if i < |fs.open| {
      ChangeKeepsList(fs.open, fs.disk, fs.nextId, fs.dir, i, fs.open[i].(openCnt := fs.open[i].openCnt + 1));
    } else {
      NewKeepsList(fs.open, fs.disk, fs.dir, MemInode(fs.nextId, sector, 1, false, 0, fs.disk[sector]));
    }
  }

  lemma OneMore(open: seq<MemInode>, m: MemInode)
    ensures OpenSet([m] + open) == OpenSet(open) + {m.sector}
  {
    var open' := [m] + open;
    forall x | x in OpenSet(open) + {m.sector} ensures x in OpenSet(open') {
      if x == m.sector {
        assert open'[0].sector == x;
      } else {
        var j :| 0 <= j < |open| && open[j].sector == x;
        assert open'[j + 1].sector == x;
      }
    }
    forall x | x in OpenSet(open') ensures x in OpenSet(open) + {m.sector} {
      var j :| 0 <= j < |open'| && open'[j].sector == x;
      assert j > 0 ==> open[j - 1].sector == x;
    }
  }

  lemma OpenCounts(fs: Fs, sector: nat, f: nat)
    requires OpenOk(fs.open, fs.disk, fs.nextId) && CountsOk(fs.open, fs.files) && sector in fs.disk && f !in fs.files
    ensures var (fs1, id) := Opened(fs, sector); CountsOk(fs1.open, fs.files[f := File(id, false)])
  {
    hide OpenOk, CountsOk;
    var i := FindOpen(fs.open, sector);
    if i < |fs.open| {
      CountOpens(fs.open, fs.files, i, f, fs.disk, fs.nextId);
    } else {
      CountFirst(fs.open, fs.files, MemInode(fs.nextId, sector, 1, false, 0, fs.disk[sector]), f, fs.disk);
    }
  }

  lemma OpenKeeps(fs: Fs, name: string, f: nat)
    requires Inv(fs) && f !in fs.files
    ensures Inv(Open(fs, name, f).0)
  {
    hide DirOk, OpenOk, CountsOk, OwnsOk, OwnedOk, RemovedOk, MarkedOk, FitsOk, NamedSet, OpenSet, FindOpen;
    var i := Lookup(fs.dir, name);
    if i < |fs.dir| {
      NamedOnDisk(fs, i);
      var sector := fs.dir[i].sector;
      OpenKeepsList(fs, sector);
      OpenCounts(fs, sector, f);
      assert LiveSet(Open(fs, name, f).0) == LiveSet(fs);
    }
  }

  lemma ReopenKeeps(fs: Fs, f: nat, g: nat)
    requires Inv(fs) && f in fs.files && g !in fs.files && HasId(fs.open, fs.files[f].inode)
    ensures Inv(Reopen(fs, f, g))
  {
    hide DirOk, CountsOk, OwnsOk, OwnedOk, MarkedOk, FitsOk, NamedSet, OpenSet, PlaceOf, HasId;
    var i := PlaceOf(fs.open, fs.files[f].inode);
    PlaceFound(fs.open, fs.files[f].inode);
    CountOpens(fs.open, fs.files, i, g, fs.disk, fs.nextId);
    SameSectors(fs.open, i, fs.open[i].(openCnt := fs.open[i].openCnt + 1));
  }

  // ---- denying writes -----------------------------------------------------------------------------

  /** file_deny_write */
  function Deny(fs: Fs, f: nat): Fs
    requires f in fs.files && HasId(fs.open, fs.files[f].inode)
  {
    var i := PlaceOf(fs.open, fs.files[f].inode);
    PlaceFound(fs.open, fs.files[f].inode);
    if fs.files[f].denyWrite then fs
    else fs.(open := fs.open[i := fs.open[i].(denyCnt := fs.open[i].denyCnt + 1)],
        files := fs.files[f := fs.files[f].(denyWrite := true)])
  }

  /** file_allow_write */
  function Allow(fs: Fs, f: nat): Fs
    requires f in fs.files && HasId(fs.open, fs.files[f].inode)
  {
    var i := PlaceOf(fs.open, fs.files[f].inode);
    PlaceFound(fs.open, fs.files[f].inode);
    if !fs.files[f].denyWrite then fs
    else fs.(open := fs.open[i := fs.open[i].(denyCnt := fs.open[i].denyCnt - 1)],
        files := fs.files[f := fs.files[f].(denyWrite := false)])
  }

  lemma CountDeny(m: MemInode, files: map<nat, File>, f: nat, deny: bool)
    requires CountOk(m, files) && f in files && files[f].inode == m.id && files[f].denyWrite == !deny
    ensures CountOk(m.(denyCnt := m.denyCnt + if deny then 1 else -1), files[f := files[f].(denyWrite := deny)])
  {
    var files' := files[f := files[f].(denyWrite := deny)];
    assert Users(files', m.id) == Users(files, m.id);
    assert Deniers(files', m.id) == if deny then Deniers(files, m.id) + {f} else Deniers(files, m.id) - {f};
  }

  lemma CountDenies(open: seq<MemInode>, files: map<nat, File>, i: nat, f: nat, deny: bool, disk: map<nat, DiskInode>,
      nextId: nat)
    requires OpenOk(open, disk, nextId) && CountsOk(open, files) && i < |open|
    requires f in files && files[f].inode == open[i].id && files[f].denyWrite == !deny
    ensures CountsOk(open[i := open[i].(denyCnt := open[i].denyCnt + if deny then 1 else -1)],
            files[f := files[f].(denyWrite := deny)])
  {
    hide CountOk, HasId;
    var m := open[i].(denyCnt := open[i].denyCnt + if deny then 1 else -1);
    var open', files' := open[i := m], files[f := files[f].(denyWrite := deny)];
    forall id ensures HasId(open', id) <==> HasId(open, id) {
      SameIds(open, i, m, id);
    }
    forall j | 0 <= j < |open'| ensures CountOk(open'[j], files') {
      if j == i {
        CountDeny(open[i], files, f, deny);
      } else {
        CountIgnores(open[j], files, f, files[f].(denyWrite := deny));
      }
    }
  }

  lemma DenyKeeps(fs: Fs, f: nat, deny: bool)
    requires Inv(fs) && f in fs.files && HasId(fs.open, fs.files[f].inode)
    ensures Inv(if deny then Deny(fs, f) else Allow(fs, f))
  {
    hide DirOk, CountsOk, OwnsOk, OwnedOk, RemovedOk, MarkedOk, FitsOk, NamedSet, OpenSet, PlaceOf, HasId;
    var i := PlaceOf(fs.open, fs.files[f].inode);
    PlaceFound(fs.open, fs.files[f].inode);
    var m := fs.open[i].(denyCnt := fs.open[i].denyCnt + if deny then 1 else -1);
    if fs.files[f].denyWrite == !deny {
      CountDenies(fs.open, fs.files, i, f, deny, fs.disk, fs.nextId);
      ChangeKeepsList(fs.open, fs.disk, fs.nextId, fs.dir, i, m);
    }
  }

  /** deny_write_cnt stays between zero and open_cnt. */
  lemma DenyBounds(fs: Fs, i: nat)
    requires Inv(fs) && i < |fs.open|
    ensures 0 <= fs.open[i].denyCnt <= fs.open[i].openCnt
  {
    hide DirOk, OpenOk, OwnsOk, OwnedOk, RemovedOk, MarkedOk, FitsOk, LiveSet;
    SubsetSize(Deniers(fs.files, fs.open[i].id), Users(fs.files, fs.open[i].id));
  }

  // ---- closing and removing -----------------------------------------------------------------------

  /** The sectors of a removed inode go back to the free map. */
  function Released(fs: Fs, m: MemInode): Fs {
    fs.(freeMap := SetRange(SetRange(fs.freeMap, m.sector, 1, false), m.data.start, m.data.sectors, false),
        owner := map x | x in fs.owner && fs.owner[x] != m.sector :: fs.owner[x])
  }

  /** list_remove */
  function DropAt(open: seq<MemInode>, i: nat): (r: seq<MemInode>)
    requires i < |open|
    ensures |r| == |open| - 1
  {
    seq(|open| - 1, j requires 0 <= j < |open| - 1 => if j < i then open[j] else open[j + 1])
  }

  /** inode_close */
  function ClosedInode(fs: Fs, i: nat): Fs
    requires i < |fs.open|
  {
    var m := fs.open[i];
    if m.openCnt - 1 != 0 then fs.(open := fs.open[i := m.(openCnt := m.openCnt - 1)])
    else
      var fs1 := fs.(open := DropAt(fs.open, i));
      if m.removed then Released(fs1, m) else fs1
  }

  /** file_close */
  function Close(fs: Fs, f: nat): Fs
    requires f in fs.files && HasId(fs.open, fs.files[f].inode)
  {
    var fs1 := Allow(fs, f);
    PlaceFound(fs.open, fs.files[f].inode);
    ClosedInode(fs1.(files := fs1.files - {f}), PlaceOf(fs.open, fs.files[f].inode))
  }

  /** filesys_remove, with dir_remove: open the inode, erase the entry, mark it removed, close it. */
  function Remove(fs: Fs, name: string): (Fs, bool)
    requires Inv(fs)
  {
    var i := Lookup(fs.dir, name);
    if i == |fs.dir| then (fs, false)
    else
      NamedOnDisk(fs, i);
      (Unnamed(fs, i), true)
  }

  function Unnamed(fs: Fs, i: nat): Fs
    requires i < |fs.dir| && fs.dir[i].Used? && fs.dir[i].sector in fs.disk
  {
    var fs1 := Opened(fs, fs.dir[i].sector).0;
    var j := FindOpen(fs.open, fs.dir[i].sector);
    var k := if j < |fs.open| then j else 0;
    var fs2 := fs1.(dir := fs.dir[i := Empty], open := fs1.open[k := fs1.open[k].(removed := true)]);
    ClosedInode(fs2, k)
  }

  lemma OneLess(open: seq<MemInode>, i: nat, disk: map<nat, DiskInode>, nextId: nat, dir: seq<Slot>)
    requires i < |open| && OpenOk(open, disk, nextId) && RemovedOk(open, dir)
    ensures OpenOk(DropAt(open, i), disk, nextId) && RemovedOk(DropAt(open, i), dir)
  {
    hide NamedSet, OpenSet;
  }

  lemma OneSectorLess(open: seq<MemInode>, i: nat, disk: map<nat, DiskInode>, nextId: nat)
    requires i < |open| && OpenOk(open, disk, nextId)
    ensures OpenSet(DropAt(open, i)) == OpenSet(open) - {open[i].sector}
  {
    hide DropAt, OpenSet, OpenOk;
    forall x ensures x in OpenSet(DropAt(open, i)) <==> x in OpenSet(open) - {open[i].sector} {
      SectorLess(open, i, disk, nextId, x);
    }
  }

  lemma InOpenSet(open: seq<MemInode>, x: nat)
    ensures x in OpenSet(open) <==> exists j :: 0 <= j < |open| && open[j].sector == x
  {
  }

  lemma DropIndex(open: seq<MemInode>, i: nat)
    requires i < |open|
    ensures var open' := DropAt(open, i);
            && (forall j | 0 <= j < i :: open'[j] == open[j])
            && (forall j | i < j < |open| :: open'[j - 1] == open[j])
            && (forall j | 0 <= j < |open'| :: open'[j] == if j < i then open[j] else open[j + 1])
  {
  }

  lemma SectorLess(open: seq<MemInode>, i: nat, disk: map<nat, DiskInode>, nextId: nat, x: nat)
    requires i < |open| && OpenOk(open, disk, nextId)
    ensures x in OpenSet(DropAt(open, i)) <==> x in OpenSet(open) && x != open[i].sector
  {
    hide DropAt, OpenSet;
    var open' := DropAt(open, i);
    DropIndex(open, i);
    InOpenSet(open, x);
    InOpenSet(open', x);
    if x in OpenSet(open) && x != open[i].sector {
      var j :| 0 <= j < |open| && open[j].sector == x;
      assert if j < i then open'[j].sector == x else open'[j - 1].sector == x;
    }
    if x in OpenSet(open') {
      var j :| 0 <= j < |open'| && open'[j].sector == x;
      var k := if j < i then j else j + 1;
      assert open[k].sector == x && k != i;
    }
  }

  /** An inode gives back what it owned. */
  lemma ReleaseOwns(live: set<nat>, disk: map<nat, DiskInode>, owner: map<nat, nat>, s: nat)
    requires OwnsOk(live, disk, owner) && OwnedOk(live, disk, owner)
    ensures var owner' := map x | x in owner && owner[x] != s :: owner[x];
            OwnsOk(live - {s}, disk, owner') && OwnedOk(live - {s}, disk, owner')
  {
  }

  lemma FootprintMarked(live: set<nat>, disk: map<nat, DiskInode>, owner: map<nat, nat>, freeMap: seq<bool>,
      other: set<nat>, s: nat, x: nat)
    requires OwnsOk(live, disk, owner) && MarkedOk(freeMap, owner, other) && s in live && InFootprint(s, disk[s], x)
    ensures x in owner && owner[x] == s && x < |freeMap| && freeMap[x]
  {
  }

  lemma ReleaseMarks(live: set<nat>, disk: map<nat, DiskInode>, owner: map<nat, nat>, freeMap: seq<bool>,
      other: set<nat>, s: nat)
    requires OwnsOk(live, disk, owner) && OwnedOk(live, disk, owner) && MarkedOk(freeMap, owner, other) && s in live
    ensures forall x: nat | InFootprint(s, disk[s], x) :: x < |freeMap| && freeMap[x]
    ensures var owner' := map x | x in owner && owner[x] != s :: owner[x];
            var freeMap' := SetRange(SetRange(freeMap, s, 1, false), disk[s].start, disk[s].sectors, false);
            |freeMap'| == |freeMap| && MarkedOk(freeMap', owner', other)
  {
    assert s in disk;
    hide OwnsOk, OwnedOk, MarkedOk, SetRange;
    forall x: nat | InFootprint(s, disk[s], x) ensures x < |freeMap| && freeMap[x] {
      FootprintMarked(live, disk, owner, freeMap, other, s, x);
    }
    var freeMap' := SetRange(SetRange(freeMap, s, 1, false), disk[s].start, disk[s].sectors, false);
    forall x: nat | x < |freeMap| ensures x in owner && owner[x] == s <==> InFootprint(s, disk[s], x) {
      OwnedIsFootprint(live, disk, owner, s, x);
    }
    ReleasedBits(freeMap, s, disk[s]);
    FewerMarked(freeMap, freeMap', owner, other, s);
  }

  lemma OwnedIsFootprint(live: set<nat>, disk: map<nat, DiskInode>, owner: map<nat, nat>, s: nat, x: nat)
    requires OwnsOk(live, disk, owner) && OwnedOk(live, disk, owner) && s in live && s in disk
    ensures x in owner && owner[x] == s <==> InFootprint(s, disk[s], x)
  {
  }

  lemma ReleasedBits(freeMap: seq<bool>, s: nat, data: DiskInode)
    ensures var freeMap' := SetRange(SetRange(freeMap, s, 1, false), data.start, data.sectors, false);
            |freeMap'| == |freeMap| && forall x: nat | x < |freeMap| ::
                freeMap'[x] <==> freeMap[x] && !InFootprint(s, data, x)
  {
  }

  lemma FewerMarked(freeMap: seq<bool>, freeMap': seq<bool>, owner: map<nat, nat>, other: set<nat>, s: nat)
    requires MarkedOk(freeMap, owner, other) && |freeMap'| == |freeMap|
    requires forall x: nat | x < |freeMap| :: freeMap'[x] <==> freeMap[x] && !(x in owner && owner[x] == s)
    ensures MarkedOk(freeMap', map x | x in owner && owner[x] != s :: owner[x], other)
  {
  }

  // ---- closing ------------------------------------------------------------------------------------

  lemma CountLoses(m: MemInode, files: map<nat, File>, f: nat)
    requires CountOk(m, files) && f in files && files[f] == File(m.id, false)
    ensures m.openCnt - 1 == |Users(files - {f}, m.id)| && m.denyCnt == |Deniers(files - {f}, m.id)|
  {
    assert Users(files - {f}, m.id) == Users(files, m.id) - {f};
    assert Deniers(files - {f}, m.id) == Deniers(files, m.id);
  }

  lemma CountForgets(m: MemInode, files: map<nat, File>, f: nat)
    requires CountOk(m, files) && (f in files ==> files[f].inode != m.id)
    ensures CountOk(m, files - {f})
  {
    assert Users(files - {f}, m.id) == Users(files, m.id);
    assert Deniers(files - {f}, m.id) == Deniers(files, m.id);
  }

  /** The file's inode keeps other users. */
  lemma CountCloses(open: seq<MemInode>, files: map<nat, File>, i: nat, f: nat, disk: map<nat, DiskInode>, nextId: nat)
    requires OpenOk(open, disk, nextId) && CountsOk(open, files) && i < |open| && f in files
             && files[f] == File(open[i].id, false)
    requires open[i].openCnt != 1
    ensures CountsOk(open[i := open[i].(openCnt := open[i].openCnt - 1)], files - {f})
  {
    hide HasId;
    var m := open[i].(openCnt := open[i].openCnt - 1);
    var open' := open[i := m];
    forall id ensures HasId(open', id) <==> HasId(open, id) {
      SameIds(open, i, m, id);
    }
    CountLoses(open[i], files, f);
    hide CountOk, Users, Deniers;
    forall j | 0 <= j < |open'| ensures CountOk(open'[j], files - {f}) {
      if j != i {
        CountForgets(open[j], files, f);
      }
    }
  }

  /** The file was the last user of its inode. */
  lemma CountEnds(open: seq<MemInode>, files: map<nat, File>, i: nat, f: nat, disk: map<nat, DiskInode>, nextId: nat)
    requires OpenOk(open, disk, nextId) && CountsOk(open, files) && i < |open| && f in files
             && files[f] == File(open[i].id, false)
    requires open[i].openCnt == 1
    ensures CountsOk(DropAt(open, i), files - {f})
  {
    hide CountOk;
    var open' := DropAt(open, i);
    forall j | 0 <= j < |open'| ensures CountOk(open'[j], files - {f}) {
      CountForgets(if j < i then open[j] else open[j + 1], files, f);
    }
    forall g | g in files && g != f ensures HasId(open', files[g].inode) {
      OnlyUser(open[i], files, f, g);
      var j :| 0 <= j < |open| && open[j].id == files[g].inode;
      assert j < i ==> open'[j].id == files[g].inode;
      assert j > i ==> open'[j - 1].id == files[g].inode;
    }
  }

  lemma OnlyUser(m: MemInode, files: map<nat, File>, f: nat, g: nat)
    requires CountOk(m, files) && m.openCnt == 1 && f in files && files[f].inode == m.id && g in files && g != f
    ensures files[g].inode != m.id
  {
    if files[g].inode == m.id {
      SubsetSize({f, g}, Users(files, m.id));
    }
  }

  /** Closing the last user of an inode: a removed one releases its sectors, and the
      assertions of free_map_release hold. */
  lemma EndKeeps(fs: Fs, i: nat, f: nat)
    requires Inv(fs) && i < |fs.open| && f in fs.files && fs.files[f] == File(fs.open[i].id, false)
             && fs.open[i].openCnt == 1
    ensures Inv(ClosedInode(fs.(files := fs.files - {f}), i))
    ensures fs.open[i].removed ==>
              var m := fs.open[i];
              AllAre(fs.freeMap, m.sector, 1, true)
              && AllAre(SetRange(fs.freeMap, m.sector, 1, false), m.data.start, m.data.sectors, true)
  {
    hide DirOk, CountsOk, OwnsOk, OwnedOk, MarkedOk, SetRange, NamedSet, OpenSet, DropAt;
    var m := fs.open[i];
    CountEnds(fs.open, fs.files, i, f, fs.disk, fs.nextId);
    OneLess(fs.open, i, fs.disk, fs.nextId, fs.dir);
    OneSectorLess(fs.open, i, fs.disk, fs.nextId);
    var fs' := ClosedInode(fs.(files := fs.files - {f}), i);
    assert m.sector in OpenSet(fs.open);
    if m.removed {
      assert LiveSet(fs') == LiveSet(fs) - {m.sector};
      ReleaseOwns(LiveSet(fs), fs.disk, fs.owner, m.sector);
      ReleaseMarks(LiveSet(fs), fs.disk, fs.owner, fs.freeMap, fs.reserved + fs.leaked, m.sector);
      OwnsApart(LiveSet(fs), fs.disk, fs.owner, fs.freeMap, m.sector);
    } else {
      assert LiveSet(fs') == LiveSet(fs);
    }
  }

  lemma OwnsApart(live: set<nat>, disk: map<nat, DiskInode>, owner: map<nat, nat>, freeMap: seq<bool>, s: nat)
    requires s in live && s in disk && FitsOk(disk, |freeMap|)
    requires forall x: nat | InFootprint(s, disk[s], x) :: x < |freeMap| && freeMap[x]
    ensures AllAre(freeMap, s, 1, true)
    ensures AllAre(SetRange(freeMap, s, 1, false), disk[s].start, disk[s].sectors, true)
  {
    assert InFootprint(s, disk[s], s);
    forall x: nat | disk[s].start <= x < disk[s].start + disk[s].sectors ensures x < |freeMap| && freeMap[x] {
      assert InFootprint(s, disk[s], x);
    }
  }

  lemma AllowKeepsPlace(fs: Fs, f: nat)
    requires Inv(fs) && f in fs.files && HasId(fs.open, fs.files[f].inode)
    ensures var fs1 := Allow(fs, f); var i := PlaceOf(fs.open, fs.files[f].inode);
            && Inv(fs1) && i < |fs1.open| && f in fs1.files && fs1.files[f] == File(fs1.open[i].id, false)
            && fs1.open[i].openCnt == fs.open[i].openCnt && fs1.open[i].removed == fs.open[i].removed
            && fs1.freeMap == fs.freeMap && fs1.open[i].sector == fs.open[i].sector
               && fs1.open[i].data == fs.open[i].data
  {
    hide Inv, PlaceOf, HasId;
    DenyKeeps(fs, f, false);
    PlaceFound(fs.open, fs.files[f].inode);
  }

  lemma CloseKeeps(fs: Fs, f: nat)
    requires Inv(fs) && f in fs.files && HasId(fs.open, fs.files[f].inode)
    ensures Inv(Close(fs, f))
  {
    hide DirOk, CountsOk, OwnsOk, OwnedOk, MarkedOk, FitsOk, RemovedOk, NamedSet, OpenSet, PlaceOf, HasId, Allow;
    AllowKeepsPlace(fs, f);
    PlaceFound(fs.open, fs.files[f].inode);
    var fs1, i := Allow(fs, f), PlaceOf(fs.open, fs.files[f].inode);
    if fs1.open[i].openCnt == 1 {
      EndKeeps(fs1, i, f);
    } else {
      CountCloses(fs1.open, fs1.files, i, f, fs1.disk, fs1.nextId);
      ChangeKeepsList(fs1.open, fs1.disk, fs1.nextId, fs1.dir, i, fs1.open[i].(openCnt := fs1.open[i].openCnt - 1));
    }
  }

  /** Sectors are released only by the last close of a removed inode. */
  lemma CloseReleases(fs: Fs, f: nat)
    requires Inv(fs) && f in fs.files && HasId(fs.open, fs.files[f].inode)
    ensures var m := fs.open[PlaceOf(fs.open, fs.files[f].inode)];
            if m.openCnt == 1 && m.removed
            then forall x: nat | x < |fs.freeMap| ::
                   x < |Close(fs, f).freeMap|
                       && (Close(fs, f).freeMap[x] <==> fs.freeMap[x] && !InFootprint(m.sector, m.data, x))
            else Close(fs, f).freeMap == fs.freeMap
  {
    hide Inv, PlaceOf, HasId, Allow, SetRange;
    AllowKeepsPlace(fs, f);
    PlaceFound(fs.open, fs.files[f].inode);
    var i := PlaceOf(fs.open, fs.files[f].inode);
    var m := fs.open[i];
    var fs1 := Allow(fs, f);
    assert Close(fs, f) == ClosedInode(fs1.(files := fs1.files - {f}), i);
    BothCleared(fs.freeMap, m.sector, m.data);
    if m.openCnt == 1 && m.removed {
      assert Close(fs, f).freeMap ==
          SetRange(SetRange(fs.freeMap, m.sector, 1, false), m.data.start, m.data.sectors, false);
    }
  }

  lemma BothCleared(freeMap: seq<bool>, s: nat, data: DiskInode)
    ensures var cleared := SetRange(SetRange(freeMap, s, 1, false), data.start, data.sectors, false);
            |cleared| == |freeMap| && forall x: nat | x < |freeMap| ::
                cleared[x] <==> freeMap[x] && !InFootprint(s, data, x)
  {
  }

  // ---- removing -------------------------------------------------------------------------------------

  lemma NameErased(dir: seq<Slot>, i: nat)
    requires DirOk(dir) && i < |dir| && dir[i].Used?
    ensures DirOk(dir[i := Empty]) && NamedSet(dir[i := Empty]) == NamedSet(dir) - {dir[i].sector}
  {
    var dir' := dir[i := Empty];
    forall x | x in NamedSet(dir) - {dir[i].sector} ensures x in NamedSet(dir') {
      var j :| 0 <= j < |dir| && dir[j].Used? && dir[j].sector == x;
      assert dir'[j] == dir[j];
    }
    forall x | x in NamedSet(dir') ensures x in NamedSet(dir) - {dir[i].sector} {
      var j :| 0 <= j < |dir'| && dir'[j].Used? && dir'[j].sector == x;
      assert dir[j] == dir'[j];
    }
  }

  /** Removing a file that is open: it loses its name and keeps its sectors. */
  lemma RemoveOpen(fs: Fs, name: string)
    requires Inv(fs) && Lookup(fs.dir, name) < |fs.dir|
    requires FindOpen(fs.open, fs.dir[Lookup(fs.dir, name)].sector) < |fs.open|
    ensures var i := Lookup(fs.dir, name); var j := FindOpen(fs.open, fs.dir[i].sector);
            Remove(fs, name).0 == fs.(dir := fs.dir[i := Empty], open := fs.open[j := fs.open[j].(removed := true)])
  {
    hide DirOk, OwnsOk, OwnedOk, MarkedOk, FitsOk, RemovedOk, NamedSet, OpenSet, OpenOk, FindOpen, Lookup, Users,
      Deniers;
    var i := Lookup(fs.dir, name);
    NamedOnDisk(fs, i);
    var j := FindOpen(fs.open, fs.dir[i].sector);
    var m := fs.open[j];
    assert CountOk(m, fs.files);
    assert fs.open[j := m.(openCnt := m.openCnt + 1)][j := m.(openCnt := m.openCnt + 1,
        removed := true)][j := m.(removed := true)]
           == fs.open[j := m.(removed := true)];
  }

  /** Removing a file that nobody has open releases its sectors at once. */
  lemma RemoveClosed(fs: Fs, name: string)
    requires Inv(fs) && Lookup(fs.dir, name) < |fs.dir|
    requires FindOpen(fs.open, fs.dir[Lookup(fs.dir, name)].sector) == |fs.open|
    ensures var i := Lookup(fs.dir, name); var s := fs.dir[i].sector;
            s in fs.disk &&
            Remove(fs, name).0 == Released(fs.(dir := fs.dir[i := Empty], nextId := fs.nextId + 1),
                                           MemInode(fs.nextId, s, 1, true, 0, fs.disk[s]))
  {
    hide DirOk, OwnsOk, OwnedOk, MarkedOk, FitsOk, RemovedOk, NamedSet, OpenSet, OpenOk, FindOpen, Lookup, CountsOk,
      SetRange;
    var i := Lookup(fs.dir, name);
    NamedOnDisk(fs, i);
    var s := fs.dir[i].sector;
    var m := MemInode(fs.nextId, s, 1, true, 0, fs.disk[s]);
    var open2 := ([m.(removed := false)] + fs.open)[0 := m];
    assert DropAt(open2, 0) == fs.open;
  }

  lemma MarkRemoved(open: seq<MemInode>, files: map<nat, File>, disk: map<nat, DiskInode>, nextId: nat, dir: seq<Slot>,
      i: nat, j: nat)
    requires OpenOk(open, disk, nextId) && CountsOk(open, files) && RemovedOk(open, dir) && DirOk(dir)
    requires i < |dir| && dir[i].Used? && j < |open| && open[j].sector == dir[i].sector
    ensures var open' := open[j := open[j].(removed := true)];
            OpenOk(open', disk, nextId) && CountsOk(open', files) && RemovedOk(open', dir[i := Empty])
                && OpenSet(open') == OpenSet(open)
  {
    hide NamedSet, OpenSet, Users, Deniers, HasId, DirOk;
    NameErased(dir, i);
    var m := open[j].(removed := true);
    SameSectors(open, j, m);
    forall id ensures HasId(open[j := m], id) <==> HasId(open, id) {
      SameIds(open, j, m, id);
    }
  }

  lemma RemoveKeeps(fs: Fs, name: string)
    requires Inv(fs)
    ensures Inv(Remove(fs, name).0)
  {
    hide DirOk, OwnsOk, OwnedOk, MarkedOk, FitsOk, RemovedOk, NamedSet, OpenSet, OpenOk, FindOpen, Lookup, CountsOk,
      SetRange, Remove;
    var i := Lookup(fs.dir, name);
    if i == |fs.dir| {
      RemoveMissing(fs, name);
    } else {
      NameErased(fs.dir, i);
      NamedOnDisk(fs, i);
      var s := fs.dir[i].sector;
      var j := FindOpen(fs.open, s);
      if j < |fs.open| {
        RemoveOpen(fs, name);
        MarkRemoved(fs.open, fs.files, fs.disk, fs.nextId, fs.dir, i, j);
        OpenHas(fs.open, j);
        assert LiveSet(Remove(fs, name).0) == LiveSet(fs);
      } else {
        RemoveClosed(fs, name);
        NotOpen(fs.open, fs.disk, fs.nextId, fs.dir, i);
        ReleaseOwns(LiveSet(fs), fs.disk, fs.owner, s);
        ReleaseMarks(LiveSet(fs), fs.disk, fs.owner, fs.freeMap, fs.reserved + fs.leaked, s);
        assert LiveSet(Remove(fs, name).0) == LiveSet(fs) - {s};
      }
    }
  }

  lemma RemoveMissing(fs: Fs, name: string)
    requires Inv(fs) && Lookup(fs.dir, name) == |fs.dir|
    ensures Remove(fs, name) == (fs, false)
  {
    hide Inv, Lookup;
  }

  lemma OpenHas(open: seq<MemInode>, j: nat)
    requires j < |open|
    ensures open[j].sector in OpenSet(open)
  {
  }

  lemma NotOpen(open: seq<MemInode>, disk: map<nat, DiskInode>, nextId: nat, dir: seq<Slot>, i: nat)
    requires OpenOk(open, disk, nextId) && RemovedOk(open, dir) && DirOk(dir) && i < |dir| && dir[i].Used?
    requires FindOpen(open, dir[i].sector) == |open|
    ensures dir[i].sector !in OpenSet(open) && OpenOk(open, disk, nextId + 1) && RemovedOk(open, dir[i := Empty])
  {
    hide DirOk, NamedSet;
    NameErased(dir, i);
  }

  // ---- runs -----------------------------------------------------------------------------------------

  datatype Op =
    | DoCreate(name: string, sectors: nat)
    | DoOpen(name: string, f: nat)
    | DoReopen(f: nat, g: nat)
    | DoDeny(f: nat)
    | DoAllow(f: nat)
    | DoClose(f: nat)
    | DoRemove(name: string)

  /** New files get new addresses, and operations on files are on open ones. */
  predicate Enabled(fs: Fs, op: Op) {
    match op
    case DoCreate(_, _) => true
    case DoOpen(_, f) => f !in fs.files
    case DoReopen(f, g) => f in fs.files && g !in fs.files
    case DoDeny(f) => f in fs.files
    case DoAllow(f) => f in fs.files
    case DoClose(f) => f in fs.files
    case DoRemove(_) => true
  }

  lemma FileHasInode(fs: Fs, f: nat)
    requires Inv(fs) && f in fs.files
    ensures HasId(fs.open, fs.files[f].inode)
  {
    hide HasId;
  }

  function Next(fs: Fs, op: Op): Fs
    requires Inv(fs) && Enabled(fs, op)
  {
    match op
    case DoCreate(name, sectors) => Create(fs, name, sectors).0
    case DoOpen(name, f) => Open(fs, name, f).0
    case DoReopen(f, g) => FileHasInode(fs, f); Reopen(fs, f, g)
    case DoDeny(f) => FileHasInode(fs, f); Deny(fs, f)
    case DoAllow(f) => FileHasInode(fs, f); Allow(fs, f)
    case DoClose(f) => FileHasInode(fs, f); Close(fs, f)
    case DoRemove(name) => Remove(fs, name).0
  }

  lemma NextKeeps(fs: Fs, op: Op)
    requires Inv(fs) && Enabled(fs, op)
    ensures Inv(Next(fs, op))
  {
    hide Inv, Create, Open, Reopen, Deny, Allow, Close, Remove, HasId;
    match op {
      case DoCreate(name, sectors) => CreateKeeps(fs, name, sectors);
      case DoOpen(name, f) => OpenKeeps(fs, name, f);
      case DoReopen(f, g) => FileHasInode(fs, f); ReopenKeeps(fs, f, g);
      case DoDeny(f) => FileHasInode(fs, f); DenyKeeps(fs, f, true);
      case DoAllow(f) => FileHasInode(fs, f); DenyKeeps(fs, f, false);
      case DoClose(f) => FileHasInode(fs, f); CloseKeeps(fs, f);
      case DoRemove(name) => RemoveKeeps(fs, name);
    }
  }

  ghost predicate Possible(fs: Fs, ops: seq<Op>)
    requires Inv(fs)
    decreases |ops|
  {
    ops != [] ==> Enabled(fs, ops[0]) && (NextKeeps(fs, ops[0]); Possible(Next(fs, ops[0]), ops[1..]))
  }

  function After(fs: Fs, ops: seq<Op>): (end: Fs)
    requires Inv(fs) && Possible(fs, ops)
    ensures Inv(end)
    decreases |ops|
  {
    if ops == [] then fs
    else
      NextKeeps(fs, ops[0]);
      After(Next(fs, ops[0]), ops[1..])
  }

  /** A formatted file system: only the free map and the root directory use sectors. */
  ghost predicate Formatted(fs: Fs) {
    && (forall i | 0 <= i < |fs.dir| :: fs.dir[i].Empty?) && fs.open == [] && fs.files == map[] && fs.disk == map[]
    && fs.owner == map[] && fs.leaked == {}
    && FREE_MAP_SECTOR in fs.reserved && ROOT_DIR_SECTOR in fs.reserved
    && (forall x | x in fs.reserved :: x < |fs.freeMap|)
    && (forall x: nat | x < |fs.freeMap| :: fs.freeMap[x] <==> x in fs.reserved)
  }

  lemma FormattedOk(fs: Fs)
    requires Formatted(fs)
    ensures Inv(fs)
  {
    assert LiveSet(fs) == {};
    assert MarkedOk(fs.freeMap, fs.owner, fs.reserved + fs.leaked);
  }

  ghost predicate RunFromFormat(fs: Fs, ops: seq<Op>) {
    Formatted(fs) && (FormattedOk(fs); Possible(fs, ops))
  }

  function Reached(fs: Fs, ops: seq<Op>): (end: Fs)
    requires RunFromFormat(fs, ops)
    ensures Inv(end)
  {
    FormattedOk(fs);
    After(fs, ops)
  }

  /** Over every run: live inodes have disjoint footprints, all marked in the free map; and
      what is marked is reserved, leaked by a failed creation, or in the footprint of a live
      inode. */
  lemma SectorsOwnedOnce(fs: Fs, ops: seq<Op>, s: nat, t: nat, x: nat)
    requires RunFromFormat(fs, ops) && s in LiveSet(Reached(fs, ops)) && t in LiveSet(Reached(fs, ops))
    ensures var end := Reached(fs, ops);
            && s in end.disk && t in end.disk
            && (InFootprint(s, end.disk[s], x) ==>
               x < |end.freeMap| && end.freeMap[x] && x !in end.reserved && x !in end.leaked)
            && (InFootprint(s, end.disk[s], x) && InFootprint(t, end.disk[t], x) ==> s == t)
  {
    hide Reached, RunFromFormat, DirOk, OpenOk, CountsOk, RemovedOk, LiveSet;
    var end := Reached(fs, ops);
    if InFootprint(s, end.disk[s], x) {
      FootprintMarked(LiveSet(end), end.disk, end.owner, end.freeMap, end.reserved + end.leaked, s, x);
    }
  }

  lemma MarkedIsOwned(fs: Fs, ops: seq<Op>, x: nat) returns (s: nat)
    requires RunFromFormat(fs, ops) && x < |Reached(fs, ops).freeMap| && Reached(fs, ops).freeMap[x]
    ensures var end := Reached(fs, ops);
            || x in end.reserved || x in end.leaked
            || (s in LiveSet(end) && s in end.disk && InFootprint(s, end.disk[s], x))
  {
    hide Reached, RunFromFormat, DirOk, OpenOk, CountsOk, RemovedOk, LiveSet;
    var end := Reached(fs, ops);
    s := if x in end.owner then end.owner[x] else 0;
  }

  /** One in-memory inode per sector, with 0 <= deny_write_cnt <= open_cnt. */
  lemma OneInodePerSector(fs: Fs, ops: seq<Op>, i: nat, j: nat)
    requires RunFromFormat(fs, ops) && i < |Reached(fs, ops).open| && j < |Reached(fs, ops).open|
    ensures var end := Reached(fs, ops);
            && (end.open[i].sector == end.open[j].sector ==> i == j)
            && 0 <= end.open[i].denyCnt <= end.open[i].openCnt
            && (end.open[i].removed <==> end.open[i].sector !in NamedSet(end.dir))
  {
    hide Reached, RunFromFormat, DirOk, CountsOk, OwnsOk, OwnedOk, MarkedOk, NamedSet;
    DenyBounds(Reached(fs, ops), i);
  }

  // ---- a leak -----------------------------------------------------------------------------------------

  /** The first n sectors are in use and no others. */
  ghost predicate UsedUpTo(freeMap: seq<bool>, n: nat) {
    n <= |freeMap| && forall x: nat | x < |freeMap| :: freeMap[x] <==> x < n
  }

  lemma ScanUpTo(freeMap: seq<bool>, n: nat, cnt: nat)
    requires UsedUpTo(freeMap, n) && cnt > 0 && n + cnt <= |freeMap|
    ensures Scan(freeMap, 0, cnt, false) == At(n) && UsedUpTo(SetRange(freeMap, n, cnt, true), n + cnt)
  {
    hide Scan;
    var r := Scan(freeMap, 0, cnt, false);
    assert AllAre(freeMap, n, cnt, false);
    assert r.At? && r.idx <= n;
    assert !freeMap[r.idx];
  }

  lemma CreateUpTo(fs: Fs, name: string, n: nat)
    requires UsedUpTo(fs.freeMap, n) && 0 < n && n + 2 <= |fs.freeMap|
    ensures var r := Create(fs, name, 1);
            |r.0.freeMap| == |fs.freeMap| &&
            if CanAdd(fs.dir, name) then
              && r.1 == Done && UsedUpTo(r.0.freeMap, n + 2) && r.0.dir == fs.dir[FreeSlot(fs.dir) := Used(name, n)]
              && r.0.leaked == fs.leaked
            else
              && r.1 == NotAdded && !r.0.freeMap[n] && r.0.freeMap[n + 1]
              && n + 1 in r.0.leaked && r.0.leaked == fs.leaked + Extent(n + 1, 1)
  {
    hide Scan, CanAdd, Give, Footprint, FreeSlot;
    ScanUpTo(fs.freeMap, n, 1);
    var map1 := SetRange(fs.freeMap, n, 1, true);
    ScanUpTo(map1, n + 1, 1);
    assert Undone(SetRange(map1, n + 1, 1, true), n) == SetRange(SetRange(map1, n + 1, 1, true), n, 1, false);
  }

  /** Eight sectors, of which the first two are in use, and a directory of two slots. */
  function EightSectors(): Fs {
    Fs([true, true, false, false, false, false, false, false], map[], [Empty, Empty], [], map[], 0, {0, 1}, {}, map[])
  }

  lemma FirstCreate()
    ensures Formatted(EightSectors()) && UsedUpTo(EightSectors().freeMap, 2) && CanAdd(EightSectors().dir, "a")
    ensures |EightSectors().freeMap| == 8
    ensures EightSectors().dir[FreeSlot(EightSectors().dir) := Used("a", 2)] == [Used("a", 2), Empty]
  {
  }

  lemma SecondCreate(dir: seq<Slot>)
    requires dir == [Used("a", 2), Empty]
    ensures !CanAdd(dir, "a")
  {
    assert Lookup(dir, "a") == 0;
  }

  /** Creating a file twice under one name: the second creation fails, and the data sector it
      allocated stays marked although no inode owns it. */
  lemma LeakingRun() returns (fs: Fs, op: Op, x: nat)
    ensures op.DoCreate? && op.sectors > 0 && RunFromFormat(fs, [op]) && RunFromFormat(fs, [op, op])
    ensures var once, twice := Reached(fs, [op]), Reached(fs, [op, op]);
            && Create(once, op.name, op.sectors) == (twice, NotAdded)
            && x in twice.leaked && x < |twice.freeMap| == |once.freeMap| && twice.freeMap[x] && !once.freeMap[x]
            && forall s | s in LiveSet(twice) :: s in twice.disk && !InFootprint(s, twice.disk[s], x)
  {
    hide Inv, Create, Formatted, CanAdd, EightSectors, LiveSet, Possible, After, FreeSlot, Extent;
    fs, op, x := EightSectors(), DoCreate("a", 1), 5;
    FirstCreate();
    FormattedOk(fs);
    CreateUpTo(fs, "a", 2);
    NextKeeps(fs, op);
    var once := Next(fs, op);
    SecondCreate(once.dir);
    CreateUpTo(once, "a", 4);
    NextKeeps(once, op);
    NoOps(once);
    RunsOne(fs, op, []);
    NoOps(Next(once, op));
    RunsOne(once, op, []);
    RunsOne(fs, op, [op] + []);
    assert [op] + [] == [op] && [op] + ([op] + []) == [op, op];
    forall s | s in LiveSet(Next(once, op))
      ensures s in Next(once, op).disk && !InFootprint(s, Next(once, op).disk[s], x)
    {
      SectorsOwnedOnce(fs, [op, op], s, s, x);
    }
  }

  lemma NoOps(fs: Fs)
    requires Inv(fs)
    ensures Possible(fs, []) && After(fs, []) == fs
  {
  }

  lemma RunsOne(fs: Fs, op: Op, ops: seq<Op>)
    requires Inv(fs) && Enabled(fs, op) && Inv(Next(fs, op)) && Possible(Next(fs, op), ops)
    ensures Possible(fs, [op] + ops) && After(fs, [op] + ops) == After(Next(fs, op), ops)
  {
    hide Inv, Next;
    assert ([op] + ops)[0] == op && ([op] + ops)[1..] == ops;
  }
}
