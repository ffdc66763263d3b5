/** The file system on the bytes of its disk, with the files that are open (pintos/src/filesys/inode.c, file.c,
    filesys.c): inodes are stored in their sectors, the root directory is the file that module Directory describes,
    data is transferred as module InodeIo does it, and sectors are owned as module FileSys keeps account of them. */
module Volumes {
  import opened Bitmaps
  import opened CStrings
  import Directory
  import opened FileSys
  import opened InodeIo
  import opened Options
  import opened Words

  type Bytes = seq<Byte>

  // ----- inodes on disk

  const INODE_MAGIC: Word := 0x494e4f44

  function Zeros(n: nat): (z: Bytes)
    ensures |z| == n && forall i :: 0 <= i < n ==> z[i] == 0
  {
    seq(n, _ => 0)
  }

  /** Sector numbers have 32 bits and file offsets 31. */
  predicate Storable(x: DiskInode) { x.start < 0x1_0000_0000 && x.length < 0x8000_0000 }

  function InodeSector(x: DiskInode): (b: Bytes)
    requires Storable(x)
    ensures |b| == SECTOR_SIZE
  {
    WordBytes(x.start) + WordBytes(x.length) + WordBytes(INODE_MAGIC) + Zeros(SECTOR_SIZE - 12)
  }

  function InodeAt(d: Bytes, s: nat): DiskInode
    requires SECTOR_SIZE * s + SECTOR_SIZE <= |d|
  {
    DiskInode(WordAt(d, SECTOR_SIZE * s), WordAt(d, SECTOR_SIZE * s + 4))
  }

  /** The sector's layout: where the data starts, how long it is, the magic number, and zeros */
  lemma {:induction false} InodeLayout(x: DiskInode)
    requires Storable(x)
    ensures var b := InodeSector(x);
      && WordAt(b, 0) == x.start && WordAt(b, 4) == x.length && WordAt(b, 8) == 0x494e4f44
      && forall i :: 12 <= i < SECTOR_SIZE ==> b[i] == 0
  {
    var b := InodeSector(x);
    assert b[0..4] == WordBytes(x.start) && b[4..8] == WordBytes(x.length) && b[8..12] == WordBytes(INODE_MAGIC);
    ReadWord(b, 0, x.start);
    ReadWord(b, 4, x.length);
    ReadWord(b, 8, INODE_MAGIC);
  }

  lemma {:induction false} InodeReadsBack(d: Bytes, s: nat, x: DiskInode)
    requires Storable(x) && SECTOR_SIZE * s + SECTOR_SIZE <= |d|
    requires d[SECTOR_SIZE * s..SECTOR_SIZE * s + SECTOR_SIZE] == InodeSector(x)
    ensures InodeAt(d, s) == x
  {
    var o, b := SECTOR_SIZE * s, InodeSector(x);
    assert b[0..4] == WordBytes(x.start) && b[4..8] == WordBytes(x.length);
    SubSlice(d, o, o + SECTOR_SIZE, 0, 4);
    SubSlice(d, o, o + SECTOR_SIZE, 4, 8);
    ReadWord(d, o, x.start);
    ReadWord(d, o + 4, x.length);
  }

  lemma {:induction false} InodeKept(d: Bytes, d': Bytes, s: nat)
    requires SECTOR_SIZE * s + SECTOR_SIZE <= |d| == |d'|
    requires d'[SECTOR_SIZE * s..SECTOR_SIZE * s + SECTOR_SIZE] == d[SECTOR_SIZE * s..SECTOR_SIZE * s + SECTOR_SIZE]
    ensures InodeAt(d', s) == InodeAt(d, s)
  {
    var o := SECTOR_SIZE * s;
    forall i | o <= i < o + SECTOR_SIZE ensures d'[i] == d[i] {
      assert d'[o..o + SECTOR_SIZE][i - o] == d[o..o + SECTOR_SIZE][i - o];
    }
  }

  /** Byte i of the disk is in the inode or the data's sectors of a file. */
  predicate InFile(s: nat, x: DiskInode, i: nat) {
    SECTOR_SIZE * s <= i < SECTOR_SIZE * s + SECTOR_SIZE
      || SECTOR_SIZE * x.start <= i < SECTOR_SIZE * (x.start + SectorCount(x.length))
  }

  /** What inode_create leaves on the disk: the inode in sector s, zeros in the data's sectors, and the rest as it
      was */
  ghost predicate Initialised(d: Bytes, d': Bytes, s: nat, x: DiskInode) {
    && |d'| == |d| && SECTOR_SIZE * s + SECTOR_SIZE <= |d| && Fits(x, |d|)
    && InodeAt(d', s) == x && FileBytes(x, d') == Zeros(x.length)
    && forall i :: 0 <= i < |d| && !InFile(s, x, i) ==> d'[i] == d[i]
  }

  method ZeroSectors(disk: array<Byte>, start: nat, cnt: nat)
    requires SECTOR_SIZE * (start + cnt) <= disk.Length
    modifies disk
    ensures Written(old(disk[..]), disk[..], SECTOR_SIZE * start, Zeros(SECTOR_SIZE * cnt))
  {
    var i := 0;
    while i < cnt
      invariant i <= cnt && Written(old(disk[..]), disk[..], SECTOR_SIZE * start, Zeros(SECTOR_SIZE * i))
    {
      BlockWrite(disk, start + i, Zeros(SECTOR_SIZE));
      i := i + 1;
    }
  }

  /** inode_create, once it has its sectors */
  method InodeCreate(disk: array<Byte>, s: nat, x: DiskInode)
    requires Storable(x) && SECTOR_SIZE * s + SECTOR_SIZE <= disk.Length && Fits(x, disk.Length) && !InExtent(x, s)
    modifies disk
    ensures Initialised(old(disk[..]), disk[..], s, x)
  {
    ghost var d := disk[..];
    BlockWrite(disk, s, InodeSector(x));
    ghost var d1 := disk[..];
    ZeroSectors(disk, x.start, SectorCount(x.length));
    InodeWritten(d, d1, disk[..], s, x);
  }

  lemma {:induction false} InodeWritten(d: Bytes, d1: Bytes, d2: Bytes, s: nat, x: DiskInode)
    requires Storable(x) && SECTOR_SIZE * s + SECTOR_SIZE <= |d| && Fits(x, |d|) && !InExtent(x, s)
    requires Written(d, d1, SECTOR_SIZE * s, InodeSector(x))
    requires Written(d1, d2, SECTOR_SIZE * x.start, Zeros(SECTOR_SIZE * SectorCount(x.length)))
    ensures Initialised(d, d2, s, x)
  {
    var o := SECTOR_SIZE * s;
    assert d2[o..o + SECTOR_SIZE] == InodeSector(x);
    InodeReadsBack(d2, s, x);
    assert FileBytes(x, d2) == Zeros(x.length);
  }

  // ----- the disk as a whole

  ghost predicate InodeStored(fs: Fs, d: Bytes, s: nat) {
    s in fs.inodes && SECTOR_SIZE * s + SECTOR_SIZE <= |d| && InodeAt(d, s) == fs.inodes[s]
  }

  ghost predicate IsDirectory(x: DiskInode, d: Bytes, dir: map<Name, nat>) {
    && Fits(x, |d|) && x.length == Directory.ENTRY * DIR_ENTRIES
    && var ss := Directory.Slots(FileBytes(x, d)); Directory.DirOk(ss) && Directory.Names(ss) == dir
  }

  /** The inodes of all live files are on the disk, and the root directory's bytes are its names. */
  ghost predicate DiskOk(fs: Fs, d: Bytes) {
    && |d| == SECTOR_SIZE * |fs.used| && (forall s: nat | Live(fs, s) :: InodeStored(fs, d, s))
    && ROOT_DIR_SECTOR in fs.inodes && IsDirectory(fs.inodes[ROOT_DIR_SECTOR], d, fs.dir)
  }

  /** The file at sector t has its bytes still. */
  ghost predicate DataSame(fs: Fs, d: Bytes, d': Bytes, t: nat) {
    t in fs.inodes && |d'| == |d| && Fits(fs.inodes[t], |d|)
      && FileBytes(fs.inodes[t], d') == FileBytes(fs.inodes[t], d)
  }

  ghost predicate OtherFilesSame(fs: Fs, d: Bytes, d': Bytes, s: nat) {
    forall t: nat | Live(fs, t) && t != s :: DataSame(fs, d, d', t)
  }

  /** The same disk goes with a state that has the same inodes and names, and no new files. */
  lemma {:induction false} SameDisk(fs: Fs, fs': Fs, d: Bytes)
    requires DiskOk(fs, d) && |fs'.used| == |fs.used| && fs'.inodes == fs.inodes && fs'.dir == fs.dir
    requires forall s: nat | Live(fs', s) :: Live(fs, s)
    ensures DiskOk(fs', d)
  {
    forall s: nat | Live(fs', s) ensures InodeStored(fs', d, s) { assert Live(fs, s) && InodeStored(fs, d, s); }
  }

  /** A write to the data of a file other than the root directory */
  lemma {:induction false} DiskWritten(fs: Fs, d: Bytes, d': Bytes, s: nat)
    requires Inv(fs) && DiskOk(fs, d) && WriteTo(fs, d, d', s) && s != ROOT_DIR_SECTOR
    ensures DiskOk(fs, d')
  {
    forall t: nat | Live(fs, t) ensures InodeStored(fs, d', t) {
      assert InodeStored(fs, d, t);
      InodesKept(fs, d, d', s, t);
      InodeKept(d, d', t);
    }
    DataKept(fs, d, d', s, ROOT_DIR_SECTOR);
  }

  /** A write to the root directory keeps every inode, and the bytes of every other live file. */
  lemma {:induction false} RootWritten(fs: Fs, d: Bytes, d': Bytes, t: nat)
    requires Inv(fs) && WriteTo(fs, d, d', ROOT_DIR_SECTOR) && Live(fs, t) && InodeStored(fs, d, t)
    ensures InodeStored(fs, d', t) && (t != ROOT_DIR_SECTOR ==> DataSame(fs, d, d', t))
  {
    InodesKept(fs, d, d', ROOT_DIR_SECTOR, t);
    InodeKept(d, d', t);
    if t != ROOT_DIR_SECTOR { DataKept(fs, d, d', ROOT_DIR_SECTOR, t); }
  }

  lemma {:induction false} FreeSectors(fs: Fs, s: nat, x: DiskInode, t: nat)
    requires SpaceOk(fs) && Allocated(fs.used, s, x) && Live(fs, t)
    ensures t in fs.inodes && t != s && !InExtent(x, t)
    ensures forall b: nat | InExtent(fs.inodes[t], b) :: b != s && !InExtent(x, b)
  {
    ExtentInMap(fs, t);
    LostUsed(fs, s, x, t);
    forall b: nat | InExtent(fs.inodes[t], b) ensures b != s && !InExtent(x, b) { LostUsed(fs, s, x, b); }
  }

  /** What inode_create writes to free sectors changes no live file's inode and no live file's bytes. */
  lemma {:induction false} InitialisedKeeps(fs: Fs, d: Bytes, d': Bytes, s: nat, x: DiskInode, t: nat)
    requires SpaceOk(fs) && |d| == SECTOR_SIZE * |fs.used| && Allocated(fs.used, s, x) && Initialised(d, d', s, x)
    requires Live(fs, t) && InodeStored(fs, d, t)
    ensures InodeStored(fs, d', t) && DataSame(fs, d, d', t)
  {
    ExtentInMap(fs, t);
    FreeSectors(fs, s, x, t);
    var o, y := SECTOR_SIZE * t, fs.inodes[t];
    forall i | o <= i < o + SECTOR_SIZE ensures d'[i] == d[i] { NotInFile(s, x, t, i); }
    InodeKept(d, d', t);
    var a := SECTOR_SIZE * y.start;
    forall i | a <= i < a + y.length ensures d'[i] == d[i] {
      assert InExtent(y, i / SECTOR_SIZE);
      NotInFile(s, x, i / SECTOR_SIZE, i);
    }
  }

  lemma {:induction false} NotInFile(s: nat, x: DiskInode, b: nat, i: nat)
    requires b != s && !InExtent(x, b) && SECTOR_SIZE * b <= i < SECTOR_SIZE * b + SECTOR_SIZE
    ensures !InFile(s, x, i)
  {
  }

  // ----- the root directory

  lemma {:induction false} NoNames(x: DiskInode, d: Bytes)
    requires Fits(x, |d|) && x.length == Directory.ENTRY * DIR_ENTRIES && FileBytes(x, d) == Zeros(x.length)
    ensures IsDirectory(x, d, map[])
  {
    var ss := Directory.Slots(FileBytes(x, d));
    forall k | 0 <= k < |ss| ensures !Directory.InUse(ss[k]) { assert ss[k][19] == 0; }
    assert Directory.Names(ss) == map[];
  }

  method Lookup(disk: array<Byte>, root: DiskInode, n: Name, ghost dir: map<Name, nat>) returns (r: Option<nat>)
    requires IsDirectory(root, disk[..], dir)
    ensures r == if n in dir then Some(dir[n]) else None
  {
    var d := new Directory.Dir(Inode(ROOT_DIR_SECTOR, 1, false, 0, root));
    var k := d.Lookup(disk, n);
    if k.None? { return None; }
    var e := d.ReadEntry(disk, k.value);
    return Some(Directory.SectorOf(e.value));
  }

  method AddName(disk: array<Byte>, root: DiskInode, n: Name, s: Word, ghost dir: map<Name, nat>) returns (ok: bool)
    requires IsDirectory(root, disk[..], dir) && NulFree(n)
    modifies disk
    ensures ok <==> Acceptable(dir, n)
    ensures IsDirectory(root, disk[..], if ok then dir[n := s] else dir)
    ensures SameOutside(old(disk[..]), disk[..], SECTOR_SIZE * root.start, SECTOR_SIZE * root.start + root.length)
  {
    var d := new Directory.Dir(Inode(ROOT_DIR_SECTOR, 1, false, 0, root));
    Directory.RoomIff(d.Entries(disk));
    ok := d.Add(disk, n, s);
  }

  method RemoveName(disk: array<Byte>, root: DiskInode, n: Name, ghost dir: map<Name, nat>) returns (r: Option<nat>)
    requires IsDirectory(root, disk[..], dir)
    modifies disk
    ensures r == if n in dir then Some(dir[n]) else None
    ensures IsDirectory(root, disk[..], dir - {n})
    ensures SameOutside(old(disk[..]), disk[..], SECTOR_SIZE * root.start, SECTOR_SIZE * root.start + root.length)
  {
    var d := new Directory.Dir(Inode(ROOT_DIR_SECTOR, 1, false, 0, root));
    r := d.Remove(disk, n);
    assert r.None? ==> dir - {n} == dir;
  }

  // ----- open files

  /** struct file, with the sector of its inode */
  datatype OpenFile = OpenFile(sector: nat, pos: nat, denyWrite: bool)

  type Files = seq<Option<OpenFile>>

  /** What a file counts for with the inode at s: as open, or as denying writes */
  function Counts(x: Option<OpenFile>, s: nat, denying: bool): nat {
    if x.Some? && x.value.sector == s && (denying ==> x.value.denyWrite) then 1 else 0
  }

  /** How many files of the inode at s are open, or deny writing */
  function Tally(files: Files, s: nat, denying: bool): nat {
    if files == [] then 0
    else Tally(files[..|files| - 1], s, denying) + Counts(files[|files| - 1], s, denying)
  }

  lemma {:induction false} TallyAppend(files: Files, x: Option<OpenFile>, s: nat, denying: bool)
    ensures Tally(files + [x], s, denying) == Tally(files, s, denying) + Counts(x, s, denying)
  {
    assert (files + [x])[..|files|] == files;
  }

  lemma {:induction false} TallyUpdate(files: Files, h: nat, x: Option<OpenFile>, s: nat, denying: bool)
    requires h < |files|
    ensures Tally(files[h := x], s, denying) + Counts(files[h], s, denying) == Tally(files, s, denying) + Counts(x, s,
      denying)
  {
    var n := |files| - 1;
    if h < n {
      TallyUpdate(files[..n], h, x, s, denying);
      assert files[h := x][..n] == files[..n][h := x];
    } else {
      assert files[h := x][..n] == files[..n];
    }
  }

  predicate Denies(x: Option<OpenFile>, s: nat) { x.Some? && x.value.sector == s && x.value.denyWrite }

  /** Some open file of the inode at s denies writing. */
  ghost predicate DeniedBySome(files: Files, s: nat) {
    exists h :: 0 <= h < |files| && Denies(files[h], s)
  }

  lemma {:induction false} TallyDenied(files: Files, s: nat)
    ensures Tally(files, s, true) > 0 <==> DeniedBySome(files, s)
  {
    if files != [] {
      TallyDenied(files[..|files| - 1], s);
      DeniedByLast(files, s);
    }
  }

  lemma {:induction false} DeniedByLast(files: Files, s: nat)
    requires files != []
    ensures DeniedBySome(files, s) <==> DeniedBySome(files[..|files| - 1], s) || Denies(files[|files| - 1], s)
  {
    var n := |files| - 1;
    if DeniedBySome(files[..n], s) {
      var h :| 0 <= h < n && Denies(files[..n][h], s);
      assert Denies(files[h], s);
    }
    if DeniedBySome(files, s) {
      var h :| 0 <= h < |files| && Denies(files[h], s);
      if h < n { assert Denies(files[..n][h], s); }
    }
  }

  lemma {:induction false} TallyBound(files: Files, s: nat)
    ensures Tally(files, s, true) <= Tally(files, s, false)
  {
    if files != [] { TallyBound(files[..|files| - 1], s); }
  }

  lemma {:induction false} TallyHas(files: Files, h: nat)
    requires h < |files| && files[h].Some?
    ensures var s := files[h].value.sector;
      && Tally(files, s, false) > 0 && (files[h].value.denyWrite ==> Tally(files, s, true) > 0)
      && (!files[h].value.denyWrite ==> Tally(files, s, true) < Tally(files, s, false))
  {
    var n := |files| - 1;
    if h < n {
      assert files[..n][h] == files[h];
      TallyHas(files[..n], h);
    } else {
      TallyBound(files[..n], files[h].value.sector);
    }
  }

  /** The file system's accounts of the inode at s are those of its open files; the free map file is open besides. */
  ghost predicate TableAt(fs: Fs, files: Files, s: nat) {
    && fs.handles[s] == Tally(files, s, false) + (if s == FREE_MAP_SECTOR then 1 else 0)
    && fs.denied[s] == Tally(files, s, true)
  }

  ghost predicate TableOk(fs: Fs, files: Files) {
    && (forall s: nat :: TableAt(fs, files, s))
    && forall h :: 0 <= h < |files| && files[h].Some? ==> files[h].value.sector >= 2
  }

  lemma {:induction false} SameTable(fs: Fs, fs': Fs, files: Files)
    requires TableOk(fs, files) && fs'.handles == fs.handles && fs'.denied == fs.denied
    ensures TableOk(fs', files)
  {
    forall s: nat ensures TableAt(fs', files, s) { assert TableAt(fs, files, s); }
  }

  /** An inode's deny_write_cnt is positive exactly if some open file of it denies writing. */
  lemma {:induction false} DenialsCounted(fs: Fs, files: Files, h: nat)
    requires Inv(fs) && TableOk(fs, files) && h < |files| && files[h].Some?
    ensures var s := files[h].value.sector;
      && s >= 2 && s in fs.handles && s in fs.open && s in fs.inodes && fs.open[s].data == fs.inodes[s]
      && (fs.open[s].denyCnt > 0 <==> DeniedBySome(files, s))
  {
    var s := files[h].value.sector;
    TallyHas(files, h);
    TallyDenied(files, s);
    assert TableAt(fs, files, s);
    assert InodeOk(fs, s);
  }

  // ----- the operations

  ghost predicate VolumeOk(fs: Fs, files: Files, d: Bytes) { Inv(fs) && TableOk(fs, files) && DiskOk(fs, d) }

  class Volume {
    const fs: FileSystem
    const disk: array<Byte>
    var files: Files

    ghost predicate Shape()
      reads this, fs, fs.freeMap.bits, disk
    {
      (disk as object) != fs.freeMap.bits && fs.freeMap.Valid() && fs.freeMap.bitCnt < 0x1_0000_0000
        && DistinctSectors(fs.open)
    }

    ghost predicate Valid()
      reads this, fs, fs.freeMap.bits, disk
    {
      Shape() && VolumeOk(fs.State(), files, disk[..])
    }

    /** The file that h stands for */
    ghost predicate IsOpen(h: nat)
      reads this
    {
      h < |files| && files[h].Some?
    }

    constructor (fs: FileSystem, disk: array<Byte>)
      requires (disk as object) != fs.freeMap.bits && fs.Valid() && fs.freeMap.bitCnt < 0x1_0000_0000
      requires IsFormatted(fs.State()) && DiskOk(fs.State(), disk[..])
      ensures Valid() && this.fs == fs && this.disk == disk && files == []
    {
      this.fs, this.disk, files := fs, disk, [];
    }

    /** filesys_init with formatting */
    static method Format(disk: array<Byte>, blocks: nat) returns (r: Option<Volume>)
      requires 2 <= blocks < 0x1_0000_0000 && disk.Length == SECTOR_SIZE * blocks
      modifies disk
      ensures r.Some? <==> 3 + SectorCount(FreeMapBytes(blocks)) <= blocks
      ensures r.Some? ==> fresh(r.value) && fresh(r.value.fs) && r.value.disk == disk && r.value.Valid()
      ensures r.Some? ==> r.value.files == [] && r.value.fs.dir == map[]
    {
      var made := FileSystem.Format(blocks);
      if made.None? { return None; }
      var fs := made.value;
      ghost var d := disk[..];
      FormatReady(fs.State());
      InodeCreate(disk, FREE_MAP_SECTOR, fs.inodes[FREE_MAP_SECTOR]);
      ghost var d1 := disk[..];
      InodeCreate(disk, ROOT_DIR_SECTOR, fs.inodes[ROOT_DIR_SECTOR]);
      FormattedDisk(fs.State(), d, d1, disk[..]);
      var v := new Volume(fs, disk);
      return Some(v);
    }

    /** inode_read_at at the position of file h, which moves on */
    method Fetch(h: nat, size: int) returns (buffer: seq<Byte>)
      requires Shape() && IsOpen(h) && files[h].value.sector in Table(fs.open)
        && On(Table(fs.open)[files[h].value.sector].data, disk)
      modifies this`files
      ensures Shape() && fs.State() == old(fs.State()) && files == Moved(old(files), h, |buffer|)
      ensures var OpenFile(s, pos, _) := old(files)[h].value;
        InodeRead(Table(fs.open)[s].data, pos, size, disk[..], buffer)
    {
      var k := fs.FindOpen(files[h].value.sector);
      buffer := ReadAt(fs.open[k.value], disk, size, files[h].value.pos);
      files := Moved(files, h, |buffer|);
    }

    /** inode_write_at at the position of file h, which moves on */
    method Store(h: nat, buffer: seq<Byte>) returns (n: nat)
      requires Shape() && IsOpen(h) && files[h].value.sector in Table(fs.open)
        && On(Table(fs.open)[files[h].value.sector].data, disk)
      modifies this`files, disk
      ensures Shape() && fs.State() == old(fs.State()) && files == Moved(old(files), h, n)
      ensures var OpenFile(s, pos, _) := old(files)[h].value; var i := Table(fs.open)[s];
        InodeWrite(i.data, i.denyCnt > 0, pos, buffer, old(disk[..]), disk[..], n)
    {
      var k := fs.FindOpen(files[h].value.sector);
      n := WriteAt(fs.open[k.value], disk, buffer, files[h].value.pos);
      files := Moved(files, h, n);
    }

    /** file_read: the bytes at the file's position, as far as there are any */
    method Read(h: nat, size: int) returns (buffer: seq<Byte>)
      requires Valid() && IsOpen(h)
      modifies this`files
      ensures Valid() && fs.State() == old(fs.State())
      ensures ReadEffect(fs.State(), old(files), h, size, disk[..], buffer, files)
    {
      FileReady(fs.State(), files, h);
      buffer := Fetch(h, size);
      MoveInFile(fs.State(), old(files), h, |buffer|);
    }

    /** file_write: nothing while some open file of the same inode denies writing; otherwise as many bytes as the
        file has room for, and no other live file's bytes change. */
    method Write(h: nat, buffer: seq<Byte>) returns (n: nat)
      requires Valid() && IsOpen(h)
      modifies this`files, disk
      ensures Valid() && fs.State() == old(fs.State())
      ensures WriteEffect(fs.State(), old(files), h, buffer, old(disk[..]), disk[..], n, files)
    {
      FileReady(fs.State(), files, h);
      n := Store(h, buffer);
      WriteDone(fs.State(), old(files), h, buffer, old(disk[..]), disk[..], n);
    }

    /** file_deny_write: however often a file denies writing it counts once. */
    method DenyWrite(h: nat)
      requires Valid() && IsOpen(h)
      modifies this`files, fs
      ensures Valid() && files == Denying(old(files), h, true)
    {
      if files[h].value.denyWrite { SameFlag(files, h); } else { Deny(h); }
    }

    method Deny(h: nat)
      requires Valid() && IsOpen(h) && !files[h].value.denyWrite
      modifies this`files, fs
      ensures Valid() && files == Denying(old(files), h, true)
    {
      DenyDone(fs.State(), files, h, disk[..]);
      SetDeny(h, true);
    }

    /** file_allow_write: the assertions of inode_allow_write hold, whichever files are open. */
    method AllowWrite(h: nat)
      requires Valid() && IsOpen(h)
      modifies this`files, fs
      ensures Valid() && files == Denying(old(files), h, false)
    {
      if files[h].value.denyWrite { Allow(h); } else { SameFlag(files, h); }
    }

    method Allow(h: nat)
      requires Valid() && IsOpen(h) && files[h].value.denyWrite
      modifies this`files, fs
      ensures Valid() && files == Denying(old(files), h, false)
    {
      AllowDone(fs.State(), files, h, disk[..]);
      SetDeny(h, false);
    }

    method SetDeny(h: nat, deny: bool)
      requires Shape() && IsOpen(h) && files[h].value.sector in Table(fs.open)
      requires !deny ==> Table(fs.open)[files[h].value.sector].denyCnt > 0
      modifies this`files, fs
      ensures Shape() && files == Denying(old(files), h, deny)
      ensures var s := old(files)[h].value.sector;
        fs.State() == if deny then Denied(old(fs.State()), s) else Allowed(old(fs.State()), s)
    {
      fs.SetDenyCnt(files[h].value.sector, deny);
      files := Denying(files, h, deny);
    }

    /** file_reopen: a new file for the same inode, at its beginning and not denying writes */
    method Reopen(h: nat) returns (r: nat)
      requires Valid() && IsOpen(h)
      modifies this`files, fs
      ensures Valid() && r == |old(files)|
        && files == old(files) + [Some(OpenFile(old(files)[h].value.sector, 0, false))]
    {
      FileReady(fs.State(), files, h);
      OpenDone(fs.State(), files, files[h].value.sector, disk[..]);
      r := OpenInode(files[h].value.sector);
    }

    /** inode_open or inode_reopen, and file_open */
    method OpenInode(s: nat) returns (r: nat)
      requires Shape() && s in fs.inodes
      modifies this`files, fs
      ensures Shape() && fs.State() == Opened(old(fs.State()), s)
      ensures r == |old(files)| && files == old(files) + [Some(OpenFile(s, 0, false))]
    {
      fs.InodeOpen(s);
      r := |files|;
      files := files + [Some(OpenFile(s, 0, false))];
    }

    /** filesys_open: the directory's bytes are searched for the name. */
    method Open(n: Name) returns (r: Option<nat>)
      requires Valid()
      modifies this`files, fs, fs.freeMap.bits
      ensures Valid() && (r == if n in old(fs.dir) then Some(|old(files)|) else None)
      ensures files == old(files) + if r.Some? then [Some(OpenFile(old(fs.dir)[n], 0, false))] else []
      ensures r.Some? ==> old(fs.dir)[n] in old(fs.inodes)
      ensures fs.State() == if r.Some? then Opened(old(fs.State()), old(fs.dir)[n]) else old(fs.State())
    {
      var found := FindName(n);
      if found.None? { return None; }
      NameDone(fs.State(), files, n, disk[..]);
      r := OpenNamed(n, found.value);
    }

    /** dir_lookup in the root directory */
    method FindName(n: Name) returns (r: Option<nat>)
      requires Valid()
      ensures r == if n in fs.dir then Some(fs.dir[n]) else None
    {
      RootOnDisk(fs.State(), files, disk[..]);
      r := Lookup(disk, InodeAt(disk[..], ROOT_DIR_SECTOR), n, fs.dir);
    }

    method OpenNamed(n: Name, s: nat) returns (r: Option<nat>)
      requires Shape() && Inv(fs.State()) && n in fs.dir && fs.dir[n] == s && s in fs.inodes
      modifies this`files, fs, fs.freeMap.bits
      ensures Shape() && fs.State() == Opened(old(fs.State()), s)
      ensures r == Some(|old(files)|) && files == old(files) + [Some(OpenFile(s, 0, false))]
    {
      var sector := fs.OpenFile(n);
      assert sector == Some(s);
      r := Some(|files|);
      files := files + [Some(OpenFile(s, 0, false))];
    }

    /** filesys_create: a file that is created is all zeros, and whatever happens the bytes of every live file but the
        directory stay. */
    method Create(n: Name, length: nat) returns (ok: bool, place: Option<(nat, DiskInode)>)
      requires Valid() && NulFree(n) && length < 0x8000_0000
      modifies fs, fs.freeMap.bits, disk
      ensures Valid() && files == old(files) && Placed(old(fs.freeMap.Contents()), length, place)
      ensures ok <==> place.Some? && Acceptable(old(fs.dir), n)
      ensures fs.State() == CreateEffect(old(fs.State()), n, place)
      ensures OtherFilesSame(old(fs.State()), old(disk[..]), disk[..], ROOT_DIR_SECTOR)
      ensures ok ==> Fits(place.value.1, disk.Length) && FileBytes(place.value.1, disk[..]) == Zeros(length)
    {
      RootOnDisk(fs.State(), files, disk[..]);
      ghost var d1;
      ok, place, d1 := CreateAt(n, length, InodeAt(disk[..], ROOT_DIR_SECTOR));
      if place.Some? {
        CreateDone(old(fs.State()), files, n, length, place.value, old(disk[..]), d1, disk[..]);
      } else {
        AllSame(old(fs.State()), disk[..]);
      }
    }

    method CreateAt(n: Name, length: nat, root: DiskInode)
      returns (ok: bool, place: Option<(nat, DiskInode)>, ghost d1: Bytes)
      requires Shape() && Inv(fs.State()) && DiskOk(fs.State(), disk[..]) && NulFree(n) && length < 0x8000_0000
      requires ROOT_DIR_SECTOR in fs.inodes && root == fs.inodes[ROOT_DIR_SECTOR]
      modifies fs, fs.freeMap.bits, disk
      ensures Shape() && Placed(old(fs.freeMap.Contents()), length, place)
        && (ok <==> place.Some? && Acceptable(old(fs.dir), n))
      ensures fs.State() == CreateEffect(old(fs.State()), n, place)
      ensures if place.None? then disk[..] == old(disk[..])
        else CreatedOnDisk(old(fs.State()), n, place.value, old(disk[..]), d1, disk[..])
    {
      ok, place := fs.Create(n, length);
      d1 := disk[..];
      assert d1 == old(disk[..]);
      if place.Some? {
        PlaceOnDisk(old(fs.State()), length, place.value.0, place.value.1);
        d1 := CreateOnDisk(old(fs.State()), n, place.value.0, place.value.1, root);
      }
    }

    /** inode_create and dir_add */
    method CreateOnDisk(ghost st: Fs, n: Name, s: nat, x: DiskInode, root: DiskInode) returns (ghost d1: Bytes)
      requires NulFree(n) && OnDisk(st, disk[..]) && ROOT_DIR_SECTOR in st.inodes && root == st.inodes[ROOT_DIR_SECTOR]
      requires s < 0x1_0000_0000 && Storable(x) && Allocated(st.used, s, x) && Fits(x, disk.Length) && !InExtent(x, s)
      modifies disk
      ensures CreatedOnDisk(st, n, (s, x), old(disk[..]), d1, disk[..])
    {
      InodeCreate(disk, s, x);
      d1 := disk[..];
      RootKept(st, old(disk[..]), d1, s, x);
      var added := AddName(disk, root, n, s, st.dir);
    }

    /** filesys_remove */
    method Remove(n: Name) returns (ok: bool)
      requires Valid()
      modifies fs, fs.freeMap.bits, disk
      ensures Valid() && files == old(files) && (ok <==> n in old(fs.dir))
      ensures ok ==> CanRemove(old(fs.State()), n)
      ensures fs.State() == if ok then RemovedFs(old(fs.State()), n) else old(fs.State())
      ensures OtherFilesSame(old(fs.State()), old(disk[..]), disk[..], ROOT_DIR_SECTOR)
    {
      RootOnDisk(fs.State(), files, disk[..]);
      ok := RemoveFrom(n, InodeAt(disk[..], ROOT_DIR_SECTOR));
      RemoveKeepsOthers(old(fs.State()), old(disk[..]), disk[..]);
      RemoveDone(old(fs.State()), files, n, old(disk[..]), disk[..]);
    }

    method RemoveFrom(n: Name, root: DiskInode) returns (ok: bool)
      requires Shape() && Inv(fs.State()) && IsDirectory(root, disk[..], fs.dir)
      requires ROOT_DIR_SECTOR in fs.inodes && root == fs.inodes[ROOT_DIR_SECTOR]
      modifies fs, fs.freeMap.bits, disk
      ensures Shape() && (ok <==> n in old(fs.dir)) && (ok ==> CanRemove(old(fs.State()), n))
      ensures fs.State() == if ok then RemovedFs(old(fs.State()), n) else old(fs.State())
      ensures OnlyRootDiffers(old(fs.State()), old(disk[..]), disk[..])
        && IsDirectory(root, disk[..], old(fs.dir) - {n})
    {
      ok := fs.Remove(n);
      assert disk[..] == old(disk[..]);
      var s := RemoveName(disk, root, n, old(fs.dir));
    }

    /** file_close: the sectors of a removed file are given back at its last close. */
    method Close(h: nat)
      requires Valid() && IsOpen(h)
      modifies this`files, fs, fs.freeMap.bits
      ensures Valid() && files == old(files)[h := None]
      ensures ClosedFile(old(fs.State()), fs.State(), old(files)[h].value)
    {
      CloseFileReady(fs.State(), files, h);
      CloseInode(h);
      CloseDone(old(fs.State()), fs.State(), old(files), h, disk[..]);
    }

    method CloseInode(h: nat)
      requires Shape() && IsOpen(h) && Inv(fs.State()) && files[h].value.sector in fs.handles
      requires var f := files[h].value;
        if f.denyWrite then f.sector in fs.denied else fs.denied[f.sector] < fs.handles[f.sector]
      modifies this`files, fs, fs.freeMap.bits
      ensures Shape() && Inv(fs.State()) && ClosedFile(old(fs.State()), fs.State(), old(files)[h].value)
      ensures files == old(files)[h := None]
    {
      fs.CloseFile(files[h].value.sector, files[h].value.denyWrite);
      files := files[h := None];
    }
  }

  // ----- what the operations do to the disk and to the accounts

  /** What DiskOk says about a state that the rest of the invariant holds of */
  ghost predicate OnDisk(fs: Fs, d: Bytes) { SpaceOk(fs) && DiskOk(fs, d) }

  /** inode_create takes the disk from d to d1, and dir_add on to d2. */
  ghost predicate CreatedOnDisk(fs: Fs, n: Name, p: (nat, DiskInode), d: Bytes, d1: Bytes, d2: Bytes) {
    && Initialised(d, d1, p.0, p.1) && ROOT_DIR_SECTOR in fs.inodes && var x := fs.inodes[ROOT_DIR_SECTOR];
    && SameOutside(d1, d2, SECTOR_SIZE * x.start, SECTOR_SIZE * x.start + x.length)
    && IsDirectory(x, d2, if Acceptable(fs.dir, n) then fs.dir[n := p.0] else fs.dir)
  }

  lemma {:induction false} NameDone(fs: Fs, files: Files, n: Name, d: Bytes)
    requires VolumeOk(fs, files, d) && n in fs.dir
    ensures fs.dir[n] in fs.inodes && VolumeOk(Opened(fs, fs.dir[n]), files + [Some(OpenFile(fs.dir[n], 0, false))], d)
  {
    NamedIsLive(fs, n);
    OpenDone(fs, files, fs.dir[n], d);
  }

  lemma {:induction false} RootOnDisk(fs: Fs, files: Files, d: Bytes)
    requires VolumeOk(fs, files, d)
    ensures ROOT_DIR_SECTOR in fs.inodes && SECTOR_SIZE * ROOT_DIR_SECTOR + SECTOR_SIZE <= |d|
    ensures InodeAt(d, ROOT_DIR_SECTOR) == fs.inodes[ROOT_DIR_SECTOR]
      && IsDirectory(fs.inodes[ROOT_DIR_SECTOR], d, fs.dir)
  {
    assert InodeStored(fs, d, ROOT_DIR_SECTOR);
  }

  lemma {:induction false} PlaceOnDisk(fs: Fs, length: nat, s: nat, x: DiskInode)
    requires Placed(fs.used, length, Some((s, x))) && |fs.used| < 0x1_0000_0000 && length < 0x8000_0000
    ensures s < 0x1_0000_0000 && Storable(x) && Fits(x, SECTOR_SIZE * |fs.used|) && !InExtent(x, s)
  {
    LostUsed(fs, s, x, s);
  }

  lemma {:induction false} AllSame(fs: Fs, d: Bytes)
    requires Inv(fs) && |d| == SECTOR_SIZE * |fs.used|
    ensures OtherFilesSame(fs, d, d, ROOT_DIR_SECTOR)
  {
    forall t: nat | Live(fs, t) ensures DataSame(fs, d, d, t) { ExtentInMap(fs, t); }
  }

  lemma {:induction false} RootKept(fs: Fs, d: Bytes, d': Bytes, s: nat, x: DiskInode)
    requires OnDisk(fs, d) && Allocated(fs.used, s, x) && Initialised(d, d', s, x)
    ensures ROOT_DIR_SECTOR in fs.inodes && IsDirectory(fs.inodes[ROOT_DIR_SECTOR], d', fs.dir)
  {
    assert InodeStored(fs, d, ROOT_DIR_SECTOR);
    InitialisedKeeps(fs, d, d', s, x, ROOT_DIR_SECTOR);
  }

  function Denying(files: Files, h: nat, deny: bool): Files
    requires h < |files| && files[h].Some?
  {
    files[h := Some(files[h].value.(denyWrite := deny))]
  }

  lemma {:induction false} SameFlag(files: Files, h: nat)
    requires h < |files| && files[h].Some?
    ensures Denying(files, h, files[h].value.denyWrite) == files
  {
  }

  /** Turning the flag changes the count of denials by one. */
  lemma {:induction false} FlagTally(files: Files, h: nat, deny: bool, s: nat)
    requires h < |files| && files[h].Some? && files[h].value.denyWrite != deny
    ensures Tally(Denying(files, h, deny), s, false) == Tally(files, s, false)
    ensures var d := if files[h].value.sector == s then 1 else 0;
      if deny then Tally(Denying(files, h, deny), s, true) == Tally(files, s, true) + d
      else Tally(Denying(files, h, deny), s, true) == Tally(files, s, true) - d
  {
    TallyUpdate(files, h, Denying(files, h, deny)[h], s, false);
    TallyUpdate(files, h, Denying(files, h, deny)[h], s, true);
  }

  lemma {:induction false} DenyDone(fs: Fs, files: Files, h: nat, d: Bytes)
    requires VolumeOk(fs, files, d) && h < |files| && files[h].Some? && !files[h].value.denyWrite
    ensures var s := files[h].value.sector;
      && s in fs.handles && fs.denied[s] < fs.handles[s] && s >= 2 && s in fs.open
      && VolumeOk(Denied(fs, s), Denying(files, h, true), d)
  {
    var s := files[h].value.sector;
    DenyReady(fs, files, h);
    DeniedOk(fs, s);
    SameDisk(fs, Denied(fs, s), d);
  }

  lemma {:induction false} DenyReady(fs: Fs, files: Files, h: nat)
    requires Inv(fs) && TableOk(fs, files) && h < |files| && files[h].Some? && !files[h].value.denyWrite
    ensures var s := files[h].value.sector;
      && s in fs.handles && fs.denied[s] < fs.handles[s] && s >= 2 && s in fs.open
      && TableOk(Denied(fs, s), Denying(files, h, true))
  {
    DenialsCounted(fs, files, h);
    TallyHas(files, h);
    assert TableAt(fs, files, files[h].value.sector);
    DenyTable(fs, files, h);
  }

  lemma {:induction false} DenyTable(fs: Fs, files: Files, h: nat)
    requires TableOk(fs, files) && h < |files| && files[h].Some? && !files[h].value.denyWrite
    requires files[h].value.sector in fs.open
    ensures TableOk(Denied(fs, files[h].value.sector), Denying(files, h, true))
  {
    forall s: nat ensures TableAt(Denied(fs, files[h].value.sector), Denying(files, h, true), s) {
      assert TableAt(fs, files, s);
      FlagTally(files, h, true, s);
    }
  }

  lemma {:induction false} AllowTable(fs: Fs, files: Files, h: nat)
    requires TableOk(fs, files) && h < |files| && files[h].Some? && files[h].value.denyWrite
    requires files[h].value.sector in fs.open && fs.open[files[h].value.sector].denyCnt > 0
    ensures files[h].value.sector in fs.denied
    ensures TableOk(Allowed(fs, files[h].value.sector), Denying(files, h, false))
  {
    TallyHas(files, h);
    assert TableAt(fs, files, files[h].value.sector);
    forall s: nat ensures TableAt(Allowed(fs, files[h].value.sector), Denying(files, h, false), s) {
      assert TableAt(fs, files, s);
      FlagTally(files, h, false, s);
    }
  }

  lemma {:induction false} AllowDone(fs: Fs, files: Files, h: nat, d: Bytes)
    requires VolumeOk(fs, files, d) && h < |files| && files[h].Some? && files[h].value.denyWrite
    ensures var s := files[h].value.sector;
      s in fs.denied && s in fs.open && fs.open[s].denyCnt > 0 && VolumeOk(Allowed(fs, s), Denying(files, h, false), d)
  {
    var s := files[h].value.sector;
    AllowReady(fs, files, h);
    AllowTable(fs, files, h);
    AllowedOk(fs, s);
    SameDisk(fs, Allowed(fs, s), d);
  }

  lemma {:induction false} AllowReady(fs: Fs, files: Files, h: nat)
    requires Inv(fs) && TableOk(fs, files) && h < |files| && files[h].Some? && files[h].value.denyWrite
    ensures var s := files[h].value.sector; s in fs.denied && s in fs.open && fs.open[s].denyCnt > 0
  {
    DenialsCounted(fs, files, h);
    TallyHas(files, h);
    assert TableAt(fs, files, files[h].value.sector);
    assert Denies(files[h], files[h].value.sector);
  }

  lemma {:induction false} OpenDone(fs: Fs, files: Files, s: nat, d: Bytes)
    requires VolumeOk(fs, files, d) && Live(fs, s) && s >= 2
    ensures s in fs.inodes && VolumeOk(Opened(fs, s), files + [Some(OpenFile(s, 0, false))], d)
  {
    OpenedOk(fs, s);
    SameDisk(fs, Opened(fs, s), d);
    OpenTable(fs, files, s);
  }

  lemma {:induction false} OpenTable(fs: Fs, files: Files, s: nat)
    requires TableOk(fs, files) && s >= 2 && s in fs.inodes
    ensures TableOk(Opened(fs, s), files + [Some(OpenFile(s, 0, false))])
  {
    var x := Some(OpenFile(s, 0, false));
    var files' := files + [x];
    forall t: nat ensures TableAt(Opened(fs, s), files', t) {
      assert TableAt(fs, files, t);
      TallyAppend(files, x, t, false);
      TallyAppend(files, x, t, true);
    }
  }

  /** What remains of the accounts when file f is closed; the free map changes at the last close of a removed file. */
  ghost predicate ClosedFile(fs: Fs, fs': Fs, f: OpenFile) {
    && fs'.handles == fs.handles - multiset{f.sector}
    && fs'.denied == fs.denied - (if f.denyWrite then multiset{f.sector} else multiset{})
    && fs'.inodes == fs.inodes && fs'.dir == fs.dir && fs'.lost == fs.lost
    && f.sector in fs.open && f.sector < |fs.used| && var i := fs.open[f.sector];
    && i.data.start + SectorCount(i.data.length) <= |fs.used|
    && fs'.used == (if fs.handles[f.sector] == 1 && i.removed then Released(fs.used, f.sector, i.data) else fs.used)
  }

  lemma {:induction false} CloseTable(fs: Fs, fs': Fs, files: Files, h: nat)
    requires TableOk(fs, files) && h < |files| && files[h].Some? && ClosedFile(fs, fs', files[h].value)
    ensures TableOk(fs', files[h := None])
  {
    TallyHas(files, h);
    var files' := files[h := None];
    forall s: nat ensures TableAt(fs', files', s) {
      assert TableAt(fs, files, s);
      TallyUpdate(files, h, None, s, false);
      TallyUpdate(files, h, None, s, true);
    }
  }

  lemma {:induction false} FewerOpen(fs: Fs, fs': Fs, f: OpenFile)
    requires OpenOk(fs) && OpenOk(fs') && ClosedFile(fs, fs', f)
    ensures forall s: nat | Live(fs', s) :: Live(fs, s)
  {
    forall s: nat | s in fs'.open ensures s in fs.open {
      assert InodeOk(fs', s);
      assert s in fs'.handles && s in fs.handles;
    }
  }

  lemma {:induction false} CloseDone(fs: Fs, fs': Fs, files: Files, h: nat, d: Bytes)
    requires VolumeOk(fs, files, d) && Inv(fs') && h < |files| && files[h].Some? && ClosedFile(fs, fs', files[h].value)
    ensures VolumeOk(fs', files[h := None], d)
  {
    CloseTable(fs, fs', files, h);
    FewerOpen(fs, fs', files[h].value);
    SameDisk(fs, fs', d);
  }

  lemma {:induction false} CloseFileReady(fs: Fs, files: Files, h: nat)
    requires TableOk(fs, files) && h < |files| && files[h].Some?
    ensures var f := files[h].value;
      f.sector in fs.handles
        && (if f.denyWrite then f.sector in fs.denied else fs.denied[f.sector] < fs.handles[f.sector])
  {
    TallyHas(files, h);
    assert TableAt(fs, files, files[h].value.sector);
  }

  /** The result of inode_read_at */
  ghost predicate InodeRead(x: DiskInode, pos: nat, size: int, d: Bytes, buffer: Bytes) {
    && Fits(x, |d|) && |buffer| == Transfer(size, pos, x.length)
    && (pos <= x.length ==> buffer == FileBytes(x, d)[pos..pos + |buffer|])
  }

  /** The effect of inode_write_at */
  ghost predicate InodeWrite(x: DiskInode, denied: bool, pos: nat, buffer: Bytes, d: Bytes, d': Bytes, n: nat) {
    && n == (if denied then 0 else Transfer(|buffer|, pos, x.length)) && n <= |buffer|
    && (n == 0 ==> d' == d) && (n > 0 ==> Written(d, d', SECTOR_SIZE * x.start + pos, buffer[..n]))
  }

  function Moved(files: Files, h: nat, n: nat): Files
    requires h < |files| && files[h].Some?
  {
    files[h := Some(files[h].value.(pos := files[h].value.pos + n))]
  }

  ghost predicate ReadEffect(fs: Fs, files: Files, h: nat, size: int, d: Bytes, buffer: Bytes, files': Files) {
    && h < |files| && files[h].Some? && files' == Moved(files, h, |buffer|)
    && var OpenFile(s, pos, _) := files[h].value;
    && s in fs.inodes && InodeRead(fs.inodes[s], pos, size, d, buffer)
  }

  /** The effect of file_write: n bytes are written, none if some open file of the inode denies writing, and
      otherwise as many as the file has room for at the position. They replace the file's bytes there, and the bytes
      of every other live file stay. */
  ghost predicate WriteEffect(fs: Fs, files: Files, h: nat, buffer: Bytes, d: Bytes, d': Bytes, n: nat, files': Files) {
    && h < |files| && files[h].Some? && files' == Moved(files, h, n)
    && var OpenFile(s, pos, _) := files[h].value;
    && s in fs.inodes && Fits(fs.inodes[s], |d|) && |d'| == |d| && n <= |buffer|
    && n == (if DeniedBySome(files, s) then 0 else Transfer(|buffer|, pos, fs.inodes[s].length))
    && (n == 0 ==> d' == d)
    && (n > 0 ==> Written(FileBytes(fs.inodes[s], d), FileBytes(fs.inodes[s], d'), pos, buffer[..n]))
    && OtherFilesSame(fs, d, d', s)
  }

  /** What is written to a file is what is read from it afterwards at the same place, through whichever of its open
      files. */
  lemma {:induction false} ReadsBack(fs: Fs, files: Files, h: nat, buffer: Bytes, d: Bytes, d': Bytes, n: nat,
        files': Files, files1: Files, g: nat, got: Bytes, files2: Files)
    requires WriteEffect(fs, files, h, buffer, d, d', n, files') && ReadEffect(fs, files1, g, n, d', got, files2)
    requires files1[g].value.sector == files[h].value.sector && files1[g].value.pos == files[h].value.pos
    ensures got == buffer[..n]
  {
  }

  /** Two reads through an open file, one after the other, deliver what one read of both sizes would have. */
  lemma {:induction false} ReadsOn(fs: Fs, files: Files, h: nat, m: nat, n: nat, d: Bytes, x: Bytes, files': Files,
        y: Bytes, files'': Files)
    requires ReadEffect(fs, files, h, m, d, x, files') && ReadEffect(fs, files', h, n, d, y, files'')
    ensures ReadEffect(fs, files, h, m + n, d, x + y, files'')
  {
    var OpenFile(s, pos, deny) := files[h].value;
    var c := FileBytes(fs.inodes[s], d);
    if pos <= |c| { assert x + y == c[pos..pos + |x| + |y|]; }
  }

  /** And two writes do what one write of both would have done. */
  lemma {:induction false} WritesOn(fs: Fs, files: Files, h: nat, x: Bytes, y: Bytes, d: Bytes, d': Bytes, d'': Bytes,
        m: nat, n: nat, files': Files, files'': Files)
    requires WriteEffect(fs, files, h, x, d, d', m, files') && WriteEffect(fs, files', h, y, d', d'', n, files'')
    ensures WriteEffect(fs, files, h, x + y, d, d'', m + n, files'')
  {
    var OpenFile(s, pos, deny) := files[h].value;
    MovedDenies(files, h, m, s);
    if m < |x| { assert n == 0; assert (x + y)[..m + n] == x[..m]; }
      else { assert (x + y)[..m + n] == x[..m] + y[..n]; }
    forall t: nat | Live(fs, t) && t != s ensures DataSame(fs, d, d'', t) {
      assert DataSame(fs, d, d', t) && DataSame(fs, d', d'', t);
    }
  }

  lemma {:induction false} MovedDenies(files: Files, h: nat, n: nat, s: nat)
    requires h < |files| && files[h].Some?
    ensures DeniedBySome(Moved(files, h, n), s) <==> DeniedBySome(files, s)
  {
    var files' := Moved(files, h, n);
    if DeniedBySome(files, s) {
      var g :| 0 <= g < |files| && Denies(files[g], s);
      assert Denies(files'[g], s);
    }
    if DeniedBySome(files', s) {
      var g :| 0 <= g < |files| && Denies(files'[g], s);
      assert Denies(files[g], s);
    }
  }

  lemma {:induction false} FormatReady(fs: Fs)
    requires IsFormatted(fs) && Inv(fs) && |fs.used| < 0x1_0000_0000
      && fs.inodes[FREE_MAP_SECTOR].length == FreeMapBytes(|fs.used|)
    ensures forall s | s in fs.inodes ::
      Storable(fs.inodes[s]) && s < |fs.used| && !InExtent(fs.inodes[s], s)
      && Fits(fs.inodes[s], SECTOR_SIZE * |fs.used|)
  {
    ExtentInMap(fs, FREE_MAP_SECTOR);
    ExtentInMap(fs, ROOT_DIR_SECTOR);
    assert ExtentFits(fs, FREE_MAP_SECTOR) && ExtentFits(fs, ROOT_DIR_SECTOR);
  }

  lemma {:induction false} FormattedDisk(fs: Fs, d: Bytes, d1: Bytes, d2: Bytes)
    requires IsFormatted(fs) && Inv(fs) && |d| == SECTOR_SIZE * |fs.used|
    requires Initialised(d, d1, FREE_MAP_SECTOR, fs.inodes[FREE_MAP_SECTOR])
    requires Initialised(d1, d2, ROOT_DIR_SECTOR, fs.inodes[ROOT_DIR_SECTOR])
    ensures DiskOk(fs, d2)
  {
    var x := fs.inodes[ROOT_DIR_SECTOR];
    assert Owns(fs, FREE_MAP_SECTOR, FREE_MAP_SECTOR);
    assert InExtent(x, FREE_MAP_SECTOR) ==> Owns(fs, ROOT_DIR_SECTOR, FREE_MAP_SECTOR);
    forall i | 0 <= i < SECTOR_SIZE ensures d2[i] == d1[i] { NotInFile(ROOT_DIR_SECTOR, x, FREE_MAP_SECTOR, i); }
    InodeKept(d1, d2, FREE_MAP_SECTOR);
    NoNames(x, d2);
    forall s: nat | Live(fs, s) ensures InodeStored(fs, d2, s) { assert s == FREE_MAP_SECTOR || s == ROOT_DIR_SECTOR; }
  }

  /** What an operation on an open file needs to know */
  lemma {:induction false} FileReady(fs: Fs, files: Files, h: nat)
    requires Inv(fs) && TableOk(fs, files) && h < |files| && files[h].Some?
    ensures var s := files[h].value.sector;
      && s >= 2 && Live(fs, s) && s in fs.open && s in fs.inodes && fs.open[s].data == fs.inodes[s]
      && Fits(fs.inodes[s], SECTOR_SIZE * |fs.used|) && (fs.open[s].denyCnt > 0 <==> DeniedBySome(files, s))
  {
    DenialsCounted(fs, files, h);
    ExtentInMap(fs, files[h].value.sector);
  }

  lemma {:induction false} MoveInFile(fs: Fs, files: Files, h: nat, n: nat)
    requires TableOk(fs, files) && h < |files| && files[h].Some?
    ensures TableOk(fs, Moved(files, h, n))
  {
    var files' := Moved(files, h, n);
    forall s: nat ensures TableAt(fs, files', s) {
      assert TableAt(fs, files, s);
      TallyUpdate(files, h, files'[h], s, false);
      TallyUpdate(files, h, files'[h], s, true);
    }
  }

  lemma {:induction false} OnlyInData(fs: Fs, s: nat, denied: bool, pos: nat, buffer: Bytes, d: Bytes, d': Bytes,
        n: nat)
    requires Live(fs, s) && s in fs.inodes && |d| == SECTOR_SIZE * |fs.used|
    requires InodeWrite(fs.inodes[s], denied, pos, buffer, d, d', n)
    ensures WriteTo(fs, d, d', s)
  {
  }

  lemma {:induction false} OthersKept(fs: Fs, d: Bytes, d': Bytes, s: nat)
    requires Inv(fs) && WriteTo(fs, d, d', s)
    ensures OtherFilesSame(fs, d, d', s)
  {
    forall t: nat | Live(fs, t) && t != s ensures DataSame(fs, d, d', t) { DataKept(fs, d, d', s, t); }
  }

  lemma {:induction false} InFileWritten(x: DiskInode, d: Bytes, d': Bytes, pos: nat, b: Bytes)
    requires Fits(x, |d|) && pos + |b| <= x.length && Written(d, d', SECTOR_SIZE * x.start + pos, b)
    ensures Written(FileBytes(x, d), FileBytes(x, d'), pos, b)
  {
    WriteInFile(d, d', SECTOR_SIZE * x.start, x.length, pos, b);
  }

  lemma {:induction false} EffectInFile(fs: Fs, files: Files, h: nat, buffer: Bytes, d: Bytes, d': Bytes, n: nat)
    requires h < |files| && files[h].Some? && files[h].value.sector in fs.inodes
      && OtherFilesSame(fs, d, d', files[h].value.sector)
    requires var OpenFile(s, pos, _) := files[h].value;
      Fits(fs.inodes[s], |d|) && InodeWrite(fs.inodes[s], DeniedBySome(files, s), pos, buffer, d, d', n)
    ensures WriteEffect(fs, files, h, buffer, d, d', n, Moved(files, h, n))
  {
    if n > 0 { InFileWritten(fs.inodes[files[h].value.sector], d, d', files[h].value.pos, buffer[..n]); }
  }

  lemma {:induction false} WriteDone(fs: Fs, files: Files, h: nat, buffer: Bytes, d: Bytes, d': Bytes, n: nat)
    requires VolumeOk(fs, files, d) && h < |files| && files[h].Some?
    requires var OpenFile(s, pos, _) := files[h].value;
      && s >= 2 && Live(fs, s) && s in fs.inodes && Fits(fs.inodes[s], |d|)
      && InodeWrite(fs.inodes[s], DeniedBySome(files, s), pos, buffer, d, d', n)
    ensures VolumeOk(fs, Moved(files, h, n), d') && WriteEffect(fs, files, h, buffer, d, d', n, Moved(files, h, n))
  {
    var OpenFile(s, pos, _) := files[h].value;
    MoveInFile(fs, files, h, n);
    OnlyInData(fs, s, DeniedBySome(files, s), pos, buffer, d, d', n);
    DiskWritten(fs, d, d', s);
    OthersKept(fs, d, d', s);
    EffectInFile(fs, files, h, buffer, d, d', n);
  }

  lemma {:induction false} CreatedLive(fs: Fs, n: Name, p: (nat, DiskInode), t: nat)
    requires SpaceOk(fs) && Allocated(fs.used, p.0, p.1)
    ensures var fs' := CreateEffect(fs, n, Some(p));
      && (Live(fs', t) <==> Live(fs, t) || (t == p.0 && Acceptable(fs.dir, n))) && !Live(fs, p.0)
      && fs'.inodes == fs.inodes[p.0 := p.1] && |fs'.used| == |fs.used|
  {
    NotLive(fs, p.0);
    if Acceptable(fs.dir, n) { NewName(fs.dir, n, p.0, t); }
  }

  /** Where the disk stands for each file of the new state once inode_create has written to it */
  lemma {:induction false} CreatedStored(fs: Fs, n: Name, p: (nat, DiskInode), d: Bytes, d1: Bytes, t: nat)
    requires SpaceOk(fs) && DiskOk(fs, d) && Allocated(fs.used, p.0, p.1) && Initialised(d, d1, p.0, p.1)
    requires Live(CreateEffect(fs, n, Some(p)), t)
    ensures InodeStored(CreateEffect(fs, n, Some(p)), d1, t) && (Live(fs, t) ==> t != p.0 && DataSame(fs, d, d1, t))
  {
    CreatedLive(fs, n, p, t);
    if Live(fs, t) {
      assert InodeStored(fs, d, t);
      InitialisedKeeps(fs, d, d1, p.0, p.1, t);
    }
  }

  /** What it takes for a directory write to go with the creation */
  ghost predicate DirWrite(fs': Fs, d1: Bytes, d2: Bytes) {
    WriteTo(fs', d1, d2, ROOT_DIR_SECTOR) && IsDirectory(fs'.inodes[ROOT_DIR_SECTOR], d2, fs'.dir)
  }

  lemma {:induction false} CreatedFile(fs: Fs, n: Name, p: (nat, DiskInode), d: Bytes, d1: Bytes, d2: Bytes, t: nat)
    requires SpaceOk(fs) && DiskOk(fs, d) && Allocated(fs.used, p.0, p.1) && Initialised(d, d1, p.0, p.1)
    requires Inv(CreateEffect(fs, n, Some(p))) && DirWrite(CreateEffect(fs, n, Some(p)), d1, d2)
      && Live(CreateEffect(fs, n, Some(p)), t)
    ensures InodeStored(CreateEffect(fs, n, Some(p)), d2, t)
    ensures Live(fs, t) && t != ROOT_DIR_SECTOR ==> DataSame(fs, d, d2, t)
    ensures t == p.0 && !Live(fs, t) ==> FileBytes(p.1, d2) == Zeros(p.1.length)
  {
    var fs' := CreateEffect(fs, n, Some(p));
    CreatedLive(fs, n, p, t);
    CreatedStored(fs, n, p, d, d1, t);
    RootWritten(fs', d1, d2, t);
  }

  lemma {:induction false} CreateDone(fs: Fs, files: Files, n: Name, length: nat, p: (nat, DiskInode), d: Bytes,
        d1: Bytes, d2: Bytes)
    requires VolumeOk(fs, files, d) && Placed(fs.used, length, Some(p)) && CreatedOnDisk(fs, n, p, d, d1, d2)
    ensures VolumeOk(CreateEffect(fs, n, Some(p)), files, d2) && OtherFilesSame(fs, d, d2, ROOT_DIR_SECTOR)
    ensures Acceptable(fs.dir, n) ==> Fits(p.1, |d2|) && FileBytes(p.1, d2) == Zeros(length)
  {
    CreateEffectOk(fs, n, Some(p));
    SameTable(fs, CreateEffect(fs, n, Some(p)), files);
    CreateWrite(fs, n, p, d, d1, d2);
    CreateStores(fs, n, p, d, d1, d2);
    CreateKeeps(fs, n, p, d, d1, d2);
    CreatedLive(fs, n, p, p.0);
    if Acceptable(fs.dir, n) { CreatedFile(fs, n, p, d, d1, d2, p.0); }
  }

  lemma {:induction false} CreateWrite(fs: Fs, n: Name, p: (nat, DiskInode), d: Bytes, d1: Bytes, d2: Bytes)
    requires SpaceOk(fs) && DiskOk(fs, d) && Allocated(fs.used, p.0, p.1) && CreatedOnDisk(fs, n, p, d, d1, d2)
    ensures DirWrite(CreateEffect(fs, n, Some(p)), d1, d2)
  {
    CreatedLive(fs, n, p, ROOT_DIR_SECTOR);
  }

  lemma {:induction false} CreateStores(fs: Fs, n: Name, p: (nat, DiskInode), d: Bytes, d1: Bytes, d2: Bytes)
    requires SpaceOk(fs) && DiskOk(fs, d) && Allocated(fs.used, p.0, p.1) && Initialised(d, d1, p.0, p.1)
    requires Inv(CreateEffect(fs, n, Some(p))) && DirWrite(CreateEffect(fs, n, Some(p)), d1, d2)
    ensures DiskOk(CreateEffect(fs, n, Some(p)), d2)
  {
    var fs' := CreateEffect(fs, n, Some(p));
    CreatedLive(fs, n, p, ROOT_DIR_SECTOR);
    forall t: nat | Live(fs', t) ensures InodeStored(fs', d2, t) { CreatedFile(fs, n, p, d, d1, d2, t); }
  }

  lemma {:induction false} CreateKeeps(fs: Fs, n: Name, p: (nat, DiskInode), d: Bytes, d1: Bytes, d2: Bytes)
    requires SpaceOk(fs) && DiskOk(fs, d) && Allocated(fs.used, p.0, p.1) && Initialised(d, d1, p.0, p.1)
    requires Inv(CreateEffect(fs, n, Some(p))) && DirWrite(CreateEffect(fs, n, Some(p)), d1, d2)
    ensures OtherFilesSame(fs, d, d2, ROOT_DIR_SECTOR)
  {
    forall t: nat | Live(fs, t) && t != ROOT_DIR_SECTOR ensures DataSame(fs, d, d2, t) {
      CreatedLive(fs, n, p, t);
      CreatedFile(fs, n, p, d, d1, d2, t);
    }
  }

  lemma {:induction false} RemovedFacts(fs: Fs, n: Name)
    requires Inv(fs) && n in fs.dir
    ensures CanRemove(fs, n) && Inv(RemovedFs(fs, n))
    ensures var fs' := RemovedFs(fs, n);
      && fs'.inodes == fs.inodes && fs'.dir == fs.dir - {n} && |fs'.used| == |fs.used|
      && fs'.handles == fs.handles && fs'.denied == fs.denied && fs'.open.Keys <= fs.open.Keys
  {
    RemovedOk(fs, n);
    OneInAndOut(fs.handles, fs.dir[n]);
    if fs.dir[n] in fs.open { assert InodeOk(fs, fs.dir[n]); }
  }

  lemma {:induction false} OneInAndOut(handles: multiset<nat>, s: nat)
    ensures handles + multiset{s} - multiset{s} == handles
  {
  }

  lemma {:induction false} InodesStay(fs: Fs, d: Bytes, d': Bytes)
    requires Inv(fs) && DiskOk(fs, d) && OnlyRootDiffers(fs, d, d')
    ensures AllStored(fs, d')
  {
    assert WriteTo(fs, d, d', ROOT_DIR_SECTOR);
    forall t: nat | Live(fs, t) ensures InodeStored(fs, d', t) {
      assert InodeStored(fs, d, t);
      RootWritten(fs, d, d', t);
    }
  }

  ghost predicate OnlyRootDiffers(fs: Fs, d: Bytes, d': Bytes) {
    && ROOT_DIR_SECTOR in fs.inodes && var x := fs.inodes[ROOT_DIR_SECTOR];
    SameOutside(d, d', SECTOR_SIZE * x.start, SECTOR_SIZE * x.start + x.length)
  }

  lemma {:induction false} RemoveKeepsOthers(fs: Fs, d: Bytes, d': Bytes)
    requires Inv(fs) && DiskOk(fs, d) && OnlyRootDiffers(fs, d, d')
    ensures OtherFilesSame(fs, d, d', ROOT_DIR_SECTOR)
  {
    assert WriteTo(fs, d, d', ROOT_DIR_SECTOR);
    OthersKept(fs, d, d', ROOT_DIR_SECTOR);
  }

  ghost predicate AllStored(fs: Fs, d: Bytes) { forall t: nat | Live(fs, t) :: InodeStored(fs, d, t) }

  lemma {:induction false} RemovedStored(fs: Fs, fs': Fs, n: Name, d: Bytes)
    requires AllStored(fs, d) && fs'.inodes == fs.inodes && fs'.dir == fs.dir - {n} && fs'.open.Keys <= fs.open.Keys
    ensures AllStored(fs', d)
  {
    forall t: nat | Live(fs', t) ensures InodeStored(fs', d, t) { assert Live(fs, t) && InodeStored(fs, d, t); }
  }

  lemma {:induction false} RemovedDisk(fs: Fs, files: Files, n: Name, d: Bytes)
    requires Inv(fs) && TableOk(fs, files) && AllStored(fs, d) && |d| == SECTOR_SIZE * |fs.used| && n in fs.dir
    requires ROOT_DIR_SECTOR in fs.inodes && IsDirectory(fs.inodes[ROOT_DIR_SECTOR], d, fs.dir - {n})
    ensures CanRemove(fs, n) && VolumeOk(RemovedFs(fs, n), files, d)
  {
    RemovedFacts(fs, n);
    SameTable(fs, RemovedFs(fs, n), files);
    RemovedStored(fs, RemovedFs(fs, n), n, d);
  }

  lemma {:induction false} NothingRemoved(fs: Fs, files: Files, n: Name, d: Bytes)
    requires Inv(fs) && TableOk(fs, files) && AllStored(fs, d) && |d| == SECTOR_SIZE * |fs.used| && n !in fs.dir
    requires ROOT_DIR_SECTOR in fs.inodes && IsDirectory(fs.inodes[ROOT_DIR_SECTOR], d, fs.dir - {n})
    ensures VolumeOk(fs, files, d)
  {
    assert fs.dir - {n} == fs.dir;
  }

  lemma {:induction false} RemoveDone(fs: Fs, files: Files, n: Name, d: Bytes, d': Bytes)
    requires VolumeOk(fs, files, d) && OnlyRootDiffers(fs, d, d')
    requires IsDirectory(fs.inodes[ROOT_DIR_SECTOR], d', fs.dir - {n})
    ensures n in fs.dir ==> CanRemove(fs, n)
    ensures VolumeOk(if n in fs.dir then RemovedFs(fs, n) else fs, files, d')
  {
    InodesStay(fs, d, d');
    if n in fs.dir { RemovedDisk(fs, files, n, d'); } else { NothingRemoved(fs, files, n, d'); }
  }
}
