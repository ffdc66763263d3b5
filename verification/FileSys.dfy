/** Who owns the sectors of the disk (pintos/src/filesys/filesys.c, inode.c, free-map.c): creating, opening,
    closing and removing files, with reference-counted open inodes and deletion delayed to the last close.
    Callers serialise these operations, so this is a sequential state machine. The directory is the map
    that module Directory shows it to be, with room for 16 names. */
module FileSys {
  import opened Bitmaps
  import opened CStrings
  import Directory
  import opened InodeIo
  import opened Options

  const FREE_MAP_SECTOR: nat := 0
  const ROOT_DIR_SECTOR: nat := 1
  const DIR_ENTRIES: nat := 16

  type Name = seq<Byte>

  /** used is the free map, inodes the inodes on disk by sector, dir the root directory, open the open inodes by
      sector. As history, handles and denied are the sectors of the files and directories that are open,
      and of those that deny writing, with multiplicity, and lost the sectors that have been allocated
      to files that were then not created. */
  datatype Fs = Fs(
    used: seq<bool>, inodes: map<nat, DiskInode>, dir: map<Name, nat>, open: map<nat, Inode>,
    handles: multiset<nat>, denied: multiset<nat>, lost: set<nat>)

  /** The file at sector s has a name, or is open, or is one of the two system files. */
  ghost predicate Live(fs: Fs, s: nat) {
    s == FREE_MAP_SECTOR || s == ROOT_DIR_SECTOR || s in fs.dir.Values || s in fs.open
  }

  predicate InExtent(d: DiskInode, b: nat) { d.start <= b < d.start + SectorCount(d.length) }

  /** Sector b belongs to the live file at s: it is its inode or part of its data. */
  ghost predicate Owns(fs: Fs, s: nat, b: nat) {
    Live(fs, s) && s in fs.inodes && (b == s || InExtent(fs.inodes[s], b))
  }

  ghost predicate Owned(fs: Fs, b: nat) { exists s :: Owns(fs, s, b) }

  /** Sectors are marked used exactly if they belong to a live file, to one only, or are lost. */
  ghost predicate SpaceOk(fs: Fs) {
    && |fs.used| >= 2 && (forall b: nat | b in fs.lost :: b < |fs.used|)
    && (forall s: nat, b: nat | Owns(fs, s, b) :: b < |fs.used| && b !in fs.lost)
    && (forall b: nat | b < |fs.used| :: fs.used[b] <==> b in fs.lost || Owned(fs, b))
    && (forall s: nat, t: nat, b: nat | Owns(fs, s, b) && Owns(fs, t, b) :: s == t)
    && (forall s: nat | Live(fs, s) :: s in fs.inodes && ExtentFits(fs, s))
  }

  ghost predicate ExtentFits(fs: Fs, s: nat)
    requires s in fs.inodes
  {
    var d := fs.inodes[s]; !InExtent(d, s) && d.start + SectorCount(d.length) <= |fs.used|
  }

  /** The open inode at s: a copy of the one on disk, counting its users, removed if it has no name. */
  ghost predicate InodeOk(fs: Fs, s: nat)
    requires s in fs.open
  {
    var i := fs.open[s];
    && i.sector == s && s in fs.inodes && i.data == fs.inodes[s]
    && i.openCnt == fs.handles[s] > 0 && i.denyCnt == fs.denied[s]
    && (i.removed <==> s !in fs.dir.Values && s != FREE_MAP_SECTOR && s != ROOT_DIR_SECTOR)
  }

  ghost predicate OpenOk(fs: Fs) {
    && (forall s | s in fs.open :: InodeOk(fs, s))
    && (forall s | s in fs.handles :: s in fs.open)
    && (forall s: nat :: fs.denied[s] <= fs.handles[s])
    && fs.denied[FREE_MAP_SECTOR] == 0 && fs.denied[ROOT_DIR_SECTOR] == 0
  }

  ghost predicate DirOk(fs: Fs) {
    && |fs.dir| <= DIR_ENTRIES
    && (forall n | n in fs.dir :: fs.dir[n] != FREE_MAP_SECTOR && fs.dir[n] != ROOT_DIR_SECTOR)
    && (forall n, m | n in fs.dir && m in fs.dir && fs.dir[n] == fs.dir[m] :: n == m)
  }

  ghost predicate Inv(fs: Fs) { SpaceOk(fs) && OpenOk(fs) && DirOk(fs) }

  // ----- changes that leave ownership alone

  lemma {:induction false} SameSpace(fs: Fs, fs': Fs)
    requires SpaceOk(fs) && fs'.used == fs.used && fs'.lost == fs.lost && fs'.inodes == fs.inodes
    requires forall s: nat :: Live(fs', s) <==> Live(fs, s)
    ensures SpaceOk(fs')
  {
    forall s: nat, b: nat ensures Owns(fs', s, b) <==> Owns(fs, s, b) {}
    forall b: nat ensures Owned(fs', b) <==> Owned(fs, b) {
      if Owned(fs, b) { var s :| Owns(fs, s, b); assert Owns(fs', s, b); }
    }
  }

  /** inode_open and inode_reopen */
  function Opened(fs: Fs, s: nat): Fs
    requires s in fs.inodes
  {
    var i := if s in fs.open then fs.open[s].(openCnt := fs.open[s].openCnt + 1)
      else Inode(s, 1, false, 0, fs.inodes[s]);
    fs.(open := fs.open[s := i], handles := fs.handles + multiset{s})
  }

  lemma {:induction false} OpenedOk(fs: Fs, s: nat)
    requires Inv(fs) && Live(fs, s)
    ensures s in fs.inodes && Inv(Opened(fs, s))
  {
    var fs' := Opened(fs, s);
    SameSpace(fs, fs');
    OpenedOpen(fs, s);
  }

  lemma {:induction false} OpenedOpen(fs: Fs, s: nat)
    requires OpenOk(fs) && s in fs.inodes && Live(fs, s)
    ensures OpenOk(Opened(fs, s))
  {
    var fs' := Opened(fs, s);
    assert s !in fs.open ==> fs.handles[s] == 0 && fs.denied[s] == 0;
    forall t | t in fs'.open ensures InodeOk(fs', t) {
      if t != s { assert InodeOk(fs, t); } else if s in fs.open { assert InodeOk(fs, s); }
    }
  }

  /** inode_remove together with the erasing of the name */
  function Unlinked(fs: Fs, n: Name): Fs
    requires n in fs.dir && fs.dir[n] in fs.open
  {
    fs.(dir := fs.dir - {n}, open := fs.open[fs.dir[n] := fs.open[fs.dir[n]].(removed := true)])
  }

  lemma {:induction false} OtherNames(dir: map<Name, nat>, n: Name, s: nat)
    requires n in dir && forall m | m in dir && dir[m] == dir[n] :: m == n
    ensures s in (dir - {n}).Values <==> s in dir.Values && s != dir[n]
  {
    if s in dir.Values && s != dir[n] {
      var m :| m in dir && dir[m] == s;
      assert m in dir - {n} && (dir - {n})[m] == s;
    }
  }

  lemma {:induction false} UnlinkedOk(fs: Fs, n: Name)
    requires Inv(fs) && n in fs.dir && fs.dir[n] in fs.open
    ensures Inv(Unlinked(fs, n))
  {
    var fs', s := Unlinked(fs, n), fs.dir[n];
    forall t: nat ensures Live(fs', t) <==> Live(fs, t) { OtherNames(fs.dir, n, t); }
    SameSpace(fs, fs');
    forall t | t in fs'.open ensures InodeOk(fs', t) {
      assert InodeOk(fs, t);
      OtherNames(fs.dir, n, t);
    }
    assert fs'.dir.Keys < fs.dir.Keys;
  }

  lemma {:induction false} NotLive(fs: Fs, s: nat)
    requires SpaceOk(fs) && s < |fs.used| && !fs.used[s]
    ensures !Live(fs, s)
  {
    if Live(fs, s) { assert Owns(fs, s, s); assert Owned(fs, s); }
  }

  // ----- closing

  /** The sectors of the file at s given back: first its inode, then its data */
  ghost function Released(used: seq<bool>, s: nat, d: DiskInode): seq<bool>
    requires s < |used| && d.start + SectorCount(d.length) <= |used|
  {
    Filled(Filled(used, s, 1, false), d.start, SectorCount(d.length), false)
  }

  lemma {:induction false} ExtentInMap(fs: Fs, s: nat)
    requires SpaceOk(fs) && Live(fs, s)
    ensures s in fs.inodes && s < |fs.used| && fs.used[s]
    ensures var d := fs.inodes[s];
      && d.start + SectorCount(d.length) <= |fs.used|
      && AllAre(fs.used, d.start, SectorCount(d.length), true)
        && AllAre(Filled(fs.used, s, 1, false), d.start, SectorCount(d.length), true)
  {
    var d := fs.inodes[s];
    assert ExtentFits(fs, s);
    assert Owns(fs, s, s) && Owned(fs, s);
    forall b | d.start <= b < d.start + SectorCount(d.length) ensures b < |fs.used| && fs.used[b] && b != s {
      assert Owns(fs, s, b) && Owned(fs, b);
    }
  }

  lemma {:induction false} ReleasedSpace(fs: Fs, fs': Fs, s: nat)
    requires SpaceOk(fs) && Live(fs, s) && s >= 2 && s in fs.inodes && s < |fs.used|
    requires var d := fs.inodes[s]; d.start + SectorCount(d.length) <= |fs.used| && fs'.used == Released(fs.used, s, d)
    requires fs'.lost == fs.lost && fs'.inodes == fs.inodes && forall t: nat :: Live(fs', t) <==> Live(fs, t) && t != s
    ensures SpaceOk(fs')
  {
    forall t: nat, b: nat ensures Owns(fs', t, b) <==> Owns(fs, t, b) && t != s {}
    forall b: nat | b < |fs.used| ensures fs'.used[b] <==> b in fs'.lost || Owned(fs', b) {
      assert fs'.used[b] <==> fs.used[b] && !Owns(fs, s, b);
      if Owned(fs, b) && !Owns(fs, s, b) { var t :| Owns(fs, t, b); assert Owns(fs', t, b); }
      if Owned(fs', b) { var t :| Owns(fs', t, b); assert Owns(fs, t, b); }
    }
  }

  /** inode_close */
  ghost function Closed(fs: Fs, s: nat): Fs
    requires s in fs.open && fs.open[s].openCnt > 0 && s < |fs.used|
    requires var d := fs.open[s].data; d.start + SectorCount(d.length) <= |fs.used|
  {
    var i := fs.open[s];
    var fs1 := fs.(handles := fs.handles - multiset{s});
    if i.openCnt > 1 then fs1.(open := fs.open[s := i.(openCnt := i.openCnt - 1)])
    else if i.removed then fs1.(open := fs.open - {s}, used := Released(fs.used, s, i.data))
    else fs1.(open := fs.open - {s})
  }

  lemma {:induction false} ClosedInode(fs: Fs, s: nat, t: nat)
    requires s in fs.open && s < |fs.used| && InodeOk(fs, s) && t in fs.open && InodeOk(fs, t)
    requires var d := fs.open[s].data; d.start + SectorCount(d.length) <= |fs.used|
    ensures t in Closed(fs, s).open <==> t != s || fs.open[s].openCnt > 1
    ensures t in Closed(fs, s).open ==> InodeOk(Closed(fs, s), t)
  {
    var m := fs.handles - multiset{s};
    assert m[t] == if t == s then fs.handles[t] - 1 else fs.handles[t];
  }

  lemma {:induction false} ClosedOpen(fs: Fs, s: nat)
    requires OpenOk(fs) && s in fs.handles && fs.denied[s] < fs.handles[s] && s < |fs.used|
    requires s in fs.open && var d := fs.open[s].data; d.start + SectorCount(d.length) <= |fs.used|
    ensures fs.open[s].openCnt > 0 && OpenOk(Closed(fs, s))
  {
    assert InodeOk(fs, s);
    var fs' := Closed(fs, s);
    forall t | t in fs'.open ensures InodeOk(fs', t) { assert InodeOk(fs, t); ClosedInode(fs, s, t); }
    forall t | t in fs'.handles ensures t in fs'.open {
      assert t in fs.handles; assert InodeOk(fs, t); ClosedInode(fs, s, t);
    }
    forall t: nat ensures fs'.denied[t] <= fs'.handles[t] { assert fs.denied[t] <= fs.handles[t]; }
  }

  lemma {:induction false} ClosedSpace(fs: Fs, s: nat)
    requires Inv(fs) && s in fs.handles && s < |fs.used|
    requires s in fs.open && var d := fs.open[s].data; d.start + SectorCount(d.length) <= |fs.used|
    ensures fs.open[s].openCnt > 0 && SpaceOk(Closed(fs, s))
  {
    assert InodeOk(fs, s);
    var fs', i := Closed(fs, s), fs.open[s];
    if i.openCnt == 1 && i.removed {
      ReleasedSpace(fs, fs', s);
    } else {
      SameSpace(fs, fs');
    }
  }

  // ----- creating

  /** A file of the given length put at sector s, with its data from start on */
  ghost function Taken(used: seq<bool>, s: nat, d: DiskInode): seq<bool>
    requires s < |used| && d.start + SectorCount(d.length) <= |used|
  {
    Filled(Filled(used, s, 1, true), d.start, SectorCount(d.length), true)
  }

  /** s and the sectors of d are what two allocations, one after the other, found. */
  ghost predicate Allocated(used: seq<bool>, s: nat, d: DiskInode) {
    && s < |used| && !used[s] && d.start + SectorCount(d.length) <= |used|
    && AllAre(Filled(used, s, 1, true), d.start, SectorCount(d.length), false)
  }

  ghost function Created(fs: Fs, n: Name, s: nat, d: DiskInode): Fs
    requires Allocated(fs.used, s, d)
  {
    fs.(used := Taken(fs.used, s, d), inodes := fs.inodes[s := d], dir := fs.dir[n := s])
  }

  lemma {:induction false} NewName(dir: map<Name, nat>, n: Name, s: nat, t: nat)
    requires n !in dir
    ensures t in dir[n := s].Values <==> t == s || t in dir.Values
  {
    var dir' := dir[n := s];
    assert dir'[n] == s;
    if t in dir.Values {
      var m :| m in dir && dir[m] == t;
      assert dir'[m] == t;
    }
  }

  lemma {:induction false} CreatedSpace(fs: Fs, n: Name, s: nat, d: DiskInode)
    requires SpaceOk(fs) && Allocated(fs.used, s, d) && n !in fs.dir
    ensures SpaceOk(Created(fs, n, s, d))
  {
    var fs' := Created(fs, n, s, d);
    NotLive(fs, s);
    forall t: nat ensures Live(fs', t) <==> Live(fs, t) || t == s { NewName(fs.dir, n, s, t); }
    forall t: nat, b: nat | t != s ensures Owns(fs', t, b) <==> Owns(fs, t, b) {}
    forall t: nat, b: nat | Owns(fs, t, b) ensures fs.used[b] { assert Owned(fs, b); }
    forall b: nat | b < |fs.used| ensures fs'.used[b] <==> b in fs'.lost || Owned(fs', b) {
      assert fs'.used[b] <==> fs.used[b] || Owns(fs', s, b);
      if Owned(fs, b) { var t :| Owns(fs, t, b); assert Owns(fs', t, b); }
      if Owned(fs', b) { var t :| Owns(fs', t, b); if t != s { assert Owns(fs, t, b); } }
    }
  }

  lemma {:induction false} CreatedOk(fs: Fs, n: Name, s: nat, d: DiskInode)
    requires Inv(fs) && Allocated(fs.used, s, d) && n !in fs.dir && |fs.dir| < DIR_ENTRIES
    ensures Inv(Created(fs, n, s, d))
  {
    var fs' := Created(fs, n, s, d);
    NotLive(fs, s);
    CreatedSpace(fs, n, s, d);
    forall t | t in fs'.open ensures InodeOk(fs', t) {
      assert InodeOk(fs, t);
      NewName(fs.dir, n, s, t);
    }
    assert forall m | m in fs.dir :: fs.dir[m] in fs.dir.Values;
  }

  // ----- a creation that fails in the directory

  ghost function ExtentSet(d: DiskInode): set<nat> {
    set b: nat | d.start <= b < d.start + SectorCount(d.length) && InExtent(d, b)
  }

  /** The inode's sector is given back but the data's sectors are not. */
  ghost function Lost(fs: Fs, s: nat, d: DiskInode): Fs
    requires Allocated(fs.used, s, d)
  {
    fs.(used := Filled(Taken(fs.used, s, d), s, 1, false), inodes := fs.inodes[s := d], lost := fs.lost + ExtentSet(d))
  }

  lemma {:induction false} LostUsed(fs: Fs, s: nat, d: DiskInode, b: nat)
    requires Allocated(fs.used, s, d) && b < |fs.used|
    ensures !InExtent(d, s) && (InExtent(d, b) ==> !fs.used[b])
    ensures Lost(fs, s, d).used[b] <==> fs.used[b] || InExtent(d, b)
  {
    var u := Filled(fs.used, s, 1, true);
    assert u[s];
    assert InExtent(d, b) ==> !u[b];
  }

  lemma {:induction false} LostSpace(fs: Fs, s: nat, d: DiskInode)
    requires SpaceOk(fs) && Allocated(fs.used, s, d)
    ensures SpaceOk(Lost(fs, s, d))
  {
    var fs' := Lost(fs, s, d);
    NotLive(fs, s);
    forall t: nat, b: nat ensures Owns(fs', t, b) <==> Owns(fs, t, b) {}
    forall t: nat, b: nat | Owns(fs, t, b) ensures !InExtent(d, b) { assert Owned(fs, b); LostUsed(fs, s, d, b); }
    forall b: nat | b < |fs.used| ensures fs'.used[b] <==> b in fs'.lost || Owned(fs', b) {
      LostUsed(fs, s, d, b);
      if Owned(fs, b) { var t :| Owns(fs, t, b); assert Owns(fs', t, b); }
      if Owned(fs', b) { var t :| Owns(fs', t, b); assert Owns(fs, t, b); }
    }
  }

  lemma {:induction false} LostOk(fs: Fs, s: nat, d: DiskInode)
    requires Inv(fs) && Allocated(fs.used, s, d)
    ensures Inv(Lost(fs, s, d))
  {
    var fs' := Lost(fs, s, d);
    NotLive(fs, s);
    LostSpace(fs, s, d);
    forall t | t in fs'.open ensures InodeOk(fs', t) { assert InodeOk(fs, t); }
  }

  // ----- denying writes

  function Denied(fs: Fs, s: nat): Fs
    requires s in fs.open
  {
    fs.(open := fs.open[s := fs.open[s].(denyCnt := fs.open[s].denyCnt + 1)], denied := fs.denied + multiset{s})
  }

  function Allowed(fs: Fs, s: nat): Fs
    requires s in fs.open && fs.open[s].denyCnt > 0
  {
    fs.(open := fs.open[s := fs.open[s].(denyCnt := fs.open[s].denyCnt - 1)], denied := fs.denied - multiset{s})
  }

  lemma {:induction false} DeniedOk(fs: Fs, s: nat)
    requires Inv(fs) && s in fs.handles && fs.denied[s] < fs.handles[s] && s >= 2
    ensures s in fs.open && Inv(Denied(fs, s)) && Denied(fs, s).open[s].denyCnt <= Denied(fs, s).open[s].openCnt
  {
    SameSpace(fs, Denied(fs, s));
    DeniedOpen(fs, s);
  }

  lemma {:induction false} DeniedOpen(fs: Fs, s: nat)
    requires OpenOk(fs) && s in fs.handles && fs.denied[s] < fs.handles[s] && s >= 2
    ensures s in fs.open && OpenOk(Denied(fs, s)) && Denied(fs, s).open[s].denyCnt <= Denied(fs, s).open[s].openCnt
  {
    var fs' := Denied(fs, s);
    forall t | t in fs'.open ensures InodeOk(fs', t) { assert InodeOk(fs, t); }
    forall t: nat ensures fs'.denied[t] <= fs'.handles[t] { assert fs.denied[t] <= fs.handles[t]; }
  }

  lemma {:induction false} AllowedOk(fs: Fs, s: nat)
    requires Inv(fs) && s in fs.denied
    ensures s in fs.open && 0 < fs.open[s].denyCnt <= fs.open[s].openCnt && Inv(Allowed(fs, s))
  {
    assert fs.denied[s] <= fs.handles[s];
    assert InodeOk(fs, s);
    SameSpace(fs, Allowed(fs, s));
    AllowedOpen(fs, s);
  }

  lemma {:induction false} AllowedOpen(fs: Fs, s: nat)
    requires OpenOk(fs) && s in fs.denied && s in fs.open && fs.open[s].denyCnt > 0
    ensures OpenOk(Allowed(fs, s))
  {
    var fs' := Allowed(fs, s);
    forall t | t in fs'.open ensures InodeOk(fs', t) { assert InodeOk(fs, t); AllowedInode(fs, s, t); }
    forall t: nat ensures fs'.denied[t] <= fs'.handles[t] { assert fs.denied[t] <= fs.handles[t]; }
  }

  lemma {:induction false} AllowedInode(fs: Fs, s: nat, t: nat)
    requires s in fs.denied && s in fs.open && fs.open[s].denyCnt > 0 && t in fs.open && InodeOk(fs, t)
    ensures InodeOk(Allowed(fs, s), t)
  {
  }

  // ----- a freshly formatted disk

  ghost function Formatted(used: seq<bool>, d0: DiskInode, d1: DiskInode): Fs {
    Fs(used, map[FREE_MAP_SECTOR := d0, ROOT_DIR_SECTOR := d1], map[],
      map[FREE_MAP_SECTOR := Inode(FREE_MAP_SECTOR, 1, false, 0, d0)],
       multiset{FREE_MAP_SECTOR}, multiset{}, {})
  }

  /** The two system files are there and no other, and the root directory has room for 16 entries. */
  ghost predicate IsFormatted(fs: Fs) {
    && fs.inodes.Keys == {FREE_MAP_SECTOR, ROOT_DIR_SECTOR} && fs.inodes[ROOT_DIR_SECTOR].length == 20 * DIR_ENTRIES
    && fs.inodes[FREE_MAP_SECTOR].length == FreeMapBytes(|fs.used|)
    && fs == Formatted(fs.used, fs.inodes[FREE_MAP_SECTOR], fs.inodes[ROOT_DIR_SECTOR])
  }

  lemma {:induction false} FormattedOk(used: seq<bool>, d0: DiskInode, d1: DiskInode)
    requires MapOf(used, d0, d1)
    ensures Inv(Formatted(used, d0, d1))
  {
    var fs := Formatted(used, d0, d1);
    forall s: nat ensures Live(fs, s) <==> s < 2 {}
    forall b: nat | b < |used| ensures used[b] <==> Owned(fs, b) {
      if b == 0 || InExtent(d0, b) { assert Owns(fs, 0, b); }
      if b == 1 || InExtent(d1, b) { assert Owns(fs, 1, b); }
    }
  }

  /** bitmap_file_size: the bytes of a map of that many bits */
  function FreeMapBytes(blocks: nat): nat { 4 * ((blocks + 31) / 32) }

  /** Exactly the first two sectors and the two extents are marked, and these do not overlap. */
  ghost predicate MapOf(used: seq<bool>, d0: DiskInode, d1: DiskInode) {
    && |used| >= 2 && d0.start + SectorCount(d0.length) <= |used| && d1.start + SectorCount(d1.length) <= |used|
    && (forall b: nat | b < |used| :: used[b] <==> b < 2 || InExtent(d0, b) || InExtent(d1, b))
    && (forall b: nat | InExtent(d0, b) :: b >= 2 && !InExtent(d1, b))
    && (forall b: nat | InExtent(d1, b) :: b >= 2)
  }

  /** If exactly the first m bits are set then the first fit is at m. */
  lemma {:induction false} FirstFree(s: seq<bool>, m: nat, cnt: nat, r: Index)
    requires m <= |s| && cnt > 0 && (forall b :: 0 <= b < |s| ==> (s[b] <==> b < m)) && FirstFit(s, 0, cnt, false, r)
    ensures r == if m + cnt <= |s| then Some(m) else None
  {
    if m + cnt <= |s| { assert AllAre(s, m, cnt, false); }
    if r.Some? { assert !s[r.value]; }
  }

  // ----- the list of open inodes

  ghost predicate DistinctSectors(q: seq<Inode>) {
    forall i, j :: 0 <= i < j < |q| ==> q[i].sector != q[j].sector
  }

  /** The list as a map, by sector */
  ghost function Table(q: seq<Inode>): map<nat, Inode> {
    if q == [] then map[] else Table(q[1..])[q[0].sector := q[0]]
  }

  lemma {:induction false} TableHas(q: seq<Inode>, s: nat)
    requires DistinctSectors(q)
    ensures s in Table(q) <==> exists i :: 0 <= i < |q| && q[i].sector == s
    ensures forall i :: 0 <= i < |q| && q[i].sector == s ==> s in Table(q) && Table(q)[s] == q[i]
  {
    if q != [] {
      TableHas(q[1..], s);
      forall i | 0 <= i < |q| && q[i].sector == s ensures s in Table(q) && Table(q)[s] == q[i] {
        if i > 0 { assert q[1..][i - 1] == q[i]; }
      }
      if s in Table(q[1..]) {
        var j :| 0 <= j < |q[1..]| && q[1..][j].sector == s;
        assert q[j + 1].sector == s;
      }
    }
  }

  lemma {:induction false} TablePush(q: seq<Inode>, x: Inode)
    requires DistinctSectors(q) && x.sector !in Table(q)
    ensures DistinctSectors([x] + q) && Table([x] + q) == Table(q)[x.sector := x]
  {
    assert ([x] + q)[1..] == q;
    TableHas(q, x.sector);
  }

  lemma {:induction false} TableUpdate(q: seq<Inode>, i: nat, x: Inode)
    requires DistinctSectors(q) && i < |q| && x.sector == q[i].sector
    ensures DistinctSectors(q[i := x]) && Table(q[i := x]) == Table(q)[x.sector := x]
  {
    if i > 0 {
      assert q[i := x][1..] == q[1..][i - 1 := x];
      TableUpdate(q[1..], i - 1, x);
    } else {
      assert q[i := x][1..] == q[1..];
    }
  }

  lemma {:induction false} TableCut(q: seq<Inode>, i: nat)
    requires DistinctSectors(q) && i < |q|
    ensures DistinctSectors(q[..i] + q[i + 1..]) && Table(q[..i] + q[i + 1..]) == Table(q) - {q[i].sector}
  {
    CutDistinct(q, i);
    CutTail(q, i);
    if i == 0 { TableHas(q[1..], q[0].sector); } else { TableCut(q[1..], i - 1); }
  }

  lemma {:induction false} CutDistinct(q: seq<Inode>, i: nat)
    requires DistinctSectors(q) && i < |q|
    ensures DistinctSectors(q[..i] + q[i + 1..]) && DistinctSectors(q[1..])
  {
  }

  lemma {:induction false} CutTail(q: seq<Inode>, i: nat)
    requires i < |q|
    ensures var r := q[..i] + q[i + 1..];
      if i == 0 then r == q[1..] else r != [] && r[0] == q[0] && r[1..] == q[1..][..i - 1] + q[1..][i..]
  {
  }

  // ----- the operations

  class FileSystem {
    const freeMap: Bitmap
    var inodes: map<nat, DiskInode>
    var dir: map<Name, nat>
    var open: seq<Inode>
    ghost var handles: multiset<nat>
    ghost var denied: multiset<nat>
    ghost var lost: set<nat>

    ghost function State(): Fs
      requires freeMap.Valid()
      reads this, freeMap.bits
    {
      Fs(freeMap.Contents(), inodes, dir, Table(open), handles, denied, lost)
    }

    ghost predicate Valid()
      reads this, freeMap.bits
    {
      freeMap.Valid() && DistinctSectors(open) && Inv(State())
    }

    /** The state after formatting: the two system files, and the free map file open */
    constructor Mounted(freeMap: Bitmap, d0: DiskInode, d1: DiskInode)
      requires freeMap.Valid() && freeMap.bitCnt >= 2 && MapOf(freeMap.Contents(), d0, d1)
      ensures Valid() && this.freeMap == freeMap && State() == Formatted(freeMap.Contents(), d0, d1)
    {
      this.freeMap := freeMap;
      inodes := map[FREE_MAP_SECTOR := d0, ROOT_DIR_SECTOR := d1];
      dir := map[];
      open := [Inode(FREE_MAP_SECTOR, 1, false, 0, d0)];
      handles, denied, lost := multiset{FREE_MAP_SECTOR}, multiset{}, {};
      new;
      FormattedOk(freeMap.Contents(), d0, d1);
      assert open[1..] == [];
      assert Table(open) == map[FREE_MAP_SECTOR := open[0]];
    }

    /** filesys_init with formatting: none stands for a panic, which happens exactly if the device is too small. */
    static method Format(blocks: nat) returns (r: Option<FileSystem>)
      requires blocks >= 2
      ensures r.Some? <==> 3 + SectorCount(FreeMapBytes(blocks)) <= blocks
      ensures r.Some? ==>
        fresh(r.value) && fresh(r.value.freeMap.bits) && r.value.Valid() && r.value.freeMap.bitCnt == blocks
      ensures r.Some? ==> IsFormatted(r.value.State())
    {
      var map_ := new Bitmap(blocks);
      map_.Mark(FREE_MAP_SECTOR);
      map_.Mark(ROOT_DIR_SECTOR);
      ghost var s0 := map_.Contents();
      var k := SectorCount(FreeMapBytes(blocks));
      var a := map_.ScanAndFlip(0, k, false);
      FirstFree(s0, 2, k, a);
      if a.None? { return None; }
      ghost var s1 := map_.Contents();
      var b := map_.ScanAndFlip(0, SectorCount(16 * 20), false);
      FirstFree(s1, 2 + k, 1, b);
      if b.None? { return None; }
      var d0, d1 := DiskInode(a.value, FreeMapBytes(blocks)), DiskInode(b.value, 16 * 20);
      var fs := new FileSystem.Mounted(map_, d0, d1);
      return Some(fs);
    }

    /** The position of the open inode for sector s */
    method FindOpen(s: nat) returns (r: Option<nat>)
      requires DistinctSectors(open)
      ensures r.Some? <==> s in Table(open)
      ensures r.Some? ==> r.value < |open| && open[r.value].sector == s && Table(open)[s] == open[r.value]
    {
      TableHas(open, s);
      var i := 0;
      while i < |open|
        invariant i <= |open| && forall j :: 0 <= j < i ==> open[j].sector != s
      {
        if open[i].sector == s { return Some(i); }
        i := i + 1;
      }
      return None;
    }

    /** inode_open: an inode that is open already is shared. */
    method InodeOpen(s: nat)
      requires freeMap.Valid() && DistinctSectors(open) && s in inodes
      modifies this
      ensures DistinctSectors(open) && State() == Opened(old(State()), s)
    {
      var r := FindOpen(s);
      if r.Some? {
        TableUpdate(open, r.value, open[r.value].(openCnt := open[r.value].openCnt + 1));
        open := open[r.value := open[r.value].(openCnt := open[r.value].openCnt + 1)];
      } else {
        TablePush(open, Inode(s, 1, false, 0, inodes[s]));
        open := [Inode(s, 1, false, 0, inodes[s])] + open;
      }
      handles := handles + multiset{s};
    }

    /** inode_close: the last close of a removed file gives its sectors back. */
    method InodeClose(s: nat)
      requires freeMap.Valid() && DistinctSectors(open) && CanClose(State(), s)
      requires var d := Table(open)[s].data;
        freeMap.Contents()[s] && AllAre(Filled(freeMap.Contents(), s, 1, false), d.start, SectorCount(d.length), true)
      modifies this, freeMap.bits
      ensures DistinctSectors(open) && State() == Closed(old(State()), s)
    {
      var r := FindOpen(s);
      var i := open[r.value];
      if i.openCnt > 1 {
        TableUpdate(open, r.value, i.(openCnt := i.openCnt - 1));
        open := open[r.value := i.(openCnt := i.openCnt - 1)];
      } else {
        TableCut(open, r.value);
        open := open[..r.value] + open[r.value + 1..];
        if i.removed {
          FreeMapRelease(s, 1);
          FreeMapRelease(i.data.start, SectorCount(i.data.length));
        }
      }
      handles := handles - multiset{s};
    }

    /** file_close and dir_close: the sectors released are all marked used, as free_map_release asserts. */
    method Close(s: nat)
      requires Valid() && s in handles && denied[s] < handles[s]
      modifies this, freeMap.bits
      ensures Valid() && old(CanClose(State(), s)) && State() == Closed(old(State()), s)
    {
      CloseReady(State(), s);
      ClosedOpen(State(), s);
      ClosedSpace(State(), s);
      InodeClose(s);
    }

    /** free_map_allocate */
    method FreeMapAllocate(cnt: nat) returns (r: Index)
      requires freeMap.Valid()
      modifies freeMap.bits
      ensures FirstFit(old(freeMap.Contents()), 0, cnt, false, r)
      ensures freeMap.Contents() == if r.Some? then Filled(old(freeMap.Contents()), r.value, cnt, true)
        else old(freeMap.Contents())
    {
      r := freeMap.ScanAndFlip(0, cnt, false);
    }

    /** dir_add, on the directory as a map */
    method DirAdd(n: Name, s: nat) returns (ok: bool)
      modifies this`dir
      ensures ok <==> Acceptable(old(dir), n)
      ensures dir == if ok then old(dir)[n := s] else old(dir)
    {
      if n == [] || |n| > Directory.NAME_MAX || n in dir || |dir| >= DIR_ENTRIES { return false; }
      dir := dir[n := s];
      return true;
    }

    /** filesys_create between opening and closing the root directory */
    method CreateIn(n: Name, length: nat) returns (ok: bool, place: Option<(nat, DiskInode)>)
      requires freeMap.Valid() && freeMap.bitCnt >= 2 && freeMap.Contents()[FREE_MAP_SECTOR]
      modifies this`inodes, this`dir, this`lost, freeMap.bits
      ensures Placed(old(freeMap.Contents()), length, place) && (ok <==> place.Some? && Acceptable(old(dir), n))
      ensures State() == CreateEffect(old(State()), n, place)
    {
      ghost var used := freeMap.Contents();
      ok, place := false, None;
      var a := FreeMapAllocate(1);
      if a.None? { return; }
      var b := FreeMapAllocate(SectorCount(length));
      if b.Some? {
        var d := DiskInode(b.value, length);
        place := Some((a.value, d));
        inodes := inodes[a.value := d];
        ok := DirAdd(n, a.value);
        if !ok { lost := lost + ExtentSet(d); }
      } else {
        NoPlace(used, length, a.value, b);
      }
      if !ok && a.value != 0 {
        FreeMapRelease(a.value, 1);
      }
    }

    /** filesys_create succeeds exactly if there is a place for the file and the directory takes its name. If there
        is a place but the directory does not take the name, the data's sectors are lost. place is where the
        inode and the data went. */
    method Create(n: Name, length: nat) returns (ok: bool, place: Option<(nat, DiskInode)>)
      requires Valid()
      modifies this, freeMap.bits
      ensures Valid() && Placed(old(freeMap.Contents()), length, place)
      ensures ok <==> place.Some? && Acceptable(old(dir), n)
      ensures State() == CreateEffect(old(State()), n, place)
    {
      ghost var fs := State();
      RootReady(fs);
      InodeOpen(ROOT_DIR_SECTOR);
      ok, place := CreateIn(n, length);
      EffectGrows(fs, n, place);
      RootRoundTrip(fs, State());
      InodeClose(ROOT_DIR_SECTOR);
      CreateEffectOk(fs, n, place);
    }

    /** filesys_open */
    method OpenFile(n: Name) returns (r: Option<nat>)
      requires Valid()
      modifies this, freeMap.bits
      ensures Valid() && (r == if n in old(dir) then Some(old(dir)[n]) else None)
      ensures r.Some? ==> r.value in old(inodes)
      ensures State() == if r.Some? then Opened(old(State()), r.value) else old(State())
    {
      ghost var fs := State();
      RootReady(fs);
      InodeOpen(ROOT_DIR_SECTOR);
      r := None;
      if n in dir {
        r := Some(dir[n]);
        NamedIsLive(fs, n);
        OpenedOk(fs, r.value);
        OpenOpen(fs, r.value);
        RootReady(Opened(fs, r.value));
        InodeOpen(r.value);
        fs := Opened(fs, r.value);
      }
      RootRoundTrip(fs, State());
      InodeClose(ROOT_DIR_SECTOR);
    }

    /** file_reopen */
    method Reopen(s: nat)
      requires Valid() && s in handles
      modifies this
      ensures Valid() && s in old(inodes) && State() == Opened(old(State()), s)
    {
      OpenedOk(State(), s);
      InodeOpen(s);
    }

    /** file_close, which takes back the file's denial if it has one */
    method CloseFile(s: nat, deny: bool)
      requires Valid() && s in handles && (if deny then s in denied else denied[s] < handles[s])
      modifies this, freeMap.bits
      ensures Valid() && handles == old(handles) - multiset{s}
        && denied == old(denied) - (if deny then multiset{s} else multiset{})
      ensures s in old(Table(open)) && var i := old(Table(open))[s];
        && i.data.start + SectorCount(i.data.length) <= |old(freeMap.Contents())| && s < |old(freeMap.Contents())|
        && freeMap.Contents() == if old(handles)[s] == 1 && i.removed then Released(old(freeMap.Contents()), s, i.data)
          else old(freeMap.Contents())
      ensures inodes == old(inodes) && dir == old(dir) && lost == old(lost)
    {
      CloseReady(State(), s);
      CountIsHandles(State(), s);
      if deny { AllowWrite(s); }
      Close(s);
    }

    method DenyWrite(s: nat)
      requires Valid() && s in handles && denied[s] < handles[s] && s >= 2
      modifies this
      ensures Valid() && s in old(Table(open)) && State() == Denied(old(State()), s)
    {
      DeniedOk(State(), s);
      SetDenyCnt(s, true);
    }

    method AllowWrite(s: nat)
      requires Valid() && s in denied
      modifies this
      ensures Valid() && s in old(Table(open)) && old(Table(open))[s].denyCnt > 0 && State() == Allowed(old(State()), s)
      ensures denied == old(denied) - multiset{s} && handles == old(handles) && denied[s] < handles[s]
    {
      AllowedOk(State(), s);
      SetDenyCnt(s, false);
    }

    method SetDenyCnt(s: nat, more: bool)
      requires freeMap.Valid() && DistinctSectors(open) && s in Table(open) && (!more ==> Table(open)[s].denyCnt > 0)
      modifies this`open, this`denied
      ensures DistinctSectors(open) && State() == if more then Denied(old(State()), s) else Allowed(old(State()), s)
    {
      var r := FindOpen(s);
      var i := open[r.value];
      var i' := i.(denyCnt := if more then i.denyCnt + 1 else i.denyCnt - 1);
      TableUpdate(open, r.value, i');
      open := open[r.value := i'];
      denied := if more then denied + multiset{s} else denied - multiset{s};
    }

    /** The name erased and the inode marked removed */
    method Unlink(n: Name)
      requires freeMap.Valid() && DistinctSectors(open) && n in dir && dir[n] in Table(open)
      modifies this`open, this`dir
      ensures DistinctSectors(open) && State() == Unlinked(old(State()), n)
    {
      var r := FindOpen(dir[n]);
      TableUpdate(open, r.value, open[r.value].(removed := true));
      open := open[r.value := open[r.value].(removed := true)];
      dir := dir - {n};
    }

    /** filesys_remove: the file goes at once if no one has it open, and otherwise at its last close. */
    method Remove(n: Name) returns (ok: bool)
      requires Valid()
      modifies this, freeMap.bits
      ensures Valid() && (ok <==> n in old(dir))
      ensures ok ==> CanRemove(old(State()), n)
      ensures State() == if ok then RemovedFs(old(State()), n) else old(State())
    {
      ghost var fs := State();
      RootReady(fs);
      InodeOpen(ROOT_DIR_SECTOR);
      ok := n in dir;
      if ok {
        RemoveOk(fs, n);
        var s := dir[n];
        InodeOpen(s);
        Unlink(n);
        InodeClose(s);
        fs := RemovedFs(fs, n);
        RootReady(fs);
      }
      RootRoundTrip(fs, State());
      InodeClose(ROOT_DIR_SECTOR);
    }

    method FreeMapRelease(sector: nat, cnt: nat)
      requires freeMap.Valid() && sector + cnt <= freeMap.bitCnt && AllAre(freeMap.Contents(), sector, cnt, true)
      modifies freeMap.bits
      ensures freeMap.Contents() == Filled(old(freeMap.Contents()), sector, cnt, false)
    {
      var all := freeMap.All(sector, cnt);
      assert all;
      freeMap.SetMultiple(sector, cnt, false);
    }
  }

  // ----- creating, in full

  /** dir_add takes the name. */
  ghost predicate Acceptable(dir: map<Name, nat>, n: Name) {
    Directory.ValidName(n) && n !in dir && |dir| < DIR_ENTRIES
  }

  /** Where a file of the given length goes: first fits for its inode and then for its data */
  ghost predicate Place(used: seq<bool>, length: nat, s: nat, d: DiskInode) {
    && FirstFit(used, 0, 1, false, Some(s)) && d.length == length
    && FirstFit(Filled(used, s, 1, true), 0, SectorCount(length), false, Some(d.start))
  }

  ghost predicate Placed(used: seq<bool>, length: nat, place: Option<(nat, DiskInode)>) {
    match place
    case Some(p) => Place(used, length, p.0, p.1) && Allocated(used, p.0, p.1)
    case None => forall s: nat, d: DiskInode :: !Place(used, length, s, d)
  }

  /** What filesys_create does to a file system in which the file would go to place */
  ghost function CreateEffect(fs: Fs, n: Name, place: Option<(nat, DiskInode)>): Fs
    requires place.Some? ==> Allocated(fs.used, place.value.0, place.value.1)
  {
    match place
    case None => fs
    case Some(p) => if Acceptable(fs.dir, n) then Created(fs, n, p.0, p.1) else Lost(fs, p.0, p.1)
  }

  lemma {:induction false} CreateEffectOk(fs: Fs, n: Name, place: Option<(nat, DiskInode)>)
    requires Inv(fs) && (place.Some? ==> Allocated(fs.used, place.value.0, place.value.1))
    ensures Inv(CreateEffect(fs, n, place))
  {
    if place.Some? {
      if Acceptable(fs.dir, n) { CreatedOk(fs, n, place.value.0, place.value.1); }
        else { LostOk(fs, place.value.0, place.value.1); }
    }
  }

  /** A creation that the directory refuses leaves the free map as it was exactly if there was no place for the file
      or it had no data. */
  lemma {:induction false} RefusedKeepsMapIff(fs: Fs, n: Name, length: nat, place: Option<(nat, DiskInode)>)
    requires Placed(fs.used, length, place) && !Acceptable(fs.dir, n)
    ensures CreateEffect(fs, n, place).used == fs.used <==> place.None? || length == 0
  {
    if place.Some? {
      var (s, d) := place.value;
      var fs' := CreateEffect(fs, n, place);
      forall b: nat | b < |fs.used| ensures fs'.used[b] <==> fs.used[b] || InExtent(d, b) { LostUsed(fs, s, d, b); }
      if length > 0 {
        assert InExtent(d, d.start);
        LostUsed(fs, s, d, d.start);
      } else {
        assert fs'.used == fs.used;
      }
    }
  }

  /** What is lost is all of the data's sectors: they are marked used, and no file, whatever happens to the others,
      has them. */
  lemma {:induction false} RefusedLoses(fs: Fs, n: Name, length: nat, place: Option<(nat, DiskInode)>, b: nat)
    requires Inv(fs) && Placed(fs.used, length, place) && place.Some? && !Acceptable(fs.dir, n)
    requires InExtent(place.value.1, b)
    ensures var fs' := CreateEffect(fs, n, place);
      b < |fs.used| && !fs.used[b] && fs'.used[b] && b in fs'.lost && !Owned(fs', b)
  {
    var (s, d) := place.value;
    LostUsed(fs, s, d, b);
    CreateEffectOk(fs, n, place);
    assert b in ExtentSet(d);
  }

  /** The map of n sectors of which exactly the first m are used */
  ghost function FirstUsed(n: nat, m: nat): (u: seq<bool>)
    ensures |u| == n && forall b :: 0 <= b < n ==> (u[b] <==> b < m)
  {
    seq(n, b requires 0 <= b < n => b < m)
  }

  lemma {:induction false} NextPlace(n: nat, m: nat, length: nat)
    requires m + 1 + SectorCount(length) <= n && length > 0
    ensures Placed(FirstUsed(n, m), length, Some((m, DiskInode(m + 1, length))))
    ensures Taken(FirstUsed(n, m), m, DiskInode(m + 1, length)) == FirstUsed(n, m + 1 + SectorCount(length))
  {
    var u, u' := FirstUsed(n, m), FirstUsed(n, m + 1);
    assert Filled(u, m, 1, true) == u';
    forall j | 0 <= j < m ensures !AllAre(u, j, 1, false) { assert u[j]; }
    forall j | 0 <= j < m + 1 ensures !AllAre(u', j, SectorCount(length), false) { assert u'[j]; }
  }

  /** The empty file system of eight sectors, and a file of one byte in it */
  ghost function Small(): Fs { Formatted(FirstUsed(8, 4), DiskInode(2, 4), DiskInode(3, 320)) }

  lemma {:induction false} CreateInSmall(n: Name)
    requires Directory.ValidName(n)
    ensures Inv(Small()) && Placed(Small().used, 1, Some((4, DiskInode(5, 1))))
    ensures var fs := CreateEffect(Small(), n, Some((4, DiskInode(5, 1)))); fs.used == FirstUsed(8, 6) && n in fs.dir
  {
    FormattedOk(FirstUsed(8, 4), DiskInode(2, 4), DiskInode(3, 320));
    NextPlace(8, 4, 1);
  }

  /** An instance: the file is created a second time under the same name. It is refused, and a sector is lost. */
  lemma {:induction false} SecondCreateLoses(n: Name)
    requires Directory.ValidName(n)
    ensures Placed(Small().used, 1, Some((4, DiskInode(5, 1))))
    ensures var fs := CreateEffect(Small(), n, Some((4, DiskInode(5, 1))));
      && Inv(fs) && !Acceptable(fs.dir, n) && Placed(fs.used, 1, Some((6, DiskInode(7, 1))))
      && CreateEffect(fs, n, Some((6, DiskInode(7, 1)))).used[7] && !fs.used[7]
  {
    CreateInSmall(n);
    CreateEffectOk(Small(), n, Some((4, DiskInode(5, 1))));
    var fs := CreateEffect(Small(), n, Some((4, DiskInode(5, 1))));
    NextPlace(8, 6, 1);
    LostUsed(fs, 6, DiskInode(7, 1), 7);
  }

  lemma {:induction false} NoPlace(used: seq<bool>, length: nat, s: nat, r: Index)
    requires FirstFit(used, 0, 1, false, Some(s)) && r.None?
      && FirstFit(Filled(used, s, 1, true), 0, SectorCount(length), false, r)
    ensures forall t: nat, d: DiskInode :: !Place(used, length, t, d)
    ensures Filled(Filled(used, s, 1, true), s, 1, false) == used
  {
    forall t: nat, d: DiskInode ensures !Place(used, length, t, d) {
      if Place(used, length, t, d) {
        FirstFitUnique(used, 0, 1, false, Some(s), Some(t));
        FirstFitUnique(Filled(used, s, 1, true), 0, SectorCount(length), false, r, Some(d.start));
      }
    }
  }

  lemma {:induction false} EffectGrows(fs: Fs, n: Name, place: Option<(nat, DiskInode)>)
    requires place.Some? ==> Allocated(fs.used, place.value.0, place.value.1)
    ensures Grown(fs.used, CreateEffect(fs, n, place).used)
  {
  }

  // ----- the root directory, opened for the time of one operation

  /** used has at least the bits that used0 has. */
  ghost predicate Grown(used0: seq<bool>, used: seq<bool>) {
    |used| == |used0| && forall b | 0 <= b < |used0| && used0[b] :: used[b]
  }

  /** What there is to know about the root directory */
  ghost predicate RootOk(fs: Fs) {
    && ROOT_DIR_SECTOR in fs.inodes && |fs.used| >= 2 && fs.used[FREE_MAP_SECTOR] && fs.used[ROOT_DIR_SECTOR]
      && ExtentFits(fs, ROOT_DIR_SECTOR)
    && var d := fs.inodes[ROOT_DIR_SECTOR];
    && AllAre(fs.used, d.start, SectorCount(d.length), true)
    && (ROOT_DIR_SECTOR in fs.open ==> var i := fs.open[ROOT_DIR_SECTOR]; i.openCnt > 0 && !i.removed && i.data == d)
  }

  lemma {:induction false} RootReady(fs: Fs)
    requires Inv(fs)
    ensures RootOk(fs)
  {
    ExtentInMap(fs, ROOT_DIR_SECTOR);
    ExtentInMap(fs, FREE_MAP_SECTOR);
    assert ExtentFits(fs, ROOT_DIR_SECTOR);
    if ROOT_DIR_SECTOR in fs.open { assert InodeOk(fs, ROOT_DIR_SECTOR); }
  }

  /** Closing the root directory again restores the open inodes. */
  lemma {:induction false} RootRoundTrip(fs: Fs, fs': Fs)
    requires RootOk(fs) && Grown(fs.used, fs'.used)
    requires fs'.open == Opened(fs, ROOT_DIR_SECTOR).open && fs'.handles == Opened(fs, ROOT_DIR_SECTOR).handles
    ensures CanClose(fs', ROOT_DIR_SECTOR) && fs'.used[ROOT_DIR_SECTOR]
    ensures var d := fs'.open[ROOT_DIR_SECTOR].data;
      AllAre(Filled(fs'.used, ROOT_DIR_SECTOR, 1, false), d.start, SectorCount(d.length), true)
    ensures Closed(fs', ROOT_DIR_SECTOR) == fs'.(open := fs.open, handles := fs.handles)
  {
    assert fs.handles + multiset{ROOT_DIR_SECTOR} - multiset{ROOT_DIR_SECTOR} == fs.handles;
    var d := fs'.open[ROOT_DIR_SECTOR].data;
    assert d == fs.inodes[ROOT_DIR_SECTOR];
    forall b | d.start <= b < d.start + SectorCount(d.length) ensures b != ROOT_DIR_SECTOR && fs'.used[b] {
      assert InExtent(d, b);
    }
    assert Closed(fs', ROOT_DIR_SECTOR).open == fs.open;
  }

  lemma {:induction false} NamedIsLive(fs: Fs, n: Name)
    requires Inv(fs) && n in fs.dir
    ensures Live(fs, fs.dir[n]) && fs.dir[n] >= 2 && fs.dir[n] in fs.inodes
  {
    assert fs.dir[n] in fs.dir.Values;
  }

  lemma {:induction false} OpenOpen(fs: Fs, s: nat)
    requires s != ROOT_DIR_SECTOR && s in fs.inodes && ROOT_DIR_SECTOR in fs.inodes
    ensures Opened(Opened(fs, ROOT_DIR_SECTOR), s) == Opened(Opened(fs, s), ROOT_DIR_SECTOR)
  {
    var a, b := Opened(Opened(fs, ROOT_DIR_SECTOR), s), Opened(Opened(fs, s), ROOT_DIR_SECTOR);
    assert a.open == b.open && a.handles == b.handles;
  }

  lemma {:induction false} CountIsHandles(fs: Fs, s: nat)
    requires Inv(fs) && s in fs.handles
    ensures s in fs.open && fs.open[s].openCnt == fs.handles[s]
  {
    assert InodeOk(fs, s);
  }

  ghost predicate CanClose(fs: Fs, s: nat) {
    && s in fs.open && fs.open[s].openCnt > 0 && s < |fs.used|
    && var d := fs.open[s].data; d.start + SectorCount(d.length) <= |fs.used|
  }

  lemma {:induction false} CloseReady(fs: Fs, s: nat)
    requires Inv(fs) && s in fs.handles
    ensures CanClose(fs, s) && fs.used[s]
    ensures var d := fs.open[s].data; AllAre(Filled(fs.used, s, 1, false), d.start, SectorCount(d.length), true)
  {
    assert InodeOk(fs, s);
    ExtentInMap(fs, s);
  }

  // ----- removing

  /** The file's inode is opened, unlinked and closed. */
  ghost predicate CanRemove(fs: Fs, n: Name) {
    n in fs.dir && fs.dir[n] in fs.inodes && CanClose(Unlinked(Opened(fs, fs.dir[n]), n), fs.dir[n])
  }

  ghost function RemovedFs(fs: Fs, n: Name): Fs
    requires CanRemove(fs, n)
  {
    Closed(Unlinked(Opened(fs, fs.dir[n]), n), fs.dir[n])
  }

  lemma {:induction false} RemovedOk(fs: Fs, n: Name)
    requires Inv(fs) && n in fs.dir
    ensures CanRemove(fs, n) && Inv(RemovedFs(fs, n))
    ensures var u, s := Unlinked(Opened(fs, fs.dir[n]), n), fs.dir[n];
      u.used[s] && AllAre(Filled(u.used, s, 1, false), u.open[s].data.start, SectorCount(u.open[s].data.length), true)
  {
    var s := fs.dir[n];
    NamedIsLive(fs, n);
    OpenedOk(fs, s);
    UnlinkedOk(Opened(fs, s), n);
    var u := Unlinked(Opened(fs, s), n);
    CloseReady(u, s);
    assert fs.denied[s] <= fs.handles[s];
    ClosedOpen(u, s);
    ClosedSpace(u, s);
  }

  /** Opening the root directory first makes no difference to the rest. */
  lemma {:induction false} RemoveCommutes(fs: Fs, n: Name)
    requires CanRemove(fs, n) && fs.dir[n] != ROOT_DIR_SECTOR && ROOT_DIR_SECTOR in fs.inodes
    ensures var s, r := fs.dir[n], Opened(fs, ROOT_DIR_SECTOR);
      CanRemove(r, n) && RemovedFs(r, n) == Opened(RemovedFs(fs, n), ROOT_DIR_SECTOR)
  {
    var s := fs.dir[n];
    OpenOpen(fs, s);
    UnlinkOpen(Opened(fs, s), n);
    CloseOpen(Unlinked(Opened(fs, s), n), s);
  }

  lemma {:induction false} UnlinkOpen(fs: Fs, n: Name)
    requires n in fs.dir && fs.dir[n] in fs.open && fs.dir[n] != ROOT_DIR_SECTOR && ROOT_DIR_SECTOR in fs.inodes
    ensures Unlinked(Opened(fs, ROOT_DIR_SECTOR), n) == Opened(Unlinked(fs, n), ROOT_DIR_SECTOR)
  {
    var a, b := Unlinked(Opened(fs, ROOT_DIR_SECTOR), n), Opened(Unlinked(fs, n), ROOT_DIR_SECTOR);
    assert a.open == b.open;
  }

  lemma {:induction false} CloseOpen(fs: Fs, s: nat)
    requires CanClose(fs, s) && s != ROOT_DIR_SECTOR && ROOT_DIR_SECTOR in fs.inodes && s in fs.handles
    ensures CanClose(Opened(fs, ROOT_DIR_SECTOR), s)
    ensures Closed(Opened(fs, ROOT_DIR_SECTOR), s) == Opened(Closed(fs, s), ROOT_DIR_SECTOR)
  {
    if fs.open[s].openCnt > 1 { CloseOneOpen(fs, s); } else { CloseLastOpen(fs, s); }
  }

  lemma {:induction false} CloseOneOpen(fs: Fs, s: nat)
    requires CanClose(fs, s) && s != ROOT_DIR_SECTOR && ROOT_DIR_SECTOR in fs.inodes && s in fs.handles
    requires fs.open[s].openCnt > 1
    ensures Closed(Opened(fs, ROOT_DIR_SECTOR), s) == Opened(Closed(fs, s), ROOT_DIR_SECTOR)
  {
    var r, i := ROOT_DIR_SECTOR, fs.open[s];
    InAndOut(fs.handles, r, s);
    OpenApart(fs.open, r, s, Opened(fs, r).open[r], i.(openCnt := i.openCnt - 1));
  }

  lemma {:induction false} CloseLastOpen(fs: Fs, s: nat)
    requires CanClose(fs, s) && s != ROOT_DIR_SECTOR && ROOT_DIR_SECTOR in fs.inodes && s in fs.handles
    requires fs.open[s].openCnt == 1
    ensures Closed(Opened(fs, ROOT_DIR_SECTOR), s) == Opened(Closed(fs, s), ROOT_DIR_SECTOR)
  {
    var r, i := ROOT_DIR_SECTOR, fs.open[s];
    InAndOut(fs.handles, r, s);
    OpenApart(fs.open, r, s, Opened(fs, r).open[r], i);
  }

  lemma {:induction false} OpenApart(open: map<nat, Inode>, r: nat, s: nat, x: Inode, y: Inode)
    requires r != s
    ensures open[r := x][s := y] == open[s := y][r := x] && open[r := x] - {s} == (open - {s})[r := x]
  {
  }

  lemma {:induction false} InAndOut(handles: multiset<nat>, r: nat, s: nat)
    requires s in handles
    ensures handles + multiset{r} - multiset{s} == handles - multiset{s} + multiset{r}
  {
  }

  lemma {:induction false} RemoveOk(fs: Fs, n: Name)
    requires Inv(fs) && n in fs.dir
    ensures CanRemove(fs, n) && Inv(RemovedFs(fs, n)) && ROOT_DIR_SECTOR in fs.inodes
    ensures var r := Opened(fs, ROOT_DIR_SECTOR);
      && CanRemove(r, n) && RemovedFs(r, n) == Opened(RemovedFs(fs, n), ROOT_DIR_SECTOR)
      && var u, s := Unlinked(Opened(r, fs.dir[n]), n), fs.dir[n];
      u.used[s] && AllAre(Filled(u.used, s, 1, false), u.open[s].data.start, SectorCount(u.open[s].data.length), true)
  {
    NamedIsLive(fs, n);
    RootReady(fs);
    RemovedOk(fs, n);
    RemoveCommutes(fs, n);
    OpenedOk(fs, ROOT_DIR_SECTOR);
    RemovedOk(Opened(fs, ROOT_DIR_SECTOR), n);
  }

  // ----- what the invariant is for

  /** In every state that the operations reach, the sectors of two different live files, system files included,
      are different and marked used. */
  lemma {:induction false} LiveFilesDisjoint(fs: Fs, s: nat, t: nat, b: nat)
    requires Inv(fs) && Live(fs, s) && Live(fs, t) && s != t && Owns(fs, s, b)
    ensures !Owns(fs, t, b) && b < |fs.used| && fs.used[b]
  {
    assert Owned(fs, b);
  }

  /** A removed file's sectors are released exactly at its last close: removing a file that is not open, or
      closing a removed one for the last time, clears them; anything else leaves the free map as it is. */
  lemma {:induction false} RemoveReleases(fs: Fs, n: Name)
    requires Inv(fs) && n in fs.dir
    ensures CanRemove(fs, n) && n !in RemovedFs(fs, n).dir && fs.dir[n] in fs.inodes && fs.dir[n] < |fs.used|
    ensures var s, d := fs.dir[n], fs.inodes[fs.dir[n]];
      && d.start + SectorCount(d.length) <= |fs.used|
      && RemovedFs(fs, n).used == (if s in fs.open then fs.used else Released(fs.used, s, d))
      && (s in fs.open ==> s in RemovedFs(fs, n).open && RemovedFs(fs, n).open[s].removed)
      && (s !in fs.open ==> s !in RemovedFs(fs, n).open && !Live(RemovedFs(fs, n), s))
  {
    var s := fs.dir[n];
    RemovedOk(fs, n);
    NamedIsLive(fs, n);
    ExtentInMap(fs, s);
    if s in fs.open { assert InodeOk(fs, s); }
    OtherNames(fs.dir, n, s);
  }

  lemma {:induction false} RunsApart(fs: Fs, s: nat, t: nat, a: nat, n: nat, c: nat, m: nat)
    requires Inv(fs) && s != t && n > 0 && m > 0
    requires (forall b: nat | a <= b < a + n :: Owns(fs, s, b)) && (forall b: nat | c <= b < c + m :: Owns(fs, t, b))
    ensures a + n <= c || c + m <= a
  {
    var b: nat := if a < c then c else a;
    assert b < a + n && b < c + m ==> Owns(fs, s, b) && Owns(fs, t, b);
  }

  /** Disk d' differs from d at most in the data of the live file at s. */
  ghost predicate WriteTo(fs: Fs, d: seq<Byte>, d': seq<Byte>, s: nat) {
    && Live(fs, s) && s in fs.inodes && |d| == 512 * |fs.used|
    && SameOutside(d, d', 512 * fs.inodes[s].start, 512 * fs.inodes[s].start + fs.inodes[s].length)
  }

  lemma {:induction false} RunKept(d: seq<Byte>, d': seq<Byte>, lo: nat, hi: nat, a: nat, b: nat)
    requires SameOutside(d, d', lo, hi) && a <= b <= |d| && (b <= lo || hi <= a)
    ensures d'[a..b] == d[a..b]
  {
  }

  /** What is written to the data of one live file does not reach the inode of any, ... */
  lemma {:induction false} InodesKept(fs: Fs, d: seq<Byte>, d': seq<Byte>, s: nat, t: nat)
    requires Inv(fs) && Live(fs, t) && WriteTo(fs, d, d', s)
    ensures 512 * t + 512 <= |d| == |d'| && d'[512 * t..512 * t + 512] == d[512 * t..512 * t + 512]
  {
    var e := fs.inodes[s];
    ExtentInMap(fs, t);
    if e.length > 0 {
      assert Owns(fs, t, t);
      if s == t {
        assert ExtentFits(fs, t);
      } else {
        DataOwned(fs, s);
        RunsApart(fs, s, t, e.start, SectorCount(e.length), t, 1);
      }
    }
    if e.length == 0 { assert d' == d; }
      else { RunKept(d, d', 512 * e.start, 512 * e.start + e.length, 512 * t, 512 * t + 512); }
  }

  /** ... nor the data of another: together with the contract of inode_write_at, files do not disturb each other. */
  lemma {:induction false} DataKept(fs: Fs, d: seq<Byte>, d': seq<Byte>, s: nat, t: nat)
    requires Inv(fs) && Live(fs, t) && s != t && WriteTo(fs, d, d', s)
    ensures t in fs.inodes && Fits(fs.inodes[t], |d|) && |d'| == |d|
      && FileBytes(fs.inodes[t], d') == FileBytes(fs.inodes[t], d)
  {
    ExtentInMap(fs, t);
    var e, x := fs.inodes[s], fs.inodes[t];
    if x.length > 0 && e.length > 0 {
      DataOwned(fs, s);
      DataOwned(fs, t);
      RunsApart(fs, s, t, e.start, SectorCount(e.length), x.start, SectorCount(x.length));
      RunKept(d, d', 512 * e.start, 512 * e.start + e.length, 512 * x.start, 512 * x.start + x.length);
    } else if e.length == 0 {
      assert d' == d;
    }
  }

  lemma {:induction false} DataOwned(fs: Fs, s: nat)
    requires Inv(fs) && Live(fs, s) && s in fs.inodes
    ensures var e := fs.inodes[s]; forall b: nat | e.start <= b < e.start + SectorCount(e.length) :: Owns(fs, s, b)
  {
    forall b: nat | fs.inodes[s].start <= b < fs.inodes[s].start + SectorCount(fs.inodes[s].length)
      ensures Owns(fs, s, b) {
      assert InExtent(fs.inodes[s], b);
    }
  }
}
