/** The flat directory (pintos/src/filesys/directory.c): 20-byte entries in a file behave as a bounded finite
    map from names to inode sectors. */
module Directory {
  import opened CStrings
  import opened InodeIo
  import opened Options
  import opened Words

  const NAME_MAX: nat := 14
  const ENTRY: nat := 20       // sizeof (struct dir_entry): a sector number, NAME_MAX + 1 characters, a flag

  // ----- one entry

  type Slot = s: seq<Byte> | |s| == ENTRY witness seq(ENTRY, _ => 0)

  predicate InUse(s: Slot) { s[19] != 0 }

  function NameOf(s: Slot): seq<Byte> { CString(s[4..19]) }

  function SectorOf(s: Slot): nat { WordAt(s, 0) }

  predicate ValidName(name: seq<Byte>) { 1 <= |name| <= NAME_MAX }

  /** The entry that dir_add writes into the slot old: what is behind the name's null byte stays. */
  function NewEntry(old_: Slot, name: seq<Byte>, sector: Word): Slot
    requires |name| <= NAME_MAX
  {
    WordBytes(sector) + name + [0] + old_[5 + |name|..19] + [1]
  }

  lemma {:induction false} NewEntryReads(old_: Slot, name: seq<Byte>, sector: Word)
    requires ValidName(name) && NulFree(name)
    ensures var e := NewEntry(old_, name, sector); InUse(e) && NameOf(e) == name && SectorOf(e) == sector
  {
    var e := NewEntry(old_, name, sector);
    assert e[4..19] == name + [0] + old_[5 + |name|..19];
    CStringOf(name, old_[5 + |name|..19]);
    ReadWord(e, 0, sector);
  }

  // ----- all entries

  /** The entries of a directory file */
  ghost function Slots(c: seq<Byte>): (ss: seq<Slot>)
    ensures |ss| == |c| / ENTRY
  {
    seq(|c| / ENTRY, k requires 0 <= k < |c| / ENTRY => c[ENTRY * k..ENTRY * k + ENTRY])
  }

  lemma {:induction false} SlotWritten(c: seq<Byte>, c': seq<Byte>, k: nat, e: Slot)
    requires k < |c| / ENTRY && Written(c, c', ENTRY * k, e)
    ensures Slots(c') == Slots(c)[k := e]
  {
    forall j | 0 <= j < |c| / ENTRY ensures Slots(c')[j] == Slots(c)[k := e][j] {
      var x := c'[ENTRY * j..ENTRY * j + ENTRY];
      if j == k {
        assert x == e;
      } else {
        assert x == c[ENTRY * j..ENTRY * j + ENTRY];
      }
    }
  }

  ghost predicate Unique(ss: seq<Slot>) {
    forall i, j | 0 <= i < j < |ss| && InUse(ss[i]) && InUse(ss[j]) :: NameOf(ss[i]) != NameOf(ss[j])
  }

  ghost predicate DirOk(ss: seq<Slot>) {
    Unique(ss) && forall i | 0 <= i < |ss| && InUse(ss[i]) :: ValidName(NameOf(ss[i]))
  }

  /** The directory as a map from names to inode sectors */
  ghost function Names(ss: seq<Slot>): map<seq<Byte>, nat>
    requires Unique(ss)
  {
    map i | 0 <= i < |ss| && InUse(ss[i]) :: NameOf(ss[i]) := SectorOf(ss[i])
  }

  lemma {:induction false} NamesAt(ss: seq<Slot>, i: nat)
    requires Unique(ss) && i < |ss| && InUse(ss[i])
    ensures NameOf(ss[i]) in Names(ss) && Names(ss)[NameOf(ss[i])] == SectorOf(ss[i])
  {
  }

  lemma {:induction false} NamesFrom(ss: seq<Slot>, n: seq<Byte>) returns (i: nat)
    requires Unique(ss) && n in Names(ss)
    ensures i < |ss| && InUse(ss[i]) && NameOf(ss[i]) == n && Names(ss)[n] == SectorOf(ss[i])
  {
    i :| 0 <= i < |ss| && InUse(ss[i]) && NameOf(ss[i]) == n;
    NamesAt(ss, i);
  }

  lemma {:induction false} AddedIsOk(ss: seq<Slot>, k: nat, e: Slot)
    requires DirOk(ss) && k < |ss| && InUse(e) && ValidName(NameOf(e)) && NameOf(e) !in Names(ss)
    ensures DirOk(ss[k := e])
  {
    forall i | 0 <= i < |ss| && InUse(ss[i]) ensures NameOf(ss[i]) in Names(ss) { NamesAt(ss, i); }
  }

  lemma {:induction false} EntryAdded(ss: seq<Slot>, k: nat, e: Slot)
    requires DirOk(ss) && k < |ss| && !InUse(ss[k]) && InUse(e) && ValidName(NameOf(e)) && NameOf(e) !in Names(ss)
    ensures DirOk(ss[k := e]) && Names(ss[k := e]) == Names(ss)[NameOf(e) := SectorOf(e)]
  {
    AddedIsOk(ss, k, e);
    var tt, m := ss[k := e], Names(ss)[NameOf(e) := SectorOf(e)];
    NamesAt(tt, k);
    forall n | n in Names(tt) ensures n in m && m[n] == Names(tt)[n] {
      var i := NamesFrom(tt, n);
      if i != k { NamesAt(ss, i); }
    }
    forall n | n in Names(ss) ensures n in Names(tt) {
      var i := NamesFrom(ss, n);
      NamesAt(tt, i);
    }
  }

  lemma {:induction false} ErasedIsOk(ss: seq<Slot>, k: nat, e: Slot)
    requires DirOk(ss) && k < |ss| && !InUse(e)
    ensures DirOk(ss[k := e])
  {
  }

  lemma {:induction false} EntryErased(ss: seq<Slot>, k: nat, e: Slot)
    requires DirOk(ss) && k < |ss| && InUse(ss[k]) && !InUse(e)
    ensures DirOk(ss[k := e]) && Names(ss[k := e]) == Names(ss) - {NameOf(ss[k])} && NameOf(ss[k]) in Names(ss)
  {
    ErasedIsOk(ss, k, e);
    var tt, m := ss[k := e], Names(ss) - {NameOf(ss[k])};
    NamesAt(ss, k);
    forall n | n in Names(tt) ensures n in m && m[n] == Names(tt)[n] {
      var i := NamesFrom(tt, n);
      assert i != k && tt[i] == ss[i];
      NamesAt(ss, i);
      DifferentNames(ss, i, k);
    }
    forall n | n in m ensures n in Names(tt) {
      var i := NamesFrom(ss, n);
      assert i != k && tt[i] == ss[i];
      NamesAt(tt, i);
    }
  }

  lemma {:induction false} DifferentNames(ss: seq<Slot>, i: nat, k: nat)
    requires Unique(ss) && i < |ss| && k < |ss| && i != k && InUse(ss[i]) && InUse(ss[k])
    ensures NameOf(ss[i]) != NameOf(ss[k])
  {
    if i < k { assert NameOf(ss[i]) != NameOf(ss[k]); } else { assert NameOf(ss[k]) != NameOf(ss[i]); }
  }

  /** The number of entries in use */
  function UsedCount(ss: seq<Slot>): nat {
    if ss == [] then 0 else UsedCount(ss[..|ss| - 1]) + if InUse(ss[|ss| - 1]) then 1 else 0
  }

  lemma {:induction false} UsedCountBound(ss: seq<Slot>)
    ensures UsedCount(ss) <= |ss|
    ensures UsedCount(ss) < |ss| <==> exists k :: 0 <= k < |ss| && !InUse(ss[k])
  {
    if ss != [] {
      var n := |ss| - 1;
      UsedCountBound(ss[..n]);
      if UsedCount(ss[..n]) < n {
        var k :| 0 <= k < n && !InUse(ss[..n][k]);
        assert !InUse(ss[k]);
      }
      forall k | 0 <= k < n && !InUse(ss[k]) ensures UsedCount(ss[..n]) < n { assert !InUse(ss[..n][k]); }
    }
  }

  lemma {:induction false} NamesPrefix(ss: seq<Slot>)
    requires Unique(ss) && ss != []
    ensures Unique(ss[..|ss| - 1])
    ensures var last := ss[|ss| - 1];
      Names(ss).Keys == Names(ss[..|ss| - 1]).Keys + (if InUse(last) then {NameOf(last)} else {})
    ensures InUse(ss[|ss| - 1]) ==> NameOf(ss[|ss| - 1]) !in Names(ss[..|ss| - 1])
  {
    var n, tt := |ss| - 1, ss[..|ss| - 1];
    assert Unique(tt);
    forall x | x in Names(ss) ensures x in Names(tt) || (InUse(ss[n]) && x == NameOf(ss[n])) { PrefixHas(ss, x); }
    forall x | x in Names(tt) ensures x in Names(ss) && (InUse(ss[n]) ==> x != NameOf(ss[n])) { PrefixIn(ss, x); }
    if InUse(ss[n]) { NamesAt(ss, n); }
  }

  lemma {:induction false} PrefixHas(ss: seq<Slot>, x: seq<Byte>)
    requires ss != [] && Unique(ss) && Unique(ss[..|ss| - 1]) && x in Names(ss)
    ensures x in Names(ss[..|ss| - 1]) || (InUse(ss[|ss| - 1]) && x == NameOf(ss[|ss| - 1]))
  {
    var i := NamesFrom(ss, x);
    if i < |ss| - 1 {
      assert ss[..|ss| - 1][i] == ss[i];
      NamesAt(ss[..|ss| - 1], i);
    }
  }

  lemma {:induction false} PrefixIn(ss: seq<Slot>, x: seq<Byte>)
    requires ss != [] && Unique(ss) && Unique(ss[..|ss| - 1]) && x in Names(ss[..|ss| - 1])
    ensures x in Names(ss) && (InUse(ss[|ss| - 1]) ==> x != NameOf(ss[|ss| - 1]))
  {
    var n := |ss| - 1;
    var i := NamesFrom(ss[..n], x);
    assert ss[..n][i] == ss[i];
    NamesAt(ss, i);
    if InUse(ss[n]) { DifferentNames(ss, i, n); }
  }

  /** The directory holds as many names as entries in use, so there is room exactly if there are fewer names than
      entries. */
  lemma {:induction false} RoomIff(ss: seq<Slot>)
    requires Unique(ss)
    ensures |Names(ss)| == UsedCount(ss) <= |ss|
    ensures |Names(ss)| < |ss| <==> exists k :: 0 <= k < |ss| && !InUse(ss[k])
  {
    UsedCountBound(ss);
    NamesCount(ss);
  }

  lemma {:induction false} NamesCount(ss: seq<Slot>)
    requires Unique(ss)
    ensures |Names(ss)| == |Names(ss).Keys| == UsedCount(ss)
  {
    if ss == [] {
      assert Names(ss) == map[];
    } else {
      var tt := ss[..|ss| - 1];
      NamesPrefix(ss);
      NamesCount(tt);
      Insert(Names(tt).Keys, NameOf(ss[|ss| - 1]));
    }
  }

  lemma {:induction false} Insert(s: set<seq<Byte>>, x: seq<Byte>)
    ensures |s + {}| == |s| && (x !in s ==> |s + {x}| == |s| + 1)
  {
    assert s + {} == s;
  }

  // ----- the operations

  class Dir {
    const inode: Inode
    var pos: nat

    constructor (inode: Inode)
      ensures this.inode == inode && pos == 0
    {
      this.inode, pos := inode, 0;
    }

    ghost predicate Valid(disk: array<Byte>)
      reads disk
    {
      On(inode.data, disk) && inode.data.length % ENTRY == 0 && DirOk(Slots(FileBytes(inode.data, disk[..])))
    }

    ghost function Entries(disk: array<Byte>): seq<Slot>
      requires On(inode.data, disk)
      reads disk
    {
      Slots(FileBytes(inode.data, disk[..]))
    }

    /** Entry number k, if there is one */
    method ReadEntry(disk: array<Byte>, k: nat) returns (e: Option<Slot>)
      requires On(inode.data, disk) && inode.data.length % ENTRY == 0 && ENTRY * k <= inode.data.length
      ensures e == if k < |Entries(disk)| then Some(Entries(disk)[k]) else None
    {
      var b := ReadAt(inode, disk, ENTRY, ENTRY * k);
      if |b| == ENTRY {
        e := Some(b);
      } else {
        e := None;
      }
    }

    /** lookup: the number of the entry in use for name */
    method Lookup(disk: array<Byte>, name: seq<Byte>) returns (r: Option<nat>)
      requires Valid(disk)
      ensures r.Some? <==> name in Names(Entries(disk))
      ensures r.Some? ==>
        r.value < |Entries(disk)| && InUse(Entries(disk)[r.value]) && NameOf(Entries(disk)[r.value]) == name
      ensures r.Some? ==> Names(Entries(disk))[name] == SectorOf(Entries(disk)[r.value])
    {
      ghost var ss := Entries(disk);
      var k := 0;
      var e := ReadEntry(disk, 0);
      while e.Some?
        invariant k <= |ss| && e == (if k < |ss| then Some(ss[k]) else None)
        invariant forall i | 0 <= i < k && InUse(ss[i]) :: NameOf(ss[i]) != name
        decreases |ss| - k
      {
        if InUse(e.value) && NameOf(e.value) == name {
          NamesAt(ss, k);
          return Some(k);
        }
        k := k + 1;
        e := ReadEntry(disk, k);
      }
      if name in Names(ss) { var i := NamesFrom(ss, name); }
      return None;
    }
  
    /** The number of the first entry not in use, or of the end of the directory */
    method FindFree(disk: array<Byte>) returns (k: nat, e: Option<Slot>)
      requires Valid(disk)
      ensures k <= |Entries(disk)| && e == (if k < |Entries(disk)| then Some(Entries(disk)[k]) else None)
      ensures k < |Entries(disk)| ==> !InUse(Entries(disk)[k])
      ensures forall i | 0 <= i < k :: InUse(Entries(disk)[i])
    {
      ghost var ss := Entries(disk);
      k := 0;
      e := ReadEntry(disk, 0);
      while e.Some?
        invariant k <= |ss| && e == (if k < |ss| then Some(ss[k]) else None)
        invariant forall i | 0 <= i < k :: InUse(ss[i])
        decreases |ss| - k
      {
        if !InUse(e.value) { return; }
        k := k + 1;
        e := ReadEntry(disk, k);
      }
    }

    /** Entry k replaced by e, unless writing is denied or k is the end of the directory */
    method WriteEntry(disk: array<Byte>, k: nat, e: Slot) returns (ok: bool)
      requires On(inode.data, disk) && inode.data.length % ENTRY == 0 && k <= |Entries(disk)|
      modifies disk
      ensures ok <==> inode.denyCnt == 0 && k < |old(Entries(disk))|
      ensures !ok ==> disk[..] == old(disk[..])
      ensures ok ==> Entries(disk) == old(Entries(disk))[k := e]
      ensures OutsideKept(old(disk[..]), disk[..])
    {
      ghost var d := disk[..];
      var n := WriteAt(inode, disk, e, ENTRY * k);
      ok := n == ENTRY;
      if ok {
        assert e[..n] == e;
        WriteInFile(d, disk[..], SECTOR_SIZE * inode.data.start, inode.data.length, ENTRY * k, e);
        SlotWritten(d[SECTOR_SIZE * inode.data.start..SECTOR_SIZE * inode.data.start + inode.data.length],
          FileBytes(inode.data, disk[..]), k, e);
      }
    }

    /** Only the directory's own bytes differ. */
    ghost predicate OutsideKept(d: seq<Byte>, d': seq<Byte>) {
      SameOutside(d, d', SECTOR_SIZE * inode.data.start, SECTOR_SIZE * inode.data.start + inode.data.length)
    }

    /** dir_add: the name is added if it is valid and new and there is room. */
    method Add(disk: array<Byte>, name: seq<Byte>, sector: Word) returns (ok: bool)
      requires Valid(disk) && NulFree(name)
      modifies disk
      ensures Valid(disk) && OutsideKept(old(disk[..]), disk[..])
      ensures ok <==>
        && ValidName(name) && name !in old(Names(Entries(disk))) && inode.denyCnt == 0
        && exists k :: 0 <= k < |old(Entries(disk))| && !InUse(old(Entries(disk))[k])
      ensures Names(Entries(disk)) == if ok then old(Names(Entries(disk)))[name := sector]
        else old(Names(Entries(disk)))
    {
      if name == [] || |name| > NAME_MAX { return false; }
      var found := Lookup(disk, name);
      if found.Some? { return false; }
      var k, e := FindFree(disk);
      var slot := if e.Some? then e.value else seq(ENTRY, _ => 0);
      ghost var ss := Entries(disk);
      NewEntryReads(slot, name, sector);
      ok := WriteEntry(disk, k, NewEntry(slot, name, sector));
      if ok { EntryAdded(ss, k, NewEntry(slot, name, sector)); }
    }

    /** dir_remove, as far as it concerns the directory: sector is the removed file's inode. */
    method Remove(disk: array<Byte>, name: seq<Byte>) returns (sector: Option<nat>)
      requires Valid(disk)
      modifies disk
      ensures Valid(disk) && OutsideKept(old(disk[..]), disk[..])
      ensures sector.Some? <==> name in old(Names(Entries(disk))) && inode.denyCnt == 0
      ensures sector.Some? ==> sector.value == old(Names(Entries(disk)))[name]
      ensures Names(Entries(disk)) == if sector.Some? then old(Names(Entries(disk))) - {name}
        else old(Names(Entries(disk)))
    {
      var found := Lookup(disk, name);
      if found.None? { return None; }
      ghost var ss := Entries(disk);
      var e := ReadEntry(disk, found.value);
      var ok := WriteEntry(disk, found.value, e.value[19 := 0]);
      if !ok { return None; }
      EntryErased(ss, found.value, e.value[19 := 0]);
      return Some(SectorOf(e.value));
    }

    /** dir_readdir: the name of the next entry in use, from the current position on; k is the number of the entry
        after it, or of the end. */
    method ReadDir(disk: array<Byte>, ghost k0: nat) returns (name: Option<seq<Byte>>, ghost k: nat)
      requires Valid(disk) && pos == ENTRY * k0 && k0 <= |Entries(disk)|
      modifies this`pos
      ensures pos == ENTRY * k && k0 <= k <= |Entries(disk)|
      ensures name.Some? ==> k0 < k && InUse(Entries(disk)[k - 1]) && name.value == NameOf(Entries(disk)[k - 1])
      ensures forall i :: k0 <= i < (if name.Some? then k - 1 else |Entries(disk)|) ==> !InUse(Entries(disk)[i])
    {
      ghost var ss := Entries(disk);
      k := k0;
      var e := ReadEntry(disk, pos / ENTRY);
      while e.Some?
        invariant pos == ENTRY * k && k0 <= k <= |ss| && e == (if k < |ss| then Some(ss[k]) else None)
        invariant forall i :: k0 <= i < k ==> !InUse(ss[i])
        decreases |ss| - k
      {
        pos, k := pos + ENTRY, k + 1;
        if InUse(e.value) { return Some(NameOf(e.value)), k; }
        e := ReadEntry(disk, pos / ENTRY);
      }
      return None, k;
    }
  }
}
