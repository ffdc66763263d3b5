/** Reading and writing files (pintos/src/filesys/inode.c, inode_read_at and inode_write_at): sector by sector
    transfers refine a fixed-length array of bytes. The disk is the sequence of all its bytes; sector s is
    bytes 512 * s to 512 * s + 511. */
module InodeIo {
  import opened CStrings

  const SECTOR_SIZE: nat := 512

  method BlockRead(disk: array<Byte>, sector: nat) returns (buf: seq<Byte>)
    requires SECTOR_SIZE * sector + SECTOR_SIZE <= disk.Length
    ensures buf == disk[SECTOR_SIZE * sector..SECTOR_SIZE * sector + SECTOR_SIZE]
  {
    buf := disk[SECTOR_SIZE * sector..SECTOR_SIZE * sector + SECTOR_SIZE];
  }

  method BlockWrite(disk: array<Byte>, sector: nat, buf: seq<Byte>)
    requires SECTOR_SIZE * sector + SECTOR_SIZE <= disk.Length && |buf| == SECTOR_SIZE
    modifies disk
    ensures Written(old(disk[..]), disk[..], SECTOR_SIZE * sector, buf)
  {
    MemCpy(disk, SECTOR_SIZE * sector, buf);
  }

  /** How many bytes a transfer of size bytes at offset can move in a file of length bytes */
  function Transfer(size: int, offset: nat, length: nat): nat {
    if size <= 0 || length <= offset then 0 else if size <= length - offset then size else length - offset
  }

  /** It is as many as were asked for and are there. */
  lemma {:induction false} TransferIsMost(size: int, offset: nat, length: nat, n: nat)
    ensures n <= Transfer(size, offset, length) <==> n == 0 || (n <= size && offset + n <= length)
  {
  }

  function Min(a: int, b: int): int { if a < b then a else b }

  lemma {:induction false} SubSlice(d: seq<Byte>, x: nat, y: nat, i: nat, j: nat)
    requires x <= y <= |d| && i <= j <= y - x
    ensures d[x..y][i..j] == d[x + i..x + j]
  {
    forall k | 0 <= k < j - i ensures d[x..y][i..j][k] == d[x + i..x + j][k] {}
  }

  lemma {:induction false} JoinSlices(d: seq<Byte>, x: nat, y: nat, z: nat)
    requires x <= y <= z <= |d|
    ensures d[x..y] + d[y..z] == d[x..z]
  {
  }

  /** struct inode_disk */
  datatype DiskInode = DiskInode(start: nat, length: nat)

  /** struct inode */
  datatype Inode = Inode(sector: nat, openCnt: nat, removed: bool, denyCnt: nat, data: DiskInode)

  /** bytes_to_sectors */
  function SectorCount(length: nat): nat { (length + SECTOR_SIZE - 1) / SECTOR_SIZE }

  /** It is the least number of sectors that hold that many bytes. */
  lemma {:induction false} SectorCountIsLeast(length: nat, n: nat)
    ensures length <= n * SECTOR_SIZE <==> SectorCount(length) <= n
  {
    var c := SectorCount(length);
    assert (c - 1) * SECTOR_SIZE < length <= c * SECTOR_SIZE;
  }

  /** The file's sectors are on the disk. */
  predicate On(d: DiskInode, disk: array<Byte>) { Fits(d, disk.Length) }

  predicate Fits(d: DiskInode, size: nat) { SECTOR_SIZE * (d.start + SectorCount(d.length)) <= size }

  /** The file's bytes */
  function FileBytes(d: DiskInode, disk: seq<Byte>): (s: seq<Byte>)
    requires Fits(d, |disk|)
    ensures |s| == d.length
  {
    disk[SECTOR_SIZE * d.start..SECTOR_SIZE * d.start + d.length]
  }

  /** byte_to_sector for an offset that is in the file */
  function ByteToSector(d: DiskInode, pos: nat): nat { d.start + pos / SECTOR_SIZE }

  lemma {:induction false} SectorOnDisk(d: DiskInode, disk: array<Byte>, pos: nat)
    requires On(d, disk) && pos < d.length
    ensures SECTOR_SIZE * ByteToSector(d, pos) + SECTOR_SIZE <= disk.Length
  {
  }

  /** The bytes of one sector that a transfer reads */
  method ReadChunk(d: DiskInode, disk: array<Byte>, ofs: nat, chunk: nat) returns (part: seq<Byte>)
    requires On(d, disk) && ofs < d.length && ofs % SECTOR_SIZE + chunk <= SECTOR_SIZE && ofs + chunk <= d.length
    ensures part == disk[SECTOR_SIZE * d.start + ofs..SECTOR_SIZE * d.start + ofs + chunk]
  {
    var sectorOfs, idx := ofs % SECTOR_SIZE, ByteToSector(d, ofs);
    SectorOnDisk(d, disk, ofs);
    var sector := BlockRead(disk, idx);
    SubSlice(disk[..], SECTOR_SIZE * idx, SECTOR_SIZE * idx + SECTOR_SIZE, sectorOfs, sectorOfs + chunk);
    if sectorOfs == 0 && chunk == SECTOR_SIZE {
      part := sector;
    } else {
      part := sector[sectorOfs..sectorOfs + chunk];
    }
  }

  /** What inode_read_at delivers is the part of the file it was asked for, as far as there is one. */
  method ReadAt(inode: Inode, disk: array<Byte>, size: int, offset: nat) returns (buffer: seq<Byte>)
    requires On(inode.data, disk)
    ensures |buffer| == Transfer(size, offset, inode.data.length)
    ensures offset <= inode.data.length ==> buffer == FileBytes(inode.data, disk[..])[offset..offset + |buffer|]
  {
    buffer := [];
    var left, ofs := size, offset;
    ghost var base := SECTOR_SIZE * inode.data.start;
    while left > 0
      invariant ofs == offset + |buffer| && left == size - |buffer|
        && (|buffer| > 0 ==> ofs <= inode.data.length && left >= 0)
      invariant offset <= inode.data.length ==> ofs <= inode.data.length && buffer == disk[base + offset..base + ofs]
      decreases left
    {
      var sectorOfs := ofs % SECTOR_SIZE;
      var minLeft := Min(inode.data.length - ofs, SECTOR_SIZE - sectorOfs);
      var chunk := Min(left, minLeft);
      if chunk <= 0 { break; }
      var part := ReadChunk(inode.data, disk, ofs, chunk);
      JoinSlices(disk[..], base + offset, base + ofs, base + ofs + chunk);
      buffer := buffer + part;
      left, ofs := left - chunk, ofs + chunk;
    }
    if offset <= inode.data.length { SubSlice(disk[..], base, base + inode.data.length, offset, ofs); }
  }

  /** The sector that holds byte ofs, with part written at it. A sector that is not written as a whole always
      holds data before or after the part, so it is always read first; the source's other branch, which
      starts from a sector of zeros, is never taken. */
  method WriteChunk(d: DiskInode, disk: array<Byte>, ofs: nat, part: seq<Byte>)
    requires On(d, disk) && ofs < d.length && ofs % SECTOR_SIZE + |part| <= SECTOR_SIZE && ofs + |part| <= d.length
    modifies disk
    ensures Written(old(disk[..]), disk[..], SECTOR_SIZE * d.start + ofs, part)
  {
    var sectorOfs, idx := ofs % SECTOR_SIZE, ByteToSector(d, ofs);
    SectorOnDisk(d, disk, ofs);
    if sectorOfs == 0 && |part| == SECTOR_SIZE {
      BlockWrite(disk, idx, part);
    } else {
      assert sectorOfs > 0 || |part| < SECTOR_SIZE - sectorOfs;
      WritePart(disk, idx, sectorOfs, part);
    }
  }

  method WritePart(disk: array<Byte>, idx: nat, sectorOfs: nat, part: seq<Byte>)
    requires SECTOR_SIZE * idx + SECTOR_SIZE <= disk.Length && sectorOfs + |part| <= SECTOR_SIZE
    modifies disk
    ensures Written(old(disk[..]), disk[..], SECTOR_SIZE * idx + sectorOfs, part)
  {
    var bounce := new Byte[SECTOR_SIZE];
    var sector := BlockRead(disk, idx);
    MemCpy(bounce, 0, sector);
    assert bounce[..] == sector;
    MemCpy(bounce, sectorOfs, part);
    BlockWrite(disk, idx, bounce[..]);
  }

  /** inode_write_at: nothing while writes are denied; otherwise the bytes that fit into the file are written
      at offset, and no other byte of the disk changes. */
  method WriteAt(inode: Inode, disk: array<Byte>, buffer: seq<Byte>, offset: nat) returns (n: nat)
    requires On(inode.data, disk)
    modifies disk
    ensures n == if inode.denyCnt > 0 then 0 else Transfer(|buffer|, offset, inode.data.length)
    ensures n == 0 ==> disk[..] == old(disk[..])
    ensures n > 0 ==> Written(old(disk[..]), disk[..], SECTOR_SIZE * inode.data.start + offset, buffer[..n])
  {
    n := 0;
    if inode.denyCnt > 0 { return; }
    var left, ofs := |buffer|, offset;
    while left > 0
      invariant ofs == offset + n && left == |buffer| - n && n <= |buffer| && (n > 0 ==> ofs <= inode.data.length)
      invariant if n == 0 then disk[..] == old(disk[..])
        else Written(old(disk[..]), disk[..], SECTOR_SIZE * inode.data.start + offset, buffer[..n])
      decreases left
    {
      var sectorOfs := ofs % SECTOR_SIZE;
      var minLeft := Min(inode.data.length - ofs, SECTOR_SIZE - sectorOfs);
      var chunk := Min(left, minLeft);
      if chunk <= 0 { break; }
      WriteChunk(inode.data, disk, ofs, buffer[n..n + chunk]);
      left, ofs, n := left - chunk, ofs + chunk, n + chunk;
    }
  }

  /** Seen from the file, a write replaces the bytes it was asked to replace and no others. */
  lemma {:induction false} WriteInFile(d: seq<Byte>, d': seq<Byte>, base: nat, length: nat, offset: nat, b: seq<Byte>)
    requires Written(d, d', base + offset, b) && base + length <= |d| && offset + |b| <= length
    ensures Written(d[base..base + length], d'[base..base + length], offset, b)
    ensures d'[base..base + length][offset..offset + |b|] == b
  {
    SubSlice(d', base, base + length, offset, offset + |b|);
  }

  /** A file elsewhere on the disk keeps its contents. */
  lemma {:induction false} OtherFileKept(d: seq<Byte>, d': seq<Byte>, ofs: nat, b: seq<Byte>, base: nat, length: nat)
    requires Written(d, d', ofs, b) && base + length <= |d| && (ofs + |b| <= base || base + length <= ofs)
    ensures d'[base..base + length] == d[base..base + length]
  {
  }
}
