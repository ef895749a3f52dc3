/** inc/fs.h: what a disk block can hold, and how a file finds its blocks. */
module FsTypes {
  const BLKSIZE := 4096
  const BLKBITSIZE := 32768         // bits in a bitmap block
  const NDIRECT := 10
  const NINDIRECT := 1024
  const NSLOTS := 1034              // NDIRECT + NINDIRECT
  const BLKFILES := 16              // struct Files in a directory block
  const MAXFILESIZE := 4235264      // NSLOTS * BLKSIZE

  const E_INVAL := 3
  const E_NOT_FOUND := 10

  type byte = x: int | 0 <= x < 256

  /** struct File without its name and type. */
  datatype FileRecord = FileRecord(size: nat, direct: seq<nat>, indirect: nat)
  type File = f: FileRecord | |f.direct| == NDIRECT witness FileRecord(0, [0, 0, 0, 0, 0, 0, 0, 0, 0, 0], 0)

  const NOFILE: File := FileRecord(0, [0, 0, 0, 0, 0, 0, 0, 0, 0, 0], 0)

  /** One disk block, by use: file data, an indirect block, a piece of the bitmap (a set bit means
      free), or the superblock or a directory block with the struct Files in it. */
  datatype Content =
    | Raw(bytes: seq<byte>)
    | Words(ptrs: seq<nat>)
    | Bits(free: seq<bool>)
    | Files(files: seq<File>)

  predicate WellSized(c: Content) {
    match c
    case Raw(bytes) => |bytes| == BLKSIZE
    case Words(ptrs) => |ptrs| == NINDIRECT
    case Bits(free) => |free| == BLKBITSIZE
    case Files(_) => true
  }

  type Block = c: Content | WellSized(c) witness Files([])

  function ZeroPtrs(): (s: seq<nat>)
    ensures |s| == NINDIRECT && forall j :: 0 <= j < NINDIRECT ==> s[j] == 0
  {
    seq(NINDIRECT, _ => 0)
  }

  function Shifted(w: nat, i: nat): nat {
    if i == 0 then w else if i == 1 then w / 0x100 else if i == 2 then w / 0x1_0000 else w / 0x100_0000
  }

  /** The bytes of a block.  A former indirect block shows its words, little-endian. */
  function Bytes(b: Block): (s: seq<byte>)
    ensures |s| == BLKSIZE
  {
    match b
    case Raw(bytes) => bytes
    case Words(ptrs) => seq(BLKSIZE, i requires 0 <= i < BLKSIZE => Shifted(ptrs[i / 4], i % 4) % 256)
    case _ => seq(BLKSIZE, _ => 0)
  }

  // ---------------------------------------------------------------- files and their slots

  /** A struct File: entry idx of block blk. */
  datatype Loc = Loc(blk: nat, idx: nat)

  /** A place that holds a block number: entry k < NSLOTS of a file's block map, or f_indirect (k == NSLOTS). */
  datatype Slot = Slot(loc: Loc, k: nat)

  predicate IsFile(mem: seq<Block>, l: Loc) {
    l.blk < |mem| && mem[l.blk].Files? && l.idx < |mem[l.blk].files|
  }

  function FileAt(mem: seq<Block>, l: Loc): File {
    if IsFile(mem, l) then mem[l.blk].files[l.idx] else NOFILE
  }

  function PtrAt(mem: seq<Block>, b: nat, j: nat): nat {
    if b < |mem| && mem[b].Words? && j < NINDIRECT then mem[b].ptrs[j] else 0
  }

  function Val(mem: seq<Block>, l: Loc, k: nat): nat {
    var f := FileAt(mem, l);
    if k < NDIRECT then f.direct[k]
    else if k < NSLOTS then (if f.indirect == 0 then 0 else PtrAt(mem, f.indirect, k - NDIRECT))
    else if k == NSLOTS then f.indirect
    else 0
  }

  /** Slot s of a file names block b. */
  predicate Owns(mem: seq<Block>, s: Slot, b: nat) {
    IsFile(mem, s.loc) && b != 0 && Val(mem, s.loc, s.k) == b
  }

  function NBlocks(size: nat): nat { (size + BLKSIZE - 1) / BLKSIZE }

  function BitBlocks(n: nat): nat { (n + BLKBITSIZE - 1) / BLKBITSIZE }

  /** As many blocks as hold size bytes, and not one more; and likewise for the bitmap. */
  lemma NBlocksIs(size: nat, k: nat)
    ensures k < NBlocks(size) <==> k * BLKSIZE < size
  {
  }

  lemma BitBlocksIs(n: nat, k: nat)
    ensures k < BitBlocks(n) <==> k * BLKBITSIZE < n
  {
  }

  /** Blocks 0 and 1 and the bitmap itself. */
  predicate Reserved(n: nat, b: nat) { b < 2 + BitBlocks(n) }

  /** block_is_free */
  predicate IsFree(mem: seq<Block>, b: nat) {
    var x := 2 + b / BLKBITSIZE;
    b < |mem| && x < |mem| && mem[x].Bits? && mem[x].free[b % BLKBITSIZE]
  }

  lemma FreeInRange(mem: seq<Block>)
    ensures forall b: nat :: IsFree(mem, b) ==> b < |mem|
  {
  }

  // ---------------------------------------------------------------- stores

  function PutFile(mem: seq<Block>, l: Loc, f: File): seq<Block>
    requires IsFile(mem, l)
  {
    mem[l.blk := Files(mem[l.blk].files[l.idx := f])]
  }

  function PutPtr(mem: seq<Block>, b: nat, j: nat, v: nat): seq<Block>
    requires b < |mem| && mem[b].Words? && j < NINDIRECT
  {
    mem[b := Words(mem[b].ptrs[j := v])]
  }

  /** Can slot k be stored to: it lies in the File, or its indirect block exists. */
  predicate Storable(mem: seq<Block>, l: Loc, k: nat) {
    IsFile(mem, l) && k < NSLOTS &&
    (k < NDIRECT || (FileAt(mem, l).indirect != 0 && FileAt(mem, l).indirect < |mem|
        && mem[FileAt(mem, l).indirect].Words?))
  }

  function PutSlot(mem: seq<Block>, l: Loc, k: nat, v: nat): seq<Block>
    requires Storable(mem, l, k)
  {
    var f := FileAt(mem, l);
    if k < NDIRECT then PutFile(mem, l, f.(direct := f.direct[k := v])) else PutPtr(mem, f.indirect, k - NDIRECT, v)
  }

  function PutBit(mem: seq<Block>, b: nat, free: bool): seq<Block>
    requires 2 + b / BLKBITSIZE < |mem| && mem[2 + b / BLKBITSIZE].Bits?
  {
    var x := 2 + b / BLKBITSIZE;
    mem[x := Bits(mem[x].free[b % BLKBITSIZE := free])]
  }

  function ZeroBytes(): (s: seq<byte>)
    ensures |s| == BLKSIZE
  {
    seq(BLKSIZE, _ => 0)
  }
}
