/** fs/fsformat.c: the disk image it writes, and when every block of it is accounted for. */
module FsFormat {
  import opened FsTypes
  import opened FsOwn
  import opened FsContents

  const WORD := 0x1_0000_0000       // uint32_t wraps here
  const MAX_DIR_ENTS := 128

  /** C's % truncates toward zero. */
  function CRem(a: int, b: int): int
    requires b > 0
  {
    if a >= 0 then a % b else -((-a) % b)
  }

  /** ROUNDUP(n, BLKSIZE) with an unsigned 32-bit n, as alloc and finishfile use it. */
  function RoundUpUnsigned(n: nat): nat
  {
    var m := (n - 1) % WORD;
    (m + BLKSIZE - m % BLKSIZE) % WORD
  }

  /** ROUNDUP(n, BLKSIZE) with a signed n, as finishdir uses it. */
  function RoundUpSigned(n: int): int { n - 1 + BLKSIZE - CRem(n - 1, BLKSIZE) }

  /** The two roundings agree except at zero, where the signed one yields a whole block. */
  lemma RoundUps(n: nat)
    requires n <= MAXFILESIZE
    ensures RoundUpUnsigned(n) == NBlocks(n) * BLKSIZE
    ensures RoundUpSigned(n) == if n == 0 then BLKSIZE else NBlocks(n) * BLKSIZE
  {
  }

  // ---------------------------------------------------------------- where a file's blocks are

  /** The entry k of a File that is not yet on the disk. */
  function FileVal(mem: seq<Block>, f: File, k: nat): nat {
    if k < NDIRECT then f.direct[k]
    else if k < NSLOTS then (if f.indirect == 0 then 0 else PtrAt(mem, f.indirect, k - NDIRECT))
    else if k == NSLOTS then f.indirect
    else 0
  }

  /** m consecutive data blocks from s on, and behind them the indirect block if there are ten or more. */
  function Extent(s: nat, m: nat, k: nat): nat {
    if k < NSLOTS && k < m then s + k else if k == NSLOTS && m >= NDIRECT then s + m else 0
  }

  function Total(m: nat): nat { if m >= NDIRECT then m + 1 else m }

  ghost predicate LaidOut(mem: seq<Block>, f: File, s: nat, m: nat) {
    && m <= NSLOTS && m == NBlocks(f.size)
    && (forall k: nat :: FileVal(mem, f, k) == Extent(s, m, k))
    && (m >= NDIRECT ==> s + m < |mem| && mem[s + m].Words?)
  }

  /** The next extent starts where this one ends. */
  predicate Abut(s: seq<nat>, m: seq<nat>, end: nat, i: nat)
    requires i < |s| == |m|
  {
    s[i] + Total(m[i]) == if i + 1 < |s| then s[i+1] else end
  }

  /** The extents lie one behind the other from base to end. */
  ghost predicate Contiguous(base: nat, s: seq<nat>, m: seq<nat>, end: nat) {
    && |s| == |m|
    && base == (if |s| == 0 then end else s[0])
    && forall i: nat :: i < |s| ==> Abut(s, m, end, i)
  }

  lemma {:induction false} Ordered(base: nat, s: seq<nat>, m: seq<nat>, end: nat, i: nat, j: nat)
    requires Contiguous(base, s, m, end) && i < j <= |s|
    ensures s[i] + Total(m[i]) <= if j < |s| then s[j] else end
    ensures base <= s[i]
  {
    assert Abut(s, m, end, j - 1);
    if i + 1 < j {
      Ordered(base, s, m, end, i, j - 1);
    } else if i > 0 {
      Ordered(base, s, m, end, i - 1, i);
    }
  }

  lemma {:induction false} Hits(base: nat, s: seq<nat>, m: seq<nat>, end: nat, b: nat) returns (i: nat)
    requires Contiguous(base, s, m, end) && base <= b < end
    ensures i < |s| && s[i] <= b < s[i] + Total(m[i])
  {
    var n := |s| - 1;
    assert Abut(s, m, end, n);
    if s[n] <= b {
      return n;
    }
    forall k: nat | k < n ensures Abut(s[..n], m[..n], s[n], k) {
      assert Abut(s, m, end, k);
    }
    i := Hits(base, s[..n], m[..n], s[n], b);
  }

  // ---------------------------------------------------------------- the finished image

  /** The i-th struct File of the image: file i of the directory, or the root directory itself (i == n). */
  function LocOf(n: nat, dstart: nat, i: nat): Loc {
    if i == n then Loc(1, 0) else Loc(dstart + i / BLKFILES, i % BLKFILES)
  }

  ghost predicate IsEntry(n: nat, dstart: nat, l: Loc) { exists i: nat :: i <= n && l == LocOf(n, dstart, i) }

  ghost predicate ImageShape(mem: seq<Block>, n: nat, s: seq<nat>, m: seq<nat>, pos: nat) {
    && 2 + BitBlocks(|mem|) <= pos <= |mem|
    && |s| == |m| == n + 1 && Contiguous(2 + BitBlocks(|mem|), s, m, pos)
    && m[n] < NDIRECT && n <= m[n] * BLKFILES
    && (forall b :: 0 <= b < |mem| ==> (mem[b].Bits? <==> 2 <= b < 2 + BitBlocks(|mem|)))
    && (forall b :: 0 <= b < |mem| ==> (mem[b].Files? <==> b == 1 || s[n] <= b < s[n] + m[n]))
    && |mem[1].files| == 1
    && (forall b: nat :: s[n] <= b < s[n] + m[n] && b < |mem| ==> |mem[b].files| == BLKFILES)
    && (forall b: nat :: b < |mem| ==> (IsFree(mem, b) <==> pos <= b))
  }

  ghost predicate ImageFiles(mem: seq<Block>, n: nat, s: seq<nat>, m: seq<nat>) {
    && |s| == |m| == n + 1
    && (forall i: nat :: i <= n ==> LaidOut(mem, FileAt(mem, LocOf(n, s[n], i)), s[i], m[i]))
    && (forall l :: IsFile(mem, l) && FileAt(mem, l) != NOFILE ==> IsEntry(n, s[n], l))
  }

  /** The image of n files: the extents of the files one behind the other, then the directory. */
  ghost predicate Image(mem: seq<Block>, n: nat, s: seq<nat>, m: seq<nat>, pos: nat) {
    ImageShape(mem, n, s, m, pos) && ImageFiles(mem, n, s, m)
  }

  lemma ImageFile(mem: seq<Block>, n: nat, s: seq<nat>, m: seq<nat>, pos: nat, i: nat)
    requires Image(mem, n, s, m, pos) && i <= n
    ensures IsFile(mem, LocOf(n, s[n], i)) && LaidOut(mem, FileAt(mem, LocOf(n, s[n], i)), s[i], m[i])
  {
    if i < n {
      assert i / BLKFILES < m[n];
    }
    Hit0(mem, n, s, m, pos);
  }

  lemma Hit0(mem: seq<Block>, n: nat, s: seq<nat>, m: seq<nat>, pos: nat)
    requires Image(mem, n, s, m, pos)
    ensures s[n] + Total(m[n]) == pos && s[n] >= 2 + BitBlocks(|mem|)
  {
    assert Abut(s, m, pos, n);
    Ordered(2 + BitBlocks(|mem|), s, m, pos, n, n + 1);
  }

  /** Who owns what in the image. */
  lemma ImageOwns(mem: seq<Block>, n: nat, s: seq<nat>, m: seq<nat>, pos: nat, t: Slot, b: nat) returns (i: nat)
    requires Image(mem, n, s, m, pos) && Owns(mem, t, b)
    ensures i <= n && t.loc == LocOf(n, s[n], i) && b == Extent(s[i], m[i], t.k) != 0
    ensures s[i] <= b < s[i] + Total(m[i])
    ensures FileAt(mem, t.loc).size <= m[i] * BLKSIZE
            && (t.k < NSLOTS ==> t.k < m[i] == NBlocks(FileAt(mem, t.loc).size))
  {
    assert FileAt(mem, t.loc) != NOFILE;
    assert IsEntry(n, s[n], t.loc);
    i :| i <= n && t.loc == LocOf(n, s[n], i);
    assert LaidOut(mem, FileAt(mem, t.loc), s[i], m[i]);
    assert Val(mem, t.loc, t.k) == FileVal(mem, FileAt(mem, t.loc), t.k);
  }

  lemma ImageOwner(mem: seq<Block>, n: nat, s: seq<nat>, m: seq<nat>, pos: nat, b: nat) returns (t: Slot)
    requires Image(mem, n, s, m, pos) && 2 + BitBlocks(|mem|) <= b < pos
    ensures Owns(mem, t, b)
  {
    var i := Hits(2 + BitBlocks(|mem|), s, m, pos, b);
    ImageFile(mem, n, s, m, pos, i);
    var l := LocOf(n, s[n], i);
    t := Slot(l, if b < s[i] + m[i] then b - s[i] else NSLOTS);
    assert FileVal(mem, FileAt(mem, l), t.k) == Extent(s[i], m[i], t.k);
    assert Val(mem, l, t.k) == FileVal(mem, FileAt(mem, l), t.k);
  }

  lemma ImageExclusive(mem: seq<Block>, n: nat, s: seq<nat>, m: seq<nat>, pos: nat)
    requires Image(mem, n, s, m, pos)
    ensures Exclusive(mem)
  {
    hide Owns, IsFree, IsFile, FileAt, LaidOut;
    Hit0(mem, n, s, m, pos);
    forall t: Slot, t': Slot, b: nat | Owns(mem, t, b) && Owns(mem, t', b) ensures t == t' {
      var i := ImageOwns(mem, n, s, m, pos, t, b);
      var j := ImageOwns(mem, n, s, m, pos, t', b);
      if i < j {
        Ordered(2 + BitBlocks(|mem|), s, m, pos, i, j);
      } else if j < i {
        Ordered(2 + BitBlocks(|mem|), s, m, pos, j, i);
      }
      OneKey(s[i], m[i], t.k, t'.k);
    }
  }

  lemma OneKey(s: nat, m: nat, k: nat, k': nat)
    ensures Extent(s, m, k) == Extent(s, m, k') != 0 && s > 0 ==> k == k'
  {
  }

  lemma ImageBounds(mem: seq<Block>, n: nat, s: seq<nat>, m: seq<nat>, pos: nat, t: Slot, b: nat)
    requires Image(mem, n, s, m, pos) && Owns(mem, t, b)
    ensures 2 + BitBlocks(|mem|) <= b < pos
    ensures t.k < NSLOTS ==> t.k < NBlocks(FileAt(mem, t.loc).size)
    ensures t.k == NSLOTS ==> mem[b].Words?
  {
    var i := ImageOwns(mem, n, s, m, pos, t, b);
    Ordered(2 + BitBlocks(|mem|), s, m, pos, i, n + 1);
    ImageFile(mem, n, s, m, pos, i);
  }

  /** In the image every block is accounted for. */
  lemma ImageOwnOk(mem: seq<Block>, n: nat, s: seq<nat>, m: seq<nat>, pos: nat)
    requires Image(mem, n, s, m, pos)
    ensures OwnOk(mem, {})
  {
    hide Owns, IsFree, LaidOut, IsFile, FileAt, LocOf;
    ImageExclusive(mem, n, s, m, pos);
    Hit0(mem, n, s, m, pos);
    forall t: Slot, b: nat | Owns(mem, t, b)
      ensures 2 + BitBlocks(|mem|) <= b < pos && (t.k < NSLOTS ==> t.k < NBlocks(FileAt(mem, t.loc).size))
    {
      ImageBounds(mem, n, s, m, pos, t, b);
    }
    forall b: nat | b < |mem| ensures IsFree(mem, b) <==> !Reserved(|mem|, b) && !Owned(mem, b) {
      if 2 + BitBlocks(|mem|) <= b < pos {
        var t := ImageOwner(mem, n, s, m, pos, b);
      }
    }
    forall l | IsFile(mem, l) && FileAt(mem, l).indirect != 0
      ensures FileAt(mem, l).indirect < |mem| && mem[FileAt(mem, l).indirect].Words?
    {
      IndirectOwned(mem, l);
      ImageBounds(mem, n, s, m, pos, Slot(l, NSLOTS), FileAt(mem, l).indirect);
    }
  }

  lemma IndirectOwned(mem: seq<Block>, l: Loc)
    requires IsFile(mem, l) && FileAt(mem, l).indirect != 0
    ensures Owns(mem, Slot(l, NSLOTS), FileAt(mem, l).indirect)
  {
  }

  // ---------------------------------------------------------------- the program

  /** The data blocks from s on hold c, padded. */
  ghost predicate Holds(mem: seq<Block>, s: nat, c: seq<byte>) {
    forall p: nat :: p < |c| ==>
        s + p / BLKSIZE < |mem| && mem[s + p / BLKSIZE].Raw? && mem[s + p / BLKSIZE].bytes[p % BLKSIZE] == c[p]
  }

  ghost predicate SameBelow(mem: seq<Block>, mem': seq<Block>, pos: nat) {
    |mem'| == |mem| && forall b: nat :: b < pos && b < |mem| ==> mem'[b] == mem[b]
  }

  lemma KeptBetween(mem: seq<Block>, mem': seq<Block>, f: File, c: seq<byte>, s: nat, m: nat, lo: nat, pos: nat)
    requires LaidOut(mem, f, s, m) && lo <= s && s + Total(m) <= pos && |mem'| == |mem|
    requires forall b: nat :: lo <= b < pos && b < |mem| ==> mem'[b] == mem[b]
    ensures LaidOut(mem', f, s, m)
    ensures |c| == f.size && Holds(mem, s, c) ==> Holds(mem', s, c)
  {
    assert FileVal(mem, f, NSLOTS) == Extent(s, m, NSLOTS);
    forall k: nat ensures FileVal(mem', f, k) == Extent(s, m, k) {
      assert FileVal(mem, f, k) == Extent(s, m, k);
    }
    if |c| == f.size && Holds(mem, s, c) {
      forall p: nat | p < |c| ensures s + p / BLKSIZE < pos {
        InBlock(p, |c|);
      }
    }
  }

  lemma InBlock(p: nat, n: nat)
    requires p < n
    ensures p / BLKSIZE < NBlocks(n)
  {
  }

  /** Block j of a file's contents, padded with zeros. */
  function Padded(c: seq<byte>, j: nat): (r: seq<byte>)
    ensures |r| == BLKSIZE
    ensures forall x :: 0 <= x < BLKSIZE && j * BLKSIZE + x < |c| ==> r[x] == c[j * BLKSIZE + x]
  {
    seq(BLKSIZE, x requires 0 <= x < BLKSIZE => if j * BLKSIZE + x < |c| then c[j * BLKSIZE + x] else 0)
  }

  function AllFree(): (r: seq<bool>)
    ensures |r| == BLKBITSIZE && forall i :: 0 <= i < BLKBITSIZE ==> r[i]
  {
    seq(BLKBITSIZE, _ => true)
  }

  /** Block j of the directory: sixteen entries, the unused ones zero. */
  function DirBlock(ents: seq<File>, j: nat): (r: seq<File>)
    ensures |r| == BLKFILES
    ensures forall x :: 0 <= x < BLKFILES ==>
              r[x] == if j * BLKFILES + x < |ents| then ents[j * BLKFILES + x] else NOFILE
  {
    DirSlice(ents, j * BLKFILES, BLKFILES)
  }

  function DirSlice(ents: seq<File>, from: nat, n: nat): (r: seq<File>)
    ensures |r| == n && forall x :: 0 <= x < n ==> r[x] == if from + x < |ents| then ents[from + x] else NOFILE
  {
    if n == 0 then [] else DirSlice(ents, from, n - 1) + [if from + n - 1 < |ents| then ents[from + n - 1] else NOFILE]
  }

  /** The kinds of the blocks while files are being written. */
  ghost predicate Frame(mem: seq<Block>, pos: nat) {
    && 2 + BitBlocks(|mem|) <= pos < |mem|
    && mem[0].Raw? && mem[1] == Files([NOFILE])
    && (forall b: nat :: 2 <= b < 2 + BitBlocks(|mem|) ==> mem[b] == Bits(AllFree()))
    && (forall b: nat :: 2 + BitBlocks(|mem|) <= b < |mem| ==> mem[b].Raw? || (mem[b].Words? && b < pos))
  }

  ghost predicate Part(mem: seq<Block>, ents: seq<File>, files: seq<seq<byte>>, s: seq<nat>, m: seq<nat>, pos: nat) {
    && |ents| == |files| == |s| == |m|
    && Contiguous(2 + BitBlocks(|mem|), s, m, pos)
    && forall i: nat :: i < |ents| ==>
       LaidOut(mem, ents[i], s[i], m[i]) && ents[i].size == |files[i]| && Holds(mem, s[i], files[i])
  }

  lemma Appended(base: nat, s: seq<nat>, m: seq<nat>, end: nat, k: nat)
    requires Contiguous(base, s, m, end)
    ensures Contiguous(base, s + [end], m + [k], end + Total(k))
  {
    var s', m', e := s + [end], m + [k], end + Total(k);
    forall i: nat | i < |s'| ensures Abut(s', m', e, i) {
      if i < |s| {
        assert Abut(s, m, end, i);
      }
    }
  }

  lemma PartKept(mem: seq<Block>, mem': seq<Block>, ents: seq<File>, files: seq<seq<byte>>, s: seq<nat>, m: seq<nat>,
                 pos: nat)
    requires Part(mem, ents, files, s, m, pos) && |mem'| == |mem|
    requires forall b: nat :: 2 + BitBlocks(|mem|) <= b < pos && b < |mem| ==> mem'[b] == mem[b]
    ensures Part(mem', ents, files, s, m, pos)
  {
    hide LaidOut, Holds;
    forall i: nat | i < |ents| ensures LaidOut(mem', ents[i], s[i], m[i]) && Holds(mem', s[i], files[i]) {
      Ordered(2 + BitBlocks(|mem|), s, m, pos, i, |s|);
      KeptBetween(mem, mem', ents[i], files[i], s[i], m[i], 2 + BitBlocks(|mem|), pos);
    }
  }

  lemma PartNext(mem: seq<Block>, ents: seq<File>, files: seq<seq<byte>>, s: seq<nat>, m: seq<nat>, pos: nat, f: File,
                 c: seq<byte>, k: nat)
    requires Part(mem, ents, files, s, m, pos)
    requires LaidOut(mem, f, pos, k) && f.size == |c| && Holds(mem, pos, c)
    ensures Part(mem, ents + [f], files + [c], s + [pos], m + [k], pos + Total(k))
  {
    hide LaidOut, Holds;
    Appended(2 + BitBlocks(|mem|), s, m, pos, k);
  }

  /** The blocks the files take. */
  function BlocksOf(files: seq<seq<byte>>): nat {
    if files == [] then 0 else BlocksOf(files[..|files|-1]) + Total(NBlocks(|files[|files|-1]|))
  }

  lemma {:induction false} BlocksGrow(files: seq<seq<byte>>, i: nat)
    requires i <= |files|
    ensures BlocksOf(files[..i]) <= BlocksOf(files)
  {
    if i < |files| {
      var last := |files| - 1;
      BlocksGrow(files[..last], i);
      assert files[..last][..i] == files[..i];
    } else {
      assert files[..i] == files;
    }
  }

  class Formatter {
    const disk: array<Block>
    var pos: nat                     // blockof(diskpos)

    /** The file as ftruncate makes it. */
    constructor (nblocks: nat)
      ensures fresh(disk) && disk.Length == nblocks && pos == 0
      ensures forall b :: 0 <= b < nblocks ==> disk[b] == Raw(ZeroBytes())
    {
      disk := new Block[nblocks](_ => Raw(ZeroBytes()));
      pos := 0;
    }

    /** alloc; not ok is the panic "out of disk blocks". */
    method Alloc(bytes: nat) returns (ok: bool, start: nat)
      modifies `pos
      ensures start == old(pos) && pos == old(pos) + RoundUpUnsigned(bytes) / BLKSIZE && ok == (pos < disk.Length)
    {
      start := pos;
      pos := pos + RoundUpUnsigned(bytes) / BLKSIZE;
      ok := pos < disk.Length;
    }

    /** finishfile: numbers the blocks of a file and, for ten blocks or more, allocates its indirect block. */
    method FinishFile(start: nat, len: nat) returns (ok: bool, f: File)
      requires len <= MAXFILESIZE && start > 0
      requires NBlocks(len) >= NDIRECT ==> pos == start + NBlocks(len)
      modifies `pos, disk
      ensures pos == old(pos) + if NBlocks(len) >= NDIRECT then 1 else 0
      ensures ok <==> (NBlocks(len) >= NDIRECT ==> pos < disk.Length)
      ensures SameBelow(old(disk[..]), disk[..], old(pos)) && f.size == len
      ensures forall b: nat :: pos <= b < disk.Length ==> disk[b] == old(disk[b])
      ensures ok ==> LaidOut(disk[..], f, start, NBlocks(len))
      ensures ok && NBlocks(len) >= NDIRECT ==> disk[old(pos)].Words?
    {
      RoundUps(len);
      var m := RoundUpUnsigned(len) / BLKSIZE;
      f := NOFILE.(size := len);
      ok := true;
      var i := 0;
      while i < m && i < NDIRECT
        invariant 0 <= i <= m && i <= NDIRECT && f.size == len && f.indirect == 0
        invariant forall k :: 0 <= k < NDIRECT ==> f.direct[k] == if k < i then start + k else 0
      {
        f := f.(direct := f.direct[i := start + i]);
        i := i + 1;
      }
      if i == NDIRECT {
        var ind;
        RoundUps(BLKSIZE);
        ok, ind := Alloc(BLKSIZE);
        if !ok {
          return;
        }
        f := f.(indirect := ind);
        ghost var was := disk[..];
        disk[ind] := Words(ZeroPtrs());
        while i < m
          invariant NDIRECT <= i <= m && disk[ind].Words? && pos == ind + 1
          invariant forall j :: 0 <= j < NINDIRECT ==>
                      disk[ind].ptrs[j] == if j < i - NDIRECT then start + NDIRECT + j else 0
          invariant disk[..] == was[ind := disk[ind]]
        {
          disk[ind] := Words(disk[ind].ptrs[i - NDIRECT := start + i]);
          i := i + 1;
        }
      }
      forall k: nat ensures FileVal(disk[..], f, k) == Extent(start, m, k) {}
    }

    /** writefile, from alloc on. */
    method WriteFile(c: seq<byte>) returns (ok: bool, f: File)
      requires pos > 0 && forall b: nat :: pos <= b < disk.Length ==> disk[b].Raw?
      modifies `pos, disk
      ensures SameBelow(old(disk[..]), disk[..], old(pos))
      ensures ok ==>
                && |c| < MAXFILESIZE && pos == old(pos) + Total(NBlocks(|c|)) < disk.Length && f.size == |c|
                && LaidOut(disk[..], f, old(pos), NBlocks(|c|))
                && Holds(disk[..], old(pos), c)
                && (forall b: nat :: old(pos) <= b < pos ==> disk[b].Raw? || disk[b].Words?)
                && (forall b: nat :: pos <= b < disk.Length ==> disk[b] == old(disk[b]))
      ensures !ok ==> |c| >= MAXFILESIZE || old(pos) + Total(NBlocks(|c|)) >= disk.Length
    {
      f := NOFILE;
      if |c| >= MAXFILESIZE {
        return false, f;
      }
      RoundUps(|c|);
      var start;
      ok, start := Alloc(|c|);
      if !ok {
        return;
      }
      FillData(start, c);
      ghost var was := disk[..];
      ok, f := FinishFile(start, |c|);
      if ok {
        forall p: nat | p < |c| ensures start + p / BLKSIZE < start + NBlocks(|c|) { InBlock(p, |c|); }
      }
    }

    /** readn(fd, start, st_size) into the mapped blocks, which were zero. */
    method FillData(start: nat, c: seq<byte>)
      requires start + NBlocks(|c|) <= disk.Length
      modifies disk
      ensures SameBelow(old(disk[..]), disk[..], start) && Holds(disk[..], start, c)
      ensures forall b: nat :: start <= b < start + NBlocks(|c|) ==> disk[b].Raw?
      ensures forall b: nat :: start + NBlocks(|c|) <= b < disk.Length ==> disk[b] == old(disk[b])
    {
      var j := 0;
      while j < NBlocks(|c|)
        invariant 0 <= j <= NBlocks(|c|)
        invariant forall b: nat :: (b < start || start + j <= b) && b < disk.Length ==> disk[b] == old(disk[b])
        invariant forall b: nat :: start <= b < start + j ==> disk[b] == Raw(Padded(c, b - start))
      {
        disk[start + j] := Raw(Padded(c, j));
        j := j + 1;
      }
      forall p: nat | p < |c|
        ensures start + p / BLKSIZE < disk.Length && disk[start + p / BLKSIZE].Raw?
                && disk[start + p / BLKSIZE].bytes[p % BLKSIZE] == c[p]
      {
        InBlock(p, |c|);
        assert disk[start + p / BLKSIZE] == Raw(Padded(c, p / BLKSIZE));
        assert p / BLKSIZE * BLKSIZE + p % BLKSIZE == p;
      }
    }

    /** opendisk: the boot block, the superblock with an empty root, and a bitmap with every bit set. */
    method OpenDisk() returns (ok: bool)
      requires pos == 0 && 2 <= disk.Length <= 1024 && forall b :: 0 <= b < disk.Length ==> disk[b] == Raw(ZeroBytes())
      modifies `pos, disk
      ensures ok <==> 2 + BitBlocks(disk.Length) < disk.Length
      ensures ok ==> pos == 2 + BitBlocks(disk.Length) && Frame(disk[..], pos)
    {
      RoundUps(BLKSIZE);
      var nbitblocks := BitBlocks(disk.Length);
      RoundUps(nbitblocks * BLKSIZE);
      var start;
      ok, start := Alloc(BLKSIZE);
      if !ok {
        return;
      }
      ok, start := Alloc(BLKSIZE);
      if !ok {
        return;
      }
      disk[start] := Files([NOFILE]);
      ok, start := Alloc(nbitblocks * BLKSIZE);
      if !ok {
        return;
      }
      disk[start] := Bits(AllFree());
    }

    /** finishdir: the entries in whole blocks, then the root's own File. */
    method FinishDir(ents: seq<File>) returns (ok: bool, root: File)
      requires |ents| <= MAX_DIR_ENTS && Frame(disk[..], pos)
      modifies `pos, disk
      ensures ok <==> old(pos) + NBlocks(|ents| * 256) < disk.Length
      ensures ok ==>
                && pos == old(pos) + NBlocks(|ents| * 256)
                && LaidOut(disk[..], root, old(pos), if ents == [] then 1 else NBlocks(|ents| * 256))
                && disk[1] == Files([root])
                && (forall j: nat :: j < NBlocks(|ents| * 256) ==> disk[old(pos) + j] == Files(DirBlock(ents, j)))
                && (forall b: nat :: b != 1 && (b < old(pos) || pos <= b) && b < disk.Length ==>
                      disk[b] == old(disk[b]))
    {
      var size := |ents| * 256;
      RoundUps(size);
      var start;
      ok, start := Alloc(size);
      root := NOFILE;
      if !ok {
        return;
      }
      var j := 0;
      while j < NBlocks(size)
        invariant 0 <= j <= NBlocks(size) && pos == start + NBlocks(size)
        invariant forall b: nat :: (b < start || start + j <= b) && b < disk.Length ==> disk[b] == old(disk[b])
        invariant forall i: nat :: i < j ==> disk[start + i] == Files(DirBlock(ents, i))
      {
        disk[start + j] := Files(DirBlock(ents, j));
        j := j + 1;
      }
      assert NBlocks(RoundUpSigned(size)) == if ents == [] then 1 else NBlocks(size);
      ghost var was := disk[..];
      ok, root := FinishFile(start, RoundUpSigned(size));
      ghost var was1 := disk[..];
      disk[1] := Files([root]);
      SmallLaidOut(was1, disk[..], root, start, NBlocks(root.size));
    }

    /** finishdisk: every block below diskpos is in use. */
    method FinishDisk()
      requires pos <= disk.Length <= BLKBITSIZE && 2 < disk.Length && disk[2] == Bits(AllFree())
      modifies disk
      ensures disk[..] == old(disk[..])[2 := disk[2]] && disk[2].Bits?
      ensures forall b :: 0 <= b < BLKBITSIZE ==> disk[2].free[b] == (b >= pos)
    {
      for i := 0 to pos
        invariant disk[..] == old(disk[..])[2 := disk[2]] && disk[2].Bits?
        invariant forall b :: 0 <= b < BLKBITSIZE ==> disk[2].free[b] == (b >= i)
      {
        disk[2 + i / BLKBITSIZE] := Bits(disk[2 + i / BLKBITSIZE].free[i % BLKBITSIZE := false]);
      }
    }
  }

  datatype Result = Built(img: seq<Block>) | Aborted

  /** The block where the directory starts. */
  function DirStart(nblocks: nat, files: seq<seq<byte>>): nat { 2 + BitBlocks(nblocks) + BlocksOf(files) }

  /** What fsformat demands before it produces an image. */
  ghost predicate Fits(nblocks: nat, files: seq<seq<byte>>) {
    && 2 <= nblocks <= 1024 && |files| <= MAX_DIR_ENTS
    && (forall i :: 0 <= i < |files| ==> |files[i]| < MAXFILESIZE)
    && DirStart(nblocks, files) + NBlocks(|files| * 256) < nblocks
  }

  /** The disk after finishdir and finishdisk, in terms of what was there before. */
  ghost predicate Finished(mem0: seq<Block>, mem: seq<Block>, ents: seq<File>, root: File, d: nat, pos: nat) {
    && |mem| == |mem0| <= 1024 && 3 <= d && pos == d + NBlocks(|ents| * 256) < |mem|
    && LaidOut(mem, root, d, if ents == [] then 1 else NBlocks(|ents| * 256)) && mem[1] == Files([root])
    && (forall j: nat :: j < NBlocks(|ents| * 256) ==> mem[d + j] == Files(DirBlock(ents, j)))
    && mem[2].Bits? && (forall b :: 0 <= b < BLKBITSIZE ==> mem[2].free[b] == (b >= pos))
    && (forall b: nat :: b != 1 && b != 2 && (b < d || pos <= b) && b < |mem| ==> mem[b] == mem0[b])
  }

  lemma FinishedFree(mem0: seq<Block>, mem: seq<Block>, ents: seq<File>, root: File, d: nat, pos: nat)
    requires Finished(mem0, mem, ents, root, d, pos)
    ensures forall b: nat :: b < |mem| ==> (IsFree(mem, b) <==> pos <= b)
  {
  }

  lemma FinishedKinds(mem0: seq<Block>, mem: seq<Block>, ents: seq<File>, root: File, d: nat, pos: nat)
    requires Finished(mem0, mem, ents, root, d, pos) && Frame(mem0, d)
    ensures forall b :: 0 <= b < |mem| ==> (mem[b].Files? <==> b == 1 || d <= b < pos) && (mem[b].Bits? <==> b == 2)
  {
    FinishedBlocks(mem0, mem, ents, root, d, pos);
  }

  lemma FinishedBlocks(mem0: seq<Block>, mem: seq<Block>, ents: seq<File>, root: File, d: nat, pos: nat)
    requires Finished(mem0, mem, ents, root, d, pos)
    ensures forall b :: d <= b < pos ==> mem[b] == Files(DirBlock(ents, b - d))
  {
    forall b | d <= b < pos ensures mem[b] == Files(DirBlock(ents, b - d)) {
      assert mem[d + (b - d)] == Files(DirBlock(ents, b - d));
    }
  }

  lemma FinishedEntry(mem0: seq<Block>, mem: seq<Block>, ents: seq<File>, root: File, d: nat, pos: nat, i: nat)
    requires Finished(mem0, mem, ents, root, d, pos) && i <= |ents|
    ensures IsFile(mem, LocOf(|ents|, d, i))
    ensures FileAt(mem, LocOf(|ents|, d, i)) == if i < |ents| then ents[i] else root
  {
    if i < |ents| {
      assert mem[d + i / BLKFILES] == Files(DirBlock(ents, i / BLKFILES));
    }
  }

  lemma FinishedLoc(mem0: seq<Block>, mem: seq<Block>, ents: seq<File>, root: File, d: nat, pos: nat, l: Loc)
    requires Finished(mem0, mem, ents, root, d, pos) && Frame(mem0, d)
    requires IsFile(mem, l) && FileAt(mem, l) != NOFILE
    ensures IsEntry(|ents|, d, l)
  {
    FinishedKinds(mem0, mem, ents, root, d, pos);
    if l.blk == 1 {
      assert l == LocOf(|ents|, d, |ents|);
    } else {
      var i := (l.blk - d) * BLKFILES + l.idx;
      FinishedBlocks(mem0, mem, ents, root, d, pos);
      assert mem[l.blk] == Files(DirBlock(ents, l.blk - d));
      assert l == LocOf(|ents|, d, i);
    }
  }

  lemma MakeShape(mem0: seq<Block>, mem: seq<Block>, ents: seq<File>, files: seq<seq<byte>>, s: seq<nat>, m: seq<nat>,
                  d: nat, root: File, pos: nat)
    requires Part(mem, ents, files, s, m, d) && Frame(mem0, d) && Finished(mem0, mem, ents, root, d, pos)
    requires ents != [] && |ents| <= MAX_DIR_ENTS
    ensures ImageShape(mem, |ents|, s + [d], m + [NBlocks(|ents| * 256)], pos)
  {
    hide LaidOut, Holds, IsFree, IsFile, FileAt, LocOf, Finished, Frame, Part, Contiguous, NBlocks, BitBlocks, IsEntry;
    var n, dlen := |ents|, NBlocks(|ents| * 256);
    FinishedFree(mem0, mem, ents, root, d, pos);
    FinishedKinds(mem0, mem, ents, root, d, pos);
    FinishedRest(mem0, mem, ents, root, d, pos);
    PartAppended(mem, ents, files, s, m, d, dlen);
    var s1, m1 := s + [d], m + [dlen];
    assert s1[n] == d && m1[n] == dlen;
  }

  lemma MakeFiles(mem0: seq<Block>, mem: seq<Block>, ents: seq<File>, files: seq<seq<byte>>, s: seq<nat>, m: seq<nat>,
                  d: nat, root: File, pos: nat)
    requires Part(mem, ents, files, s, m, d) && Frame(mem0, d) && Finished(mem0, mem, ents, root, d, pos)
    requires ents != [] && |ents| <= MAX_DIR_ENTS
    ensures ImageFiles(mem, |ents|, s + [d], m + [NBlocks(|ents| * 256)])
  {
    hide LaidOut, Holds, IsFree, IsFile, FileAt, LocOf, Finished, Frame, Part, Contiguous, NBlocks, BitBlocks, IsEntry;
    var n, dlen := |ents|, NBlocks(|ents| * 256);
    FinishedRest(mem0, mem, ents, root, d, pos);
    PartAppended(mem, ents, files, s, m, d, dlen);
    var s1, m1 := s + [d], m + [dlen];
    assert s1[n] == d && m1[n] == dlen;
    forall i: nat | i <= n ensures LaidOut(mem, FileAt(mem, LocOf(n, d, i)), s1[i], m1[i]) {
      FinishedEntry(mem0, mem, ents, root, d, pos, i);
    }
    forall l | IsFile(mem, l) && FileAt(mem, l) != NOFILE ensures IsEntry(n, d, l) {
      FinishedLoc(mem0, mem, ents, root, d, pos, l);
    }
  }

  /** A finished image with at least one file has the shape of which every block is accounted for. */
  lemma MakeImage(mem0: seq<Block>, mem: seq<Block>, ents: seq<File>, files: seq<seq<byte>>, s: seq<nat>, m: seq<nat>,
                  d: nat, root: File, pos: nat)
    requires Part(mem0, ents, files, s, m, d) && Frame(mem0, d) && Finished(mem0, mem, ents, root, d, pos)
    requires ents != [] && |ents| <= MAX_DIR_ENTS
    ensures Image(mem, |ents|, s + [d], m + [NBlocks(|ents| * 256)], pos)
    ensures Part(mem, ents, files, s, m, d)
  {
    hide ImageShape, ImageFiles, LaidOut, Holds, Finished, Frame, Part, NBlocks, BitBlocks;
    FinishedRest(mem0, mem, ents, root, d, pos);
    PartKept(mem0, mem, ents, files, s, m, d);
    MakeShape(mem0, mem, ents, files, s, m, d, root, pos);
    MakeFiles(mem0, mem, ents, files, s, m, d, root, pos);
  }

  lemma PartAppended(mem: seq<Block>, ents: seq<File>, files: seq<seq<byte>>, s: seq<nat>, m: seq<nat>, d: nat, k: nat)
    requires Part(mem, ents, files, s, m, d)
    ensures |s| == |m| == |ents| && Contiguous(2 + BitBlocks(|mem|), s + [d], m + [k], d + Total(k))
    ensures forall i: nat :: i < |ents| ==> LaidOut(mem, ents[i], s[i], m[i])
  {
    hide LaidOut;
    Appended(2 + BitBlocks(|mem|), s, m, d, k);
  }

  lemma FinishedRest(mem0: seq<Block>, mem: seq<Block>, ents: seq<File>, root: File, d: nat, pos: nat)
    requires Finished(mem0, mem, ents, root, d, pos) && Frame(mem0, d) && ents != [] && |ents| <= MAX_DIR_ENTS
    ensures |mem| == |mem0| && BitBlocks(|mem|) == 1 && 3 <= d && pos == d + NBlocks(|ents| * 256) < |mem|
            && NBlocks(|ents| * 256) < NDIRECT
    ensures |ents| <= NBlocks(|ents| * 256) * BLKFILES
    ensures LaidOut(mem, root, d, NBlocks(|ents| * 256)) && mem[1] == Files([root])
    ensures forall b: nat :: 3 <= b < d ==> mem[b] == mem0[b]
    ensures forall b: nat :: d <= b < pos ==> mem[b].Files? && |mem[b].files| == BLKFILES
  {
    forall b: nat | d <= b < pos ensures mem[b].Files? && |mem[b].files| == BLKFILES {
      assert mem[d + (b - d)] == Files(DirBlock(ents, b - d));
    }
  }

  /** With no file the root directory names a free block. */
  lemma EmptyIsNotOk(mem0: seq<Block>, mem: seq<Block>, root: File, d: nat, pos: nat)
    requires Finished(mem0, mem, [], root, d, pos) && d > 0
    ensures IsFile(mem, Loc(1, 0)) && Owns(mem, Slot(Loc(1, 0), 0), d) && IsFree(mem, d) && !OwnOk(mem, {})
  {
    FinishedFree(mem0, mem, [], root, d, pos);
    assert FileVal(mem, root, 0) == Extent(d, 1, 0);
    assert Owns(mem, Slot(Loc(1, 0), 0), d);
    assert Owned(mem, d);
  }

  /** Entry i of the directory is the i-th file given. */
  ghost predicate Faithful(img: seq<Block>, files: seq<seq<byte>>, d: nat, i: nat)
    requires i < |files|
  {
    var l := LocOf(|files|, d, i);
    && IsFile(img, l) && FileAt(img, l).size == |files[i]|
    && forall p: nat :: p < |files[i]| ==> HasByte(img, l, p) && ByteAt(img, l, p) == files[i][p]
  }

  lemma ImageFaithful(mem: seq<Block>, ents: seq<File>, files: seq<seq<byte>>, s: seq<nat>, m: seq<nat>, d: nat, i: nat)
    requires Part(mem, ents, files, s, m, d) && i < |files|
    requires FileAt(mem, LocOf(|ents|, d, i)) == ents[i] && IsFile(mem, LocOf(|ents|, d, i))
    requires 0 < 2 + BitBlocks(|mem|) <= s[i]
    ensures Faithful(mem, files, d, i)
  {
    var l := LocOf(|files|, d, i);
    assert LaidOut(mem, ents[i], s[i], m[i]);
    forall p: nat | p < |files[i]| ensures HasByte(mem, l, p) && ByteAt(mem, l, p) == files[i][p] {
      InBlock(p, |files[i]|);
      assert FileVal(mem, ents[i], p / BLKSIZE) == Extent(s[i], m[i], p / BLKSIZE);
    }
  }

  /** The files of an image are regular, so the file server's operations apply to them. */
  lemma FaithfulRegular(img: seq<Block>, files: seq<seq<byte>>, d: nat, i: nat)
    requires OwnOk(img, {}) && i < |files| && Faithful(img, files, d, i)
    ensures Regular(img, LocOf(|files|, d, i))
  {
    hide OwnOk, Val, IsFile, FileAt, LocOf, HasByte, ByteAt;
    var l := LocOf(|files|, d, i);
    forall k | 0 <= k < NSLOTS && 0 != Val(img, l, k) < |img| ensures !img[Val(img, l, k)].Files? {
      SlotInSize(img, l, k);
      assert HasByte(img, l, k * BLKSIZE);
      HasDataBlock(img, l, k);
    }
  }

  lemma SlotInSize(mem: seq<Block>, l: Loc, k: nat)
    requires OwnOk(mem, {}) && IsFile(mem, l) && k < NSLOTS && Val(mem, l, k) != 0
    ensures k * BLKSIZE < FileAt(mem, l).size
  {
    hide Val, IsFile, FileAt, IsFree, Layout, Marked, Exclusive, IndexTyped;
    assert Owns(mem, Slot(l, k), Val(mem, l, k));
  }

  lemma HasDataBlock(mem: seq<Block>, l: Loc, k: nat)
    requires HasByte(mem, l, k * BLKSIZE)
    ensures Val(mem, l, k) < |mem| && !mem[Val(mem, l, k)].Files?
  {
  }

  /** main.  Every block of the image is accounted for if and only if at least one file was given: an
      empty directory gets a size of one block and the number of a block that nobody allocated. */
  method Format(nblocks: nat, files: seq<seq<byte>>) returns (r: Result)
    ensures r.Built? <==> Fits(nblocks, files)
    ensures r.Built? ==> |r.img| == nblocks && (OwnOk(r.img, {}) <==> files != [])
    ensures r.Built? && files != [] ==>
              forall i: nat :: i < |files| ==> Faithful(r.img, files, DirStart(nblocks, files), i)
  {
    hide LaidOut, Holds, IsFree, IsFile, FileAt, LocOf, Finished, OwnOk, Image, Part, Faithful, Contiguous;
    if nblocks < 2 || nblocks > 1024 {
      return Aborted;
    }
    var fm := new Formatter(nblocks);
    var ok := fm.OpenDisk();
    if !ok {
      return Aborted;
    }
    var ents;
    ghost var s, m;
    ok, ents, s, m := WriteFiles(fm, files);
    if !ok {
      return Aborted;
    }
    r := FinishImage(fm, ents, files, s, m);
  }

  /** The calls of writefile. */
  method WriteFiles(fm: Formatter, files: seq<seq<byte>>)
    returns (ok: bool, ents: seq<File>, ghost s: seq<nat>, ghost m: seq<nat>)
    requires fm.disk.Length <= 1024 && fm.pos == 2 + BitBlocks(fm.disk.Length) && Frame(fm.disk[..], fm.pos)
    modifies fm, fm.disk
    ensures ok <==> |files| <= MAX_DIR_ENTS && (forall i :: 0 <= i < |files| ==> |files[i]| < MAXFILESIZE)
                    && (files == [] || DirStart(fm.disk.Length, files) < fm.disk.Length)
    ensures ok ==>
              && |ents| == |files| && fm.pos == DirStart(fm.disk.Length, files) && Frame(fm.disk[..], fm.pos)
              && Part(fm.disk[..], ents, files, s, m, fm.pos)
  {
    hide LaidOut, Holds, Part, Frame, NBlocks, BitBlocks, Total, BlocksOf, SameBelow;
    NoBlocks(files);
    FrameAbove(fm.disk[..], fm.pos);
    ents, s, m := [], [], [];
    var i := 0;
    PartStart(fm.disk[..]);
    while i < |files|
      invariant 0 <= i <= |files| && |ents| == i <= MAX_DIR_ENTS
      invariant fm.pos == DirStart(fm.disk.Length, files[..i]) < fm.disk.Length
      invariant Frame(fm.disk[..], fm.pos) && Part(fm.disk[..], ents, files[..i], s, m, fm.pos)
      invariant forall k :: 0 <= k < i ==> |files[k]| < MAXFILESIZE
    {
      BlocksNext(files, i);
      if i + 1 > MAX_DIR_ENTS {
        return false, ents, s, m;
      }
      ghost var was, pos0 := fm.disk[..], fm.pos;
      FrameAbove(was, pos0);
      var f;
      ok, f := fm.WriteFile(files[i]);
      if !ok {
        return;
      }
      FrameKept(was, fm.disk[..], pos0, fm.pos);
      PartKept(was, fm.disk[..], ents, files[..i], s, m, pos0);
      PartNext(fm.disk[..], ents, files[..i], s, m, pos0, f, files[i], NBlocks(|files[i]|));
      ents, s, m := ents + [f], s + [pos0], m + [NBlocks(|files[i]|)];
      i := i + 1;
    }
    assert files[..i] == files;
    ok := true;
  }

  lemma NoBlocks(files: seq<seq<byte>>)
    ensures BlocksOf(files[..0]) == 0
  {
  }

  lemma BlocksNext(files: seq<seq<byte>>, i: nat)
    requires i < |files|
    ensures files[..i+1] == files[..i] + [files[i]]
    ensures BlocksOf(files[..i+1]) == BlocksOf(files[..i]) + Total(NBlocks(|files[i]|))
    ensures BlocksOf(files[..i+1]) <= BlocksOf(files)
  {
    BlocksGrow(files, i + 1);
    assert files[..i+1][..i] == files[..i];
  }

  lemma FrameAbove(mem: seq<Block>, pos: nat)
    requires Frame(mem, pos)
    ensures 0 < pos < |mem| && forall b: nat :: pos <= b < |mem| ==> mem[b].Raw?
  {
  }

  lemma FrameKept(mem: seq<Block>, mem': seq<Block>, pos: nat, pos': nat)
    requires Frame(mem, pos) && pos <= pos' < |mem| && SameBelow(mem, mem', pos)
    requires forall b: nat :: pos <= b < pos' ==> mem'[b].Raw? || mem'[b].Words?
    requires forall b: nat :: pos' <= b < |mem| ==> mem'[b] == mem[b]
    ensures Frame(mem', pos')
  {
  }

  /** finishdir and finishdisk after the files. */
  method FinishImage(fm: Formatter, ents: seq<File>, ghost files: seq<seq<byte>>, ghost s: seq<nat>, ghost m: seq<nat>)
    returns (r: Result)
    requires fm.disk.Length <= 1024 && |ents| == |files| <= MAX_DIR_ENTS && Frame(fm.disk[..], fm.pos)
    requires Part(fm.disk[..], ents, files, s, m, fm.pos)
    modifies fm, fm.disk
    ensures r.Built? <==> old(fm.pos) + NBlocks(|files| * 256) < fm.disk.Length
    ensures r.Built? ==> |r.img| == fm.disk.Length && (OwnOk(r.img, {}) <==> files != [])
    ensures r.Built? && files != [] ==> forall i: nat :: i < |files| ==> Faithful(r.img, files, old(fm.pos), i)
  {
    hide LaidOut, Holds, IsFree, IsFile, FileAt, LocOf, Finished, OwnOk, Image, Part, Faithful, Contiguous;
    ghost var mem0, d := fm.disk[..], fm.pos;
    var ok, root := fm.FinishDir(ents);
    if !ok {
      return Aborted;
    }
    ghost var mem1 := fm.disk[..];
    fm.FinishDisk();
    r := Built(fm.disk[..]);
    FinishedHere(mem0, mem1, r.img, ents, root, d, fm.pos);
    if files == [] {
      EmptyIsNotOk(mem0, r.img, root, d, fm.pos);
    } else {
      MakeImage(mem0, r.img, ents, files, s, m, d, root, fm.pos);
      ImageOwnOk(r.img, |ents|, s + [d], m + [NBlocks(|ents| * 256)], fm.pos);
      forall k: nat | k < |files| ensures Faithful(r.img, files, d, k) {
        FinishedEntry(mem0, r.img, ents, root, d, fm.pos, k);
        PartFirst(r.img, ents, files, s, m, d, k);
        ImageFaithful(r.img, ents, files, s, m, d, k);
      }
    }
  }

  lemma PartStart(mem: seq<Block>)
    ensures Part(mem, [], [], [], [], 2 + BitBlocks(|mem|))
  {
  }

  lemma PartFirst(mem: seq<Block>, ents: seq<File>, files: seq<seq<byte>>, s: seq<nat>, m: seq<nat>, d: nat, k: nat)
    requires Part(mem, ents, files, s, m, d) && k < |files|
    ensures |s| == |ents| == |files| && 2 + BitBlocks(|mem|) <= s[k]
  {
    Ordered(2 + BitBlocks(|mem|), s, m, d, k, |s|);
  }

  lemma FinishedHere(mem0: seq<Block>, mem1: seq<Block>, mem: seq<Block>, ents: seq<File>, root: File, d: nat, pos: nat)
    requires |mem0| == |mem1| == |mem| <= 1024 && pos == d + NBlocks(|ents| * 256) < |mem| && d >= 3
             && |ents| <= MAX_DIR_ENTS
    requires LaidOut(mem1, root, d, if ents == [] then 1 else NBlocks(|ents| * 256)) && mem1[1] == Files([root])
    requires forall j: nat :: j < NBlocks(|ents| * 256) ==> mem1[d + j] == Files(DirBlock(ents, j))
    requires forall b: nat :: b != 1 && (b < d || pos <= b) && b < |mem| ==> mem1[b] == mem0[b]
    requires mem[2].Bits? && mem == mem1[2 := mem[2]] && forall b :: 0 <= b < BLKBITSIZE ==>
               mem[2].free[b] == (b >= pos)
    ensures Finished(mem0, mem, ents, root, d, pos)
  {
    SmallLaidOut(mem1, mem, root, d, if ents == [] then 1 else NBlocks(|ents| * 256));
  }

  /** A file without indirect block is laid out the same whatever the blocks hold. */
  lemma SmallLaidOut(mem: seq<Block>, mem': seq<Block>, f: File, s: nat, m: nat)
    requires LaidOut(mem, f, s, m) && m < NDIRECT
    ensures LaidOut(mem', f, s, m)
  {
    assert FileVal(mem, f, NSLOTS) == 0;
    forall k: nat ensures FileVal(mem', f, k) == Extent(s, m, k) {
      assert FileVal(mem, f, k) == Extent(s, m, k);
    }
  }
}
