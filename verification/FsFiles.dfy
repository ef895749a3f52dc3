/** fs/fs.c, file_read: what a reader gets, and the cost of the blocks it may have to add. */
module FsFiles {
  import opened FsTypes
  import opened FsOwn
  import opened FsContents
  import opened BlockCache
  import opened Fs

  function Min(a: nat, b: nat): (r: nat)
    ensures r <= a && r <= b && (r == a || r == b)
  {
    if a < b then a else b
  }

  /** The number of file blocks that [off, off + n) touches. */
  function Chunks(off: nat, n: nat): nat {
    if n == 0 then 0 else (off + n - 1) / BLKSIZE - off / BLKSIZE + 1
  }

  function NoIndex(mem: seq<Block>, l: Loc): nat { IndexCost(mem, l, NDIRECT) }

  /** After `steps` calls of file_get_block at most that many blocks are gone, and one more for the index. */
  ghost predicate Budget(mem0: seq<Block>, mem: seq<Block>, l: Loc, steps: nat) {
    |FreeSet(mem)| + steps + NoIndex(mem0, l) >= |FreeSet(mem0)| + NoIndex(mem, l)
  }

  lemma BudgetStep(mem0: seq<Block>, mem: seq<Block>, mem': seq<Block>, l: Loc, k: nat, steps: nat, b: nat)
    requires Budget(mem0, mem, l, steps) && IsFile(mem, l) && k < NSLOTS
    requires Grown(mem, mem', l) && Owns(mem', Slot(l, k), b)
    requires |FreeSet(mem')| == |FreeSet(mem)| - BlockCost(mem, l, k)
    ensures Budget(mem0, mem', l, steps + 1)
  {
    hide FreeSet;
    if FileAt(mem, l).indirect != 0 {
      assert Owns(mem, Slot(l, NSLOTS), FileAt(mem, l).indirect);
      assert Owns(mem', Slot(l, NSLOTS), FileAt(mem, l).indirect);
    }
  }

  lemma BudgetEnough(mem0: seq<Block>, mem: seq<Block>, l: Loc, k: nat, steps: nat, chunks: nat)
    requires Budget(mem0, mem, l, steps) && steps < chunks && |FreeSet(mem0)| >= chunks + 1
    ensures BlockCost(mem, l, k) <= |FreeSet(mem)|
  {
    hide FreeSet;
  }

  lemma NoCost(mem: seq<Block>, l: Loc, pos: nat)
    requires pos in Contents(mem, l)
    ensures BlockCost(mem, l, pos / BLKSIZE) == 0
  {
  }

  /** Where the loop stands after `steps` chunks. */
  predicate At(off: nat, end: nat, pos: nat, steps: nat) {
    && off <= pos <= end
    && (if steps == 0 then pos == off else pos == Min(end, (off / BLKSIZE + steps) * BLKSIZE))
  }

  lemma ChunkStep(off: nat, end: nat, pos: nat, steps: nat)
    requires At(off, end, pos, steps) && pos < end
    ensures pos / BLKSIZE == off / BLKSIZE + steps && steps < Chunks(off, end - off)
    ensures At(off, end, pos + Min(BLKSIZE - pos % BLKSIZE, end - pos), steps + 1)
    ensures 0 < Min(BLKSIZE - pos % BLKSIZE, end - pos) <= BLKSIZE - pos % BLKSIZE
    ensures pos + Min(BLKSIZE - pos % BLKSIZE, end - pos) <= end
    ensures forall p :: pos <= p < pos + Min(BLKSIZE - pos % BLKSIZE, end - pos) ==>
              p / BLKSIZE == pos / BLKSIZE && p % BLKSIZE == pos % BLKSIZE + (p - pos)
  {
    var q := off / BLKSIZE;
    if steps == 0 {
      assert pos / BLKSIZE == q;
    } else {
      assert pos == (q + steps) * BLKSIZE;
    }
    assert pos / BLKSIZE <= (end - 1) / BLKSIZE;
  }

  /** buf is what m holds from off on. */
  ghost predicate ReadsAs(m: map<nat, byte>, off: nat, buf: seq<byte>) {
    forall p :: off <= p < off + |buf| ==> p in m && m[p] == buf[p - off]
  }

  /** The bytes of a chunk are the file's bytes at those positions. */
  lemma ChunkRead(mem: seq<Block>, l: Loc, pos: nat, bn: nat, b: nat)
    requires Owns(mem, Slot(l, pos / BLKSIZE), b) && pos / BLKSIZE < NSLOTS && b < |mem| && !mem[b].Files?
    requires pos % BLKSIZE + bn <= BLKSIZE && pos + bn <= FileAt(mem, l).size
    requires forall p :: pos <= p < pos + bn ==>
               p / BLKSIZE == pos / BLKSIZE && p % BLKSIZE == pos % BLKSIZE + (p - pos)
    ensures ReadsAs(Contents(mem, l), pos, Bytes(mem[b])[pos % BLKSIZE..pos % BLKSIZE + bn])
  {
    hide Owns, FileAt, HasByte, ByteAt, Bytes;
    forall p | pos <= p < pos + bn
      ensures p in Contents(mem, l) && Contents(mem, l)[p] == Bytes(mem[b])[pos % BLKSIZE..pos % BLKSIZE + bn][p - pos]
    {
      assert p / BLKSIZE == pos / BLKSIZE && p % BLKSIZE == pos % BLKSIZE + (p - pos);
      OwnerByte(mem, l, p, b);
    }
  }

  lemma RegularOwner(mem: seq<Block>, l: Loc, k: nat, b: nat)
    requires Regular(mem, l) && Owns(mem, Slot(l, k), b) && k < NSLOTS && b < |mem|
    ensures !mem[b].Files?
  {
  }

  ghost predicate Covers(m: map<nat, byte>, off: nat, n: nat) { forall p :: off <= p < off + n ==> p in m }

  lemma ReadsMore(m: map<nat, byte>, m': map<nat, byte>, off: nat, buf: seq<byte>, more: seq<byte>)
    requires ReadsAs(m, off, buf) && Extends(m, m') && ReadsAs(m', off + |buf|, more)
    ensures ReadsAs(m', off, buf + more)
  {
    forall p | off <= p < off + |buf + more| ensures p in m' && m'[p] == (buf + more)[p - off] {
      if p < off + |buf| {
        assert p in m;
      }
    }
  }

  lemma ReadsNothing(m: map<nat, byte>, off: nat)
    ensures ReadsAs(m, off, [])
  {
  }

  lemma ExtendsTrans(m: map<nat, byte>, m1: map<nat, byte>, m2: map<nat, byte>)
    requires Extends(m, m1) && Extends(m1, m2)
    ensures Extends(m, m2)
  {
  }

  lemma CoveredAt(m: map<nat, byte>, m': map<nat, byte>, off: nat, n: nat, pos: nat)
    requires Covers(m, off, n) && Extends(m, m') && off <= pos < off + n
    ensures pos in m'
  {
  }

  lemma RegularIsFile(mem: seq<Block>, l: Loc)
    requires Regular(mem, l)
    ensures IsFile(mem, l)
  {
  }

  lemma BudgetStart(mem: seq<Block>, l: Loc)
    ensures Budget(mem, mem, l, 0)
  {
  }

  lemma AtStart(off: nat, n: nat)
    ensures At(off, off + n, off, 0)
  {
  }

  lemma InSize(size: nat, pos: nat)
    requires pos < size
    ensures pos / BLKSIZE < NBlocks(size)
  {
  }

  lemma GrownRegular(mem: seq<Block>, mem1: seq<Block>, l: Loc)
    requires Grown(mem, mem1, l) && Regular(mem, l)
    ensures Regular(mem1, l) && IsFile(mem, l) && IsFile(mem1, l) && FileAt(mem1, l).size == FileAt(mem, l).size
    ensures Extends(Contents(mem, l), Contents(mem1, l)) && forall x :: x != l ==> Contents(mem1, x) == Contents(mem, x)
  {
    hide Owns, Grown, FileAt, IsFile, Regular, Contents;
    RegularIsFile(mem, l);
    RegularGrown(mem, mem1, l, l);
    RegularIsFile(mem1, l);
    GrownFile(mem, mem1, l);
    GrownContents(mem, mem1, l);
  }

  /** The call of file_get_block in the loops of file_read and file_write. */
  method NextBlock(fs: FileSystem, l: Loc, ghost mem0: seq<Block>, ghost off: nat, ghost end: nat, pos: nat,
                   ghost steps: nat)
    returns (out: Outcome, blk: nat)
    requires fs.Settled() && Regular(fs.bc.Logical(), l) && end <= FileAt(fs.bc.Logical(), l).size
    requires At(off, end, pos, steps) && pos < end && Budget(mem0, fs.bc.Logical(), l, steps)
    modifies fs.bc, fs`pend, fs`busy
    ensures fs.Valid() && (out.Code? ==> fs.Settled())
    ensures out == Code(0) || out == Panic || out == Code(-E_INVAL)
    ensures out == Code(-E_INVAL) <==> pos / BLKSIZE >= NSLOTS
    ensures |FreeSet(mem0)| >= Chunks(off, end - off) + 1 || pos in Contents(old(fs.bc.Logical()), l) ==> out != Panic
    ensures out == Code(0) ==>
              && Grown(old(fs.bc.Logical()), fs.bc.Logical(), l) && Regular(fs.bc.Logical(), l)
              && Budget(mem0, fs.bc.Logical(), l, steps + 1)
              && Owns(fs.bc.Logical(), Slot(l, pos / BLKSIZE), blk)
              && 0 != blk < |fs.bc.Logical()| && !fs.bc.Logical()[blk].Files? && !IsFree(fs.bc.Logical(), blk)
    ensures out == Code(-E_INVAL) ==> fs.bc.Logical() == old(fs.bc.Logical())
  {
    hide State, Owns, Grown, IsFree, FileAt, IsFile, Regular, Contents, Budget, FreeSet, BlockCost, At, Chunks, Val;
    ghost var mem := fs.bc.Logical();
    RegularIsFile(mem, l);
    ChunkStep(off, end, pos, steps);
    InSize(FileAt(mem, l).size, pos);
    if |FreeSet(mem0)| >= Chunks(off, end - off) + 1 {
      BudgetEnough(mem0, mem, l, pos / BLKSIZE, steps, Chunks(off, end - off));
    }
    if pos in Contents(mem, l) {
      NoCost(mem, l, pos);
    }
    out, blk := fs.GetBlock(l, pos / BLKSIZE);
    if out == Code(0) {
      ghost var mem1 := fs.bc.Logical();
      BudgetStep(mem0, mem, mem1, l, pos / BLKSIZE, steps, blk);
      GrownRegular(mem, mem1, l);
      RegularOwner(mem1, l, pos / BLKSIZE, blk);
      StateFacts(mem1, fs.bc.disk, fs.bc.images, fs.pend, fs.busy);
    }
  }

  /** How many bytes a read of count bytes at off returns. */
  function ReadLength(size: nat, count: nat, off: nat): nat { if off >= size then 0 else Min(count, size - off) }

  /** One turn of the loop of file_read: the bytes of [pos, end) that lie in pos's block. */
  method ReadChunk(fs: FileSystem, l: Loc, ghost mem0: seq<Block>, ghost off: nat, end: nat, pos: nat, ghost steps: nat)
    returns (out: Outcome, chunk: seq<byte>)
    requires fs.Settled() && Regular(fs.bc.Logical(), l) && end <= FileAt(fs.bc.Logical(), l).size
    requires At(off, end, pos, steps) && pos < end && Budget(mem0, fs.bc.Logical(), l, steps)
    modifies fs.bc, fs`pend, fs`busy
    ensures fs.Valid() && (out.Code? ==> fs.Settled())
    ensures out == Code(0) || out == Panic || (out == Code(-E_INVAL) && end > MAXFILESIZE)
    ensures |FreeSet(mem0)| >= Chunks(off, end - off) + 1 || pos in Contents(old(fs.bc.Logical()), l) ==> out != Panic
    ensures out == Code(0) ==>
              && Grown(old(fs.bc.Logical()), fs.bc.Logical(), l) && Budget(mem0, fs.bc.Logical(), l, steps + 1)
              && 0 < |chunk| && pos + |chunk| <= end && At(off, end, pos + |chunk|, steps + 1)
              && ReadsAs(Contents(fs.bc.Logical(), l), pos, chunk)
    ensures out == Code(-E_INVAL) ==> fs.bc.Logical() == old(fs.bc.Logical())
  {
    hide State, Owns, Grown, IsFree, FileAt, IsFile, Regular, Contents, Bytes, Budget, FreeSet, At, Chunks, ReadsAs;
    ghost var mem := fs.bc.Logical();
    chunk := [];
    ChunkStep(off, end, pos, steps);
    var blk;
    out, blk := NextBlock(fs, l, mem0, off, end, pos, steps);
    if out == Code(0) {
      var bn := Min(BLKSIZE - pos % BLKSIZE, end - pos);
      GrownRegular(mem, fs.bc.Logical(), l);
      ChunkRead(fs.bc.Logical(), l, pos, bn, blk);
      var page := fs.Load(blk);
      chunk := Bytes(page)[pos % BLKSIZE..pos % BLKSIZE + bn];
    }
  }

  /** file_read.  A read through a hole adds a block, whose bytes are whatever the disk held. */
  method FileRead(fs: FileSystem, l: Loc, count: nat, off: nat) returns (out: Outcome, buf: seq<byte>)
    requires fs.Settled() && Regular(fs.bc.Logical(), l)
    modifies fs.bc, fs`pend, fs`busy
    ensures fs.Valid() && (out.Code? ==> fs.Settled())
    ensures out.Code? ==> Grown(old(fs.bc.Logical()), fs.bc.Logical(), l)
    ensures out.Code? && out.r >= 0 ==>
              && |buf| == out.r == ReadLength(FileAt(old(fs.bc.Logical()), l).size, count, off)
              && ReadsAs(Contents(fs.bc.Logical(), l), off, buf)
    ensures out.Code? && out.r >= 0 ==>
              var size := FileAt(old(fs.bc.Logical()), l).size;
              && (off >= size ==> out.r == 0)
              && (off < size && off + count <= size ==> out.r == count)
              && (off < size < off + count ==> out.r == size - off)
    ensures var n := ReadLength(FileAt(old(fs.bc.Logical()), l).size, count, off);
            && (n == 0 || off + n <= MAXFILESIZE ==> out == Panic || out == Code(n))
            && (|FreeSet(old(fs.bc.Logical()))| >= Chunks(off, n) + 1 ==> out != Panic)
            && (Covers(Contents(old(fs.bc.Logical()), l), off, n) ==> out != Panic)
  {
    hide State, Owns, Grown, IsFree, FileAt, IsFile, Regular, Contents, Bytes, Budget, FreeSet, At, Chunks, ReadsAs,
         Extends, Covers;
    ghost var mem0 := fs.bc.Logical();
    GrownRefl(mem0, l);
    buf := [];
    RegularIsFile(mem0, l);
    var f := fs.ReadFile(l);
    ReadsNothing(Contents(mem0, l), off);
    if off >= f.size {
      return Code(0), [];
    }
    var n := Min(count, f.size - off);
    var pos := off;
    ghost var steps := 0;
    BudgetStart(mem0, l);
    AtStart(off, n);
    GrownRegular(mem0, mem0, l);
    while pos < off + n
      invariant fs.Settled() && Grown(mem0, fs.bc.Logical(), l) && Regular(fs.bc.Logical(), l)
      invariant FileAt(fs.bc.Logical(), l).size == f.size
      invariant At(off, off + n, pos, steps) && |buf| == pos - off && off <= pos <= off + n
      invariant Budget(mem0, fs.bc.Logical(), l, steps)
      invariant ReadsAs(Contents(fs.bc.Logical(), l), off, buf)
      invariant Extends(Contents(mem0, l), Contents(fs.bc.Logical(), l))
    {
      ghost var mem := fs.bc.Logical();
      if Covers(Contents(mem0, l), off, n) {
        CoveredAt(Contents(mem0, l), Contents(mem, l), off, n, pos);
      }
      var chunk;
      out, chunk := ReadChunk(fs, l, mem0, off, off + n, pos, steps);
      if out != Code(0) {
        return;
      }
      ghost var mem1 := fs.bc.Logical();
      GrownTrans(mem0, mem, mem1, l);
      GrownRegular(mem, mem1, l);
      ReadsMore(Contents(mem, l), Contents(mem1, l), off, buf, chunk);
      ExtendsTrans(Contents(mem0, l), Contents(mem, l), Contents(mem1, l));
      buf := buf + chunk;
      pos, steps := pos + |chunk|, steps + 1;
    }
    out := Code(n);
  }

  const READ_MAX := 4096            // PGSIZE: serve_read answers with at most a page

  /** readn: reads of at most a page each, every one where the last has ended, until there is nothing more. */
  method ReadN(fs: FileSystem, l: Loc, n: nat, off: nat) returns (out: Outcome, buf: seq<byte>)
    requires fs.Settled() && Regular(fs.bc.Logical(), l)
    modifies fs.bc, fs`pend, fs`busy
    ensures fs.Valid() && (out.Code? ==> fs.Settled())
    ensures out.Code? ==> Grown(old(fs.bc.Logical()), fs.bc.Logical(), l)
    ensures out.Code? && out.r >= 0 ==>
              var size := FileAt(old(fs.bc.Logical()), l).size;
              && |buf| == out.r == (if off >= size then 0 else if off + n <= size then n else size - off)
              && ReadsAs(Contents(fs.bc.Logical(), l), off, buf)
    ensures FileAt(old(fs.bc.Logical()), l).size <= MAXFILESIZE ==> out == Panic || (out.Code? && out.r >= 0)
    ensures (forall p :: off <= p < off + n && p < FileAt(old(fs.bc.Logical()), l).size ==>
               p in Contents(old(fs.bc.Logical()), l)) ==> out != Panic
  {
    hide State, Owns, Grown, IsFree, FileAt, IsFile, Regular, Contents, FreeSet, Chunks, ReadsAs, Extends, Covers;
    ghost var mem0 := fs.bc.Logical();
    ghost var size := FileAt(mem0, l).size;
    GrownRefl(mem0, l);
    ReadsNothing(Contents(mem0, l), off);
    GrownRegular(mem0, mem0, l);
    buf := [];
    var more := true;
    while more && |buf| < n
      invariant fs.Settled() && Grown(mem0, fs.bc.Logical(), l) && Regular(fs.bc.Logical(), l)
      invariant FileAt(fs.bc.Logical(), l).size == size
      invariant |buf| <= n && (buf == [] || off + |buf| <= size) && (!more ==> |buf| == n || off + |buf| >= size)
      invariant ReadsAs(Contents(fs.bc.Logical(), l), off, buf)
      invariant Extends(Contents(mem0, l), Contents(fs.bc.Logical(), l))
      decreases more, n - |buf|
    {
      ghost var mem := fs.bc.Logical();
      var count := Min(n - |buf|, READ_MAX);
      CoversRest(Contents(mem0, l), Contents(mem, l), off, n, size, |buf|, ReadLength(size, count, off + |buf|));
      var chunk;
      out, chunk := FileRead(fs, l, count, off + |buf|);
      if !out.Code? {
        return;
      }
      GrownTrans(mem0, mem, fs.bc.Logical(), l);
      if out.r < 0 {
        return;
      }
      GrownRegular(mem, fs.bc.Logical(), l);
      ReadsMore(Contents(mem, l), Contents(fs.bc.Logical(), l), off, buf, chunk);
      ExtendsTrans(Contents(mem0, l), Contents(mem, l), Contents(fs.bc.Logical(), l));
      buf := buf + chunk;
      more := chunk != [];
    }
    out := Code(|buf|);
  }

  lemma CoversRest(m: map<nat, byte>, m': map<nat, byte>, off: nat, n: nat, size: nat, done: nat, k: nat)
    requires Extends(m, m') && done + k <= n && (k == 0 || off + done + k <= size)
    ensures (forall p :: off <= p < off + n && p < size ==> p in m) ==> Covers(m', off + done, k)
  {
  }
}
