/** fs/fs.c, file_write. */
module FsWrite {
  import opened FsTypes
  import opened FsOwn
  import opened FsCrash
  import opened FsContents
  import opened BlockCache
  import opened Fs
  import opened FsFiles
  import opened FsTruncate

  lemma WrittenMore(m: map<nat, byte>, m': map<nat, byte>, off: nat, data: seq<byte>)
    requires Extends(m, m')
    ensures Extends(Written(m, off, data), Written(m', off, data))
  {
  }

  lemma WrittenTwice(m: map<nat, byte>, off: nat, data: seq<byte>, more: seq<byte>)
    ensures Written(Written(m, off, data), off + |data|, more) == Written(m, off, data + more)
  {
    var a, b := Written(Written(m, off, data), off + |data|, more), Written(m, off, data + more);
    assert a.Keys == b.Keys by {
      forall p: nat ensures p in a <==> p in b {}
    }
  }

  /** The premises of storing a chunk of data. */
  lemma ChunkFacts(mem0: seq<Block>, mem: seq<Block>, l: Loc, b: nat, pos: nat, data: seq<byte>, steps: nat)
    requires OwnOk(mem, {}) && Regular(mem, l) && Owns(mem, Slot(l, pos / BLKSIZE), b) && pos / BLKSIZE < NSLOTS
    requires b < |mem| && !mem[b].Files? && !mem[b].Bits? && Budget(mem0, mem, l, steps)
    requires pos % BLKSIZE + |data| <= BLKSIZE && pos + |data| <= FileAt(mem, l).size
    ensures |Patch(Bytes(mem[b]), pos % BLKSIZE, data)| == BLKSIZE
    ensures var mem' := mem[b := Raw(Patch(Bytes(mem[b]), pos % BLKSIZE, data))];
            && OwnOk(mem', {}) && SameKinds(mem, mem') && Regular(mem', l) && Budget(mem0, mem', l, steps)
            && (forall s: Slot, x: nat :: Owns(mem, s, x) ==> Owns(mem', s, x))
            && (forall x: nat :: IsFree(mem', x) == IsFree(mem, x))
            && Contents(mem', l) == Written(Contents(mem, l), pos, data) && OthersSame(mem, mem', l)
            && FileAt(mem', l).size == FileAt(mem, l).size
  {
    hide OwnOk, Owns, IsFree, IsFile, FileAt, Val, Contents, Patch, Bytes, FreeSet;
    PatchLength(Bytes(mem[b]), pos % BLKSIZE, data);
    var page := Patch(Bytes(mem[b]), pos % BLKSIZE, data);
    var mem' := mem[b := Raw(page)];
    FillData(mem, {}, l, pos / BLKSIZE, b, page);
    FreeKept(mem, b, Raw(page));
    SameFree(mem, mem');
    ChunkContents(mem, {}, l, b, pos, data);
    forall k | 0 <= k < NSLOTS && 0 != Val(mem', l, k) < |mem'| ensures !mem'[Val(mem', l, k)].Files? {
      assert Val(mem', l, k) == Val(mem, l, k);
    }
    forall x | x != l ensures FileAt(mem', x).size == FileAt(mem, x).size && (Regular(mem, x) ==> Regular(mem', x)) {
      if Regular(mem, x) { SameRegular(mem, mem', x); }
    }
  }

  lemma SameRegular(mem: seq<Block>, mem': seq<Block>, x: Loc)
    requires Regular(mem, x) && |mem'| == |mem| && IsFile(mem', x) && forall k :: Val(mem', x, k) == Val(mem, x, k)
    requires forall b :: 0 <= b < |mem| ==> mem'[b].Files? == mem[b].Files?
    ensures Regular(mem', x)
  {
    hide Val;
  }

  /** memmove(blk + pos % BLKSIZE, buf, bn) */
  method StoreChunk(fs: FileSystem, l: Loc, ghost mem0: seq<Block>, blk: nat, pos: nat, data: seq<byte>,
                    ghost steps: nat)
    requires fs.Settled() && Regular(fs.bc.Logical(), l) && Owns(fs.bc.Logical(), Slot(l, pos / BLKSIZE), blk)
             && pos / BLKSIZE < NSLOTS
    requires 0 != blk < |fs.bc.Logical()| && !fs.bc.Logical()[blk].Files? && !IsFree(fs.bc.Logical(), blk)
    requires Budget(mem0, fs.bc.Logical(), l, steps)
    requires pos % BLKSIZE + |data| <= BLKSIZE && pos + |data| <= FileAt(fs.bc.Logical(), l).size
    modifies fs.bc, fs`pend, fs`busy
    ensures fs.Settled() && Regular(fs.bc.Logical(), l) && Budget(mem0, fs.bc.Logical(), l, steps)
    ensures Contents(fs.bc.Logical(), l) == Written(Contents(old(fs.bc.Logical()), l), pos, data)
    ensures OthersSame(old(fs.bc.Logical()), fs.bc.Logical(), l)
    ensures FileAt(fs.bc.Logical(), l).size == FileAt(old(fs.bc.Logical()), l).size
  {
    hide State, OwnOk, Owns, IsFree, FileAt, IsFile, Regular, Contents, Bytes, Budget, FreeSet, Patch, SameKinds,
         OthersSame, Written;
    ghost var mem1 := fs.bc.Logical();
    StateFacts(mem1, fs.bc.disk, fs.bc.images, fs.pend, fs.busy);
    NotBitmap(mem1, l, pos / BLKSIZE, blk);
    ChunkFacts(mem0, mem1, l, blk, pos, data, steps);
    var page := fs.Load(blk);
    fs.Store(blk, Raw(Patch(Bytes(page), pos % BLKSIZE, data)), {}, {});
  }

  lemma OthersTrans(mem: seq<Block>, mem1: seq<Block>, mem2: seq<Block>, l: Loc)
    requires OthersSame(mem, mem1, l) && OthersSame(mem1, mem2, l)
    ensures OthersSame(mem, mem2, l)
  {
  }

  lemma GrownOthers(mem: seq<Block>, mem1: seq<Block>, l: Loc)
    requires Grown(mem, mem1, l) && Regular(mem, l)
    ensures OthersSame(mem, mem1, l)
  {
    hide Contents;
    GrownRegular(mem, mem1, l);
    forall x | x != l && Regular(mem, x) ensures Regular(mem1, x) { RegularGrown(mem, mem1, l, x); }
  }

  /** One turn of the loop of file_write: the part of buf that goes into pos's block. */
  method WriteChunk(fs: FileSystem, l: Loc, ghost mem0: seq<Block>, ghost off: nat, pos: nat, rest: seq<byte>,
                    ghost steps: nat)
    returns (out: Outcome, bn: nat)
    requires fs.Settled() && Regular(fs.bc.Logical(), l) && pos + |rest| <= FileAt(fs.bc.Logical(), l).size
    requires rest != [] && At(off, pos + |rest|, pos, steps) && Budget(mem0, fs.bc.Logical(), l, steps)
    modifies fs.bc, fs`pend, fs`busy
    ensures fs.Valid() && (out.Code? ==> fs.Settled())
    ensures out == Code(0) || out == Panic || (out == Code(-E_INVAL) && pos + |rest| > MAXFILESIZE)
    ensures |FreeSet(mem0)| >= Chunks(off, pos + |rest| - off) + 1 || pos in Contents(old(fs.bc.Logical()), l) ==>
              out != Panic
    ensures out == Code(0) ==>
              && 0 < bn <= |rest| && At(off, pos + |rest|, pos + bn, steps + 1)
              && Regular(fs.bc.Logical(), l) && Budget(mem0, fs.bc.Logical(), l, steps + 1)
              && FileAt(fs.bc.Logical(), l).size == FileAt(old(fs.bc.Logical()), l).size
              && Extends(Written(Contents(old(fs.bc.Logical()), l), pos, rest[..bn]), Contents(fs.bc.Logical(), l))
              && OthersSame(old(fs.bc.Logical()), fs.bc.Logical(), l)
    ensures out == Code(-E_INVAL) ==> fs.bc.Logical() == old(fs.bc.Logical())
  {
    hide State, OwnOk, Owns, Grown, IsFree, FileAt, IsFile, Regular, Contents, Bytes, Budget, FreeSet, At, Chunks,
         Patch, SameKinds, Extends, OthersSame, Written;
    ghost var mem := fs.bc.Logical();
    var end := pos + |rest|;
    bn := 0;
    ChunkStep(off, end, pos, steps);
    var blk;
    out, blk := NextBlock(fs, l, mem0, off, end, pos, steps);
    if out == Code(0) {
      ghost var mem1 := fs.bc.Logical();
      bn := Min(BLKSIZE - pos % BLKSIZE, end - pos);
      GrownRegular(mem, mem1, l);
      GrownOthers(mem, mem1, l);
      StoreChunk(fs, l, mem0, blk, pos, rest[..bn], steps + 1);
      WrittenMore(Contents(mem, l), Contents(mem1, l), pos, rest[..bn]);
      OthersTrans(mem, mem1, fs.bc.Logical(), l);
    }
  }

  lemma NotBitmap(mem: seq<Block>, l: Loc, k: nat, b: nat)
    requires OwnOk(mem, {}) && Owns(mem, Slot(l, k), b) && b < |mem|
    ensures !mem[b].Bits?
  {
    hide Owns;
    assert !Reserved(|mem|, b);
  }

  function Max(a: nat, b: nat): (r: nat)
    ensures r >= a && r >= b && (r == a || r == b)
  {
    if a < b then b else a
  }

  lemma ResizedFacts(mem: seq<Block>, mem': seq<Block>, l: Loc, n: nat)
    requires Resized(mem, mem', l, n) && n >= FileAt(mem, l).size
    ensures FileAt(mem', l).size == n && Extends(Contents(mem, l), Contents(mem', l)) && OthersSame(mem, mem', l)
  {
  }

  lemma SameStart(mem: seq<Block>, l: Loc, off: nat)
    ensures OthersSame(mem, mem, l) && Extends(Contents(mem, l), Contents(mem, l))
    ensures Written(Contents(mem, l), off, []) == Contents(mem, l)
  {
  }

  /** The part of buf already in the file. */
  ghost predicate Progress(m0: map<nat, byte>, m: map<nat, byte>, off: nat, done: seq<byte>) {
    Extends(Written(m0, off, done), m)
  }

  lemma ProgressStep(m0: map<nat, byte>, m: map<nat, byte>, m': map<nat, byte>, off: nat, done: seq<byte>,
                     more: seq<byte>)
    requires Progress(m0, m, off, done) && Extends(Written(m, off + |done|, more), m')
    ensures Progress(m0, m', off, done + more)
  {
    hide Extends, Written;
    WrittenMore(Written(m0, off, done), m, off + |done|, more);
    WrittenTwice(m0, off, done, more);
    ExtendsTrans(Written(Written(m0, off, done), off + |done|, more), Written(m, off + |done|, more), m');
  }

  /** Positions to be written that have their block already keep it. */
  lemma ProgressCovers(m0: map<nat, byte>, m: map<nat, byte>, off: nat, done: seq<byte>, n: nat, pos: nat)
    requires Progress(m0, m, off, done) && Covers(m0, off, n) && off <= pos < off + n
    ensures pos in m
  {
  }

  /** file_write: the bytes are there, the bytes around them are as they were, no other file changes. */
  method FileWrite(fs: FileSystem, l: Loc, buf: seq<byte>, off: nat) returns (out: Outcome)
    requires fs.Settled() && Regular(fs.bc.Logical(), l)
    modifies fs.bc, fs`pend, fs`busy
    ensures fs.Valid() && (out.Code? ==> fs.Settled() && Regular(fs.bc.Logical(), l))
    ensures out.Code? && out.r >= 0 ==>
              && out.r == |buf|
              && FileAt(fs.bc.Logical(), l).size == Max(FileAt(old(fs.bc.Logical()), l).size, off + |buf|)
              && Extends(Written(Contents(old(fs.bc.Logical()), l), off, buf), Contents(fs.bc.Logical(), l))
    ensures out.Code? && out.r >= 0 ==>
              Replaced(Contents(old(fs.bc.Logical()), l), off, buf, Contents(fs.bc.Logical(), l))
    ensures out.Code? ==> OthersSame(old(fs.bc.Logical()), fs.bc.Logical(), l)
    ensures buf == [] || off + |buf| <= MAXFILESIZE ==> out == Panic || out == Code(|buf|)
    ensures |FreeSet(old(fs.bc.Logical()))| >= Chunks(off, |buf|) + 1 ==> out != Panic
    ensures Covers(Contents(old(fs.bc.Logical()), l), off, |buf|) ==> out != Panic
  {
    hide State, OwnOk, Owns, IsFree, FileAt, IsFile, Regular, Contents, Budget, FreeSet, At, Chunks, Extends,
         OthersSame, Written, Resized, Progress, Covers, Replaced;
    ghost var mem0 := fs.bc.Logical();
    RegularIsFile(mem0, l);
    SameStart(mem0, l, off);
    ProgressNone(Contents(mem0, l), Contents(mem0, l), off);
    var f := fs.ReadFile(l);
    if off + |buf| > f.size {
      SetSize(fs, l, off + |buf|);
      ResizedFacts(mem0, fs.bc.Logical(), l, off + |buf|);
      ProgressNone(Contents(mem0, l), Contents(fs.bc.Logical(), l), off);
    }
    out := WriteAll(fs, l, buf, off, mem0);
    WrittenReplaces(Contents(mem0, l), off, buf, Contents(fs.bc.Logical(), l));
  }

  /** The buffer stands at off, and every other byte there was is as it was. */
  ghost predicate Replaced(m: map<nat, byte>, off: nat, buf: seq<byte>, m': map<nat, byte>) {
    && (forall i :: 0 <= i < |buf| ==> off + i in m' && m'[off + i] == buf[i])
    && forall p :: p in m && !(off <= p < off + |buf|) ==> p in m' && m'[p] == m[p]
  }

  lemma WrittenReplaces(m: map<nat, byte>, off: nat, buf: seq<byte>, m': map<nat, byte>)
    ensures Extends(Written(m, off, buf), m') ==> Replaced(m, off, buf, m')
  {
    if Extends(Written(m, off, buf), m') {
      forall i | 0 <= i < |buf| ensures off + i in m' && m'[off + i] == buf[i] {
        assert off + i in Written(m, off, buf);
      }
    }
  }

  lemma ProgressNone(m0: map<nat, byte>, m: map<nat, byte>, off: nat)
    requires Extends(m0, m)
    ensures Progress(m0, m, off, [])
  {
  }

  /** The loop of file_write. */
  method WriteAll(fs: FileSystem, l: Loc, buf: seq<byte>, off: nat, ghost mem0: seq<Block>) returns (out: Outcome)
    requires fs.Settled() && Regular(fs.bc.Logical(), l) && off + |buf| <= FileAt(fs.bc.Logical(), l).size
    requires Progress(Contents(mem0, l), Contents(fs.bc.Logical(), l), off, []) && OthersSame(mem0, fs.bc.Logical(), l)
    modifies fs.bc, fs`pend, fs`busy
    ensures fs.Valid() && (out.Code? ==> fs.Settled() && Regular(fs.bc.Logical(), l))
    ensures out.Code? && out.r >= 0 ==>
              && out.r == |buf| && FileAt(fs.bc.Logical(), l).size == FileAt(old(fs.bc.Logical()), l).size
              && Extends(Written(Contents(mem0, l), off, buf), Contents(fs.bc.Logical(), l))
    ensures out.Code? ==> OthersSame(mem0, fs.bc.Logical(), l)
    ensures buf == [] || off + |buf| <= MAXFILESIZE ==> out == Panic || out == Code(|buf|)
    ensures |FreeSet(old(fs.bc.Logical()))| >= Chunks(off, |buf|) + 1 || Covers(Contents(mem0, l), off, |buf|) ==>
              out != Panic
  {
    hide State, OwnOk, Owns, IsFree, FileAt, IsFile, Regular, Contents, Budget, FreeSet, At, Chunks, Extends,
         OthersSame, Written, Progress, Covers;
    ghost var mem1 := fs.bc.Logical();
    var pos := off;
    ghost var steps := 0;
    BudgetStart(mem1, l);
    AtStart(off, |buf|);
    assert buf[..0] == [];
    while pos < off + |buf|
      invariant off <= pos <= off + |buf| && At(off, off + |buf|, pos, steps)
      invariant fs.Settled() && Regular(fs.bc.Logical(), l) && FileAt(fs.bc.Logical(), l).size == FileAt(mem1, l).size
      invariant Budget(mem1, fs.bc.Logical(), l, steps)
      invariant Progress(Contents(mem0, l), Contents(fs.bc.Logical(), l), off, buf[..pos - off])
      invariant OthersSame(mem0, fs.bc.Logical(), l)
    {
      ghost var mem := fs.bc.Logical();
      if Covers(Contents(mem0, l), off, |buf|) {
        ProgressCovers(Contents(mem0, l), Contents(mem, l), off, buf[..pos - off], |buf|, pos);
      }
      var bn;
      out, bn := WriteChunk(fs, l, mem1, off, pos, buf[pos - off..], steps);
      if out != Code(0) {
        return;
      }
      ProgressStep(Contents(mem0, l), Contents(mem, l), Contents(fs.bc.Logical(), l), off, buf[..pos - off],
          buf[pos - off..][..bn]);
      assert buf[..pos - off] + buf[pos - off..][..bn] == buf[..pos + bn - off];
      OthersTrans(mem0, mem, fs.bc.Logical(), l);
      pos, steps := pos + bn, steps + 1;
    }
    assert buf[..pos - off] == buf;
    ProgressDone(Contents(mem0, l), Contents(fs.bc.Logical(), l), off, buf);
    out := Code(|buf|);
  }

  lemma ProgressDone(m0: map<nat, byte>, m: map<nat, byte>, off: nat, buf: seq<byte>)
    requires Progress(m0, m, off, buf)
    ensures Extends(Written(m0, off, buf), m)
  {
  }

  /** Reading back what was written, wherever it went and whatever lay there before. */
  method WriteThenRead(fs: FileSystem, l: Loc, buf: seq<byte>, off: nat) returns (out: Outcome, got: seq<byte>)
    requires fs.Settled() && Regular(fs.bc.Logical(), l) && off + |buf| <= MAXFILESIZE
    modifies fs.bc, fs`pend, fs`busy
    ensures out == Panic || (out == Code(|buf|) && got == buf)
    ensures |FreeSet(old(fs.bc.Logical()))| >= Chunks(off, |buf|) + 1 ==> out != Panic
  {
    hide State, OwnOk, Owns, IsFree, FileAt, IsFile, Regular, Contents, FreeSet, Chunks, Extends, OthersSame, Written,
         Covers, Grown, ReadsAs;
    got := [];
    ghost var mem0 := fs.bc.Logical();
    out := FileWrite(fs, l, buf, off);
    if out == Panic {
      return;
    }
    ghost var mem1 := fs.bc.Logical();
    assert Covers(Contents(mem1, l), off, |buf|) by { WrittenCovers(Contents(mem0, l), Contents(mem1, l), off, buf); }
    out, got := FileRead(fs, l, |buf|, off);
    GrownRegular(mem1, fs.bc.Logical(), l);
    ReadsBack(Contents(mem0, l), Contents(mem1, l), Contents(fs.bc.Logical(), l), off, buf, got);
  }

  lemma WrittenCovers(m0: map<nat, byte>, m: map<nat, byte>, off: nat, buf: seq<byte>)
    requires Extends(Written(m0, off, buf), m)
    ensures Covers(m, off, |buf|)
  {
  }

  lemma ReadsBack(m0: map<nat, byte>, m1: map<nat, byte>, m2: map<nat, byte>, off: nat, buf: seq<byte>, got: seq<byte>)
    requires Extends(Written(m0, off, buf), m1) && Extends(m1, m2) && ReadsAs(m2, off, got) && |got| == |buf|
    ensures got == buf
  {
    forall i | 0 <= i < |buf| ensures got[i] == buf[i] {
      assert off + i in Written(m0, off, buf);
    }
  }
}
