/** fs/fs.c, file_truncate_blocks and file_set_size. */
module FsTruncate {
  import opened FsTypes
  import opened FsOwn
  import opened FsCrash
  import opened FsContents
  import opened BlockCache
  import opened Fs

  /** Slots of l from lo on may have been cleared; nothing else has changed. */
  ghost predicate Pruned(mem: seq<Block>, mem': seq<Block>, l: Loc, lo: nat) {
    && |mem'| == |mem|
    && (forall x :: IsFile(mem', x) == IsFile(mem, x) && FileAt(mem', x).size == FileAt(mem, x).size)
    && (forall s: Slot, b: nat :: Owns(mem', s, b) ==> Owns(mem, s, b))
    && (forall s: Slot, b: nat :: Owns(mem, s, b) && !(s.loc == l && s.k >= lo) ==> Owns(mem', s, b))
    && (forall s: Slot, b: nat :: Owns(mem', s, b) && s.k < NSLOTS && b < |mem| && !mem[b].Files? ==> mem'[b] == mem[b])
    && (forall b :: 0 <= b < |mem| ==> (mem'[b].Files? <==> mem[b].Files?))
    && (forall b: nat :: IsFree(mem, b) ==> IsFree(mem', b))
  }

  lemma PrunedTrans(mem: seq<Block>, mem1: seq<Block>, mem2: seq<Block>, l: Loc, lo: nat, lo1: nat)
    requires Pruned(mem, mem1, l, lo) && Pruned(mem1, mem2, l, lo1) && lo <= lo1
    ensures Pruned(mem, mem2, l, lo)
  {
    hide Owns, IsFile, FileAt, IsFree;
  }

  lemma PrunedRefl(mem: seq<Block>, l: Loc, lo: nat)
    ensures Pruned(mem, mem, l, lo)
  {
  }

  lemma PrunedRegular(mem: seq<Block>, mem': seq<Block>, l: Loc, lo: nat, x: Loc)
    requires Pruned(mem, mem', l, lo) && Regular(mem, x)
    ensures Regular(mem', x)
  {
    hide IsFree, FileAt;
    forall k | 0 <= k < NSLOTS && 0 != Val(mem', x, k) < |mem'| ensures !mem'[Val(mem', x, k)].Files? {
      assert Owns(mem', Slot(x, k), Val(mem', x, k));
    }
  }

  lemma PrunedFile(mem: seq<Block>, mem': seq<Block>, l: Loc, lo: nat)
    requires Pruned(mem, mem', l, lo)
    ensures IsFile(mem', l) == IsFile(mem, l) && FileAt(mem', l).size == FileAt(mem, l).size && |mem'| == |mem|
    ensures Regular(mem, l) ==> Regular(mem', l)
  {
    if Regular(mem, l) {
      PrunedRegular(mem, mem', l, lo, l);
    }
  }

  lemma RenamedPruned(mem: seq<Block>, mem': seq<Block>, l: Loc, k: nat, b: nat)
    requires Renamed(mem, mem', Slot(l, k), 0)
    requires |mem'| == |mem| && forall x ::
               IsFile(mem', x) == IsFile(mem, x) && FileAt(mem', x).size == FileAt(mem, x).size
    requires forall x :: 0 <= x < |mem| ==> (mem'[x].Files? <==> mem[x].Files?)
    requires forall s: Slot, x: nat :: Owns(mem, s, x) && s.k < NSLOTS && x < |mem| && !mem[x].Files? ==>
               mem'[x] == mem[x]
    requires forall x: nat :: IsFree(mem', x) == (x == b || IsFree(mem, x))
    ensures Pruned(mem, mem', l, k)
    ensures forall s: Slot, x: nat :: s.loc != l && Owns(mem, s, x) ==> Owns(mem', s, x)
  {
    hide Owns, IsFile, FileAt, IsFree;
  }

  /** *ptr = 0 after free_block(*ptr) */
  lemma ReleaseFacts(mem: seq<Block>, pend: Pending, l: Loc, k: nat)
    requires OwnOk(mem, pend) && Storable(mem, l, k) && Val(mem, l, k) != 0
    requires Val(mem, l, k) < |mem| && !mem[Val(mem, l, k)].Files?
    ensures 2 + Val(mem, l, k) / BLKBITSIZE < |mem| && mem[2 + Val(mem, l, k) / BLKBITSIZE].Bits?
    ensures Storable(PutBit(mem, Val(mem, l, k), true), l, k)
    ensures var mem2 := PutSlot(PutBit(mem, Val(mem, l, k), true), l, k, 0);
            && OwnOk(mem2, pend) && SameKinds(mem, mem2) && Val(mem2, l, k) == 0
            && Pruned(mem, mem2, l, k) && forall s: Slot, x: nat :: s.loc != l && Owns(mem, s, x) ==> Owns(mem2, s, x)
  {
    var b := Val(mem, l, k);
    ReleaseSlot(mem, pend, l, k);
    PutBitIs(mem, b, true);
    TouchedBlocks(mem, pend, l, k);
    var mem1 := PutBit(mem, b, true);
    BitExclusive(mem, mem1);
    PutSlotRenames(mem1, l, k, 0);
    PutSlotVal(mem1, l, k, 0, l, k);
    ReleaseKinds(mem, b, l, k);
    hide Owns, IsFree, OwnOk, PutBit, PutSlot, SameKinds, Val, FileAt, IsFile;
    RenamedPruned(mem, PutSlot(mem1, l, k, 0), l, k, b);
  }

  lemma ReleaseKinds(mem: seq<Block>, b: nat, l: Loc, k: nat)
    requires Storable(mem, l, k) && 2 + b / BLKBITSIZE < |mem| && mem[2 + b / BLKBITSIZE].Bits?
    requires Storable(PutBit(mem, b, true), l, k)
    ensures SameKinds(mem, PutSlot(PutBit(mem, b, true), l, k, 0))
  {
  }

  /** Neither the bitmap nor the block with the slot holds file data. */
  lemma TouchedBlocks(mem: seq<Block>, pend: Pending, l: Loc, k: nat)
    requires OwnOk(mem, pend) && Storable(mem, l, k) && Val(mem, l, k) != 0 && Val(mem, l, k) < |mem|
    requires 2 + Val(mem, l, k) / BLKBITSIZE < |mem| && mem[2 + Val(mem, l, k) / BLKBITSIZE].Bits?
    requires Storable(PutBit(mem, Val(mem, l, k), true), l, k)
    ensures var mem2 := PutSlot(PutBit(mem, Val(mem, l, k), true), l, k, 0);
            |mem2| == |mem| && forall s: Slot, x: nat ::
                Owns(mem, s, x) && s.k < NSLOTS && x < |mem| && !mem[x].Files? ==> mem2[x] == mem[x]
  {
    var b := Val(mem, l, k);
    PutBitIs(mem, b, true);
    if k >= NDIRECT {
      assert Owns(mem, Slot(l, NSLOTS), FileAt(mem, l).indirect);
    }
    forall s: Slot, x: nat | Owns(mem, s, x) && s.k < NSLOTS && x < |mem| && !mem[x].Files?
      ensures PutSlot(PutBit(mem, b, true), l, k, 0)[x] == mem[x]
    {
      assert !Reserved(|mem|, x);
    }
  }

  /** f->f_indirect = 0 after free_block(f->f_indirect), once every entry of the indirect block is zero */
  lemma IndexReleaseFacts(mem: seq<Block>, pend: Pending, l: Loc)
    requires OwnOk(mem, pend) && IsFile(mem, l) && FileAt(mem, l).indirect != 0
    requires forall k :: NDIRECT <= k < NSLOTS ==> Val(mem, l, k) == 0
    ensures 2 + FileAt(mem, l).indirect / BLKBITSIZE < |mem| && mem[2 + FileAt(mem, l).indirect / BLKBITSIZE].Bits?
    ensures FileAt(mem, l).indirect < |mem|
    ensures IsFile(PutBit(mem, FileAt(mem, l).indirect, true), l)
    ensures var mem2 := PutFile(PutBit(mem, FileAt(mem, l).indirect, true), l, FileAt(mem, l).(indirect := 0));
            && OwnOk(mem2, pend) && SameKinds(mem, mem2)
            && Pruned(mem, mem2, l, NSLOTS)
            && (forall s: Slot, x: nat :: s.loc != l && Owns(mem, s, x) ==> Owns(mem2, s, x))
            && (forall k: nat :: k < NSLOTS ==> Val(mem2, l, k) == Val(mem, l, k))
            && FileAt(mem2, l).indirect == 0
  {
    var b := FileAt(mem, l).indirect;
    ReleaseIndirect(mem, pend, l);
    PutBitIs(mem, b, true);
    var mem1 := PutBit(mem, b, true);
    BitExclusive(mem, mem1);
    var mem2 := PutFile(mem1, l, FileAt(mem, l).(indirect := 0));
    PutIndirect(mem1, l, 0);
    PutFileFiles(mem1, l, FileAt(mem, l).(indirect := 0));
    IndexTouched(mem, pend, l);
    IndexKinds(mem, b, l);
    hide Owns, IsFree, OwnOk, PutBit, PutFile, SameKinds, Val, FileAt, IsFile;
    RenamedPruned(mem, mem2, l, NSLOTS, b);
  }

  lemma IndexKinds(mem: seq<Block>, b: nat, l: Loc)
    requires IsFile(mem, l) && 2 + b / BLKBITSIZE < |mem| && mem[2 + b / BLKBITSIZE].Bits?
    requires IsFile(PutBit(mem, b, true), l)
    ensures SameKinds(mem, PutFile(PutBit(mem, b, true), l, FileAt(mem, l).(indirect := 0)))
  {
  }

  lemma IndexTouched(mem: seq<Block>, pend: Pending, l: Loc)
    requires OwnOk(mem, pend) && IsFile(mem, l) && FileAt(mem, l).indirect < |mem|
    requires 2 + FileAt(mem, l).indirect / BLKBITSIZE < |mem| && mem[2 + FileAt(mem, l).indirect / BLKBITSIZE].Bits?
    requires IsFile(PutBit(mem, FileAt(mem, l).indirect, true), l)
    ensures var mem2 := PutFile(PutBit(mem, FileAt(mem, l).indirect, true), l, FileAt(mem, l).(indirect := 0));
            |mem2| == |mem| && forall s: Slot, x: nat ::
                Owns(mem, s, x) && s.k < NSLOTS && x < |mem| && !mem[x].Files? ==> mem2[x] == mem[x]
  {
    var b := FileAt(mem, l).indirect;
    PutBitIs(mem, b, true);
    forall s: Slot, x: nat | Owns(mem, s, x) && s.k < NSLOTS && x < |mem| && !mem[x].Files?
      ensures PutFile(PutBit(mem, b, true), l, FileAt(mem, l).(indirect := 0))[x] == mem[x]
    {
      assert !Reserved(|mem|, x);
    }
  }

  // ---------------------------------------------------------------- the operations

  /** free_block: one bit in memory.  Until the slot is cleared the block is both free and named. */
  method FreeBlock(fs: FileSystem, b: nat)
    requires fs.Valid() && 0 != b < |fs.bc.Logical()| && 2 + b / BLKBITSIZE < |fs.bc.Logical()|
             && fs.bc.Logical()[2 + b / BLKBITSIZE].Bits?
    modifies fs.bc`pages
    ensures fs.bc.Valid() && fs.bc.Logical() == PutBit(old(fs.bc.Logical()), b, true)
  {
    hide State, PutBit;
    var x := 2 + b / BLKBITSIZE;
    var word := fs.bc.Load(x);
    fs.bc.Store(x, Bits(word.free[b % BLKBITSIZE := true]));
    assert fs.bc.Logical() == PutBit(old(fs.bc.Logical()), b, true) by { BitStored(old(fs.bc.Logical()), b); }
  }

  lemma BitStored(mem: seq<Block>, b: nat)
    requires 2 + b / BLKBITSIZE < |mem| && mem[2 + b / BLKBITSIZE].Bits?
    ensures PutBit(mem, b, true) == mem[2 + b / BLKBITSIZE :=
            Bits(mem[2 + b / BLKBITSIZE].free[b % BLKBITSIZE := true])]
  {
  }

  /** *ptr = 0 */
  method ClearSlot(bc: Cache, l: Loc, k: nat)
    requires bc.Valid() && Storable(bc.Logical(), l, k)
    modifies bc`pages
    ensures bc.Valid() && Storable(old(bc.Logical()), l, k) && bc.Logical() == PutSlot(old(bc.Logical()), l, k, 0)
  {
    var c := bc.Load(l.blk);
    if k < NDIRECT {
      bc.Store(l.blk, Files(c.files[l.idx := c.files[l.idx].(direct := c.files[l.idx].direct[k := 0])]));
    } else {
      var w := bc.Load(c.files[l.idx].indirect);
      bc.Store(c.files[l.idx].indirect, Words(w.ptrs[k - NDIRECT := 0]));
    }
  }

  /** f->f_indirect = 0 */
  method ClearIndirect(bc: Cache, l: Loc)
    requires bc.Valid() && IsFile(bc.Logical(), l)
    modifies bc`pages
    ensures bc.Valid() && IsFile(old(bc.Logical()), l)
    ensures bc.Logical() == PutFile(old(bc.Logical()), l, FileAt(old(bc.Logical()), l).(indirect := 0))
  {
    var c := bc.Load(l.blk);
    bc.Store(l.blk, Files(c.files[l.idx := c.files[l.idx].(indirect := 0)]));
  }

  /** The two stores of file_free_block. */
  method FreeSlot(fs: FileSystem, l: Loc, k: nat, b: nat)
    requires fs.Valid() && fs.pend == {} && Storable(fs.bc.Logical(), l, k) && b == Val(fs.bc.Logical(), l, k)
    requires 0 != b < |fs.bc.Logical()| && !fs.bc.Logical()[b].Files?
    modifies fs.bc`pages, fs`busy
    ensures fs.Valid() && fs.busy == old(fs.busy) + {l}
    ensures Pruned(old(fs.bc.Logical()), fs.bc.Logical(), l, k) && Val(fs.bc.Logical(), l, k) == 0
  {
    hide State, OwnOk, Owns, Val, IsFree, SameKinds, Pruned, PutBit, Behind, PutSlot, PutFile, Storable, IsFile, FileAt;
    ghost var mem := fs.bc.Logical();
    StateFacts(mem, fs.bc.disk, fs.bc.images, fs.pend, fs.busy);
    ReleaseFacts(mem, {}, l, k);
    ReleaseStates(mem, fs.bc.disk, fs.bc.images, fs.busy, l, k);
    FreeBlock(fs, b);
    ClearSlot(fs.bc, l, k);
    fs.busy := fs.busy + {l};
  }

  lemma ReleaseStates(mem: seq<Block>, disk: seq<Block>, images: seq<seq<Block>>, busy: set<Loc>, l: Loc, k: nat)
    requires State(mem, disk, images, {}, busy) && Storable(mem, l, k) && Val(mem, l, k) != 0
    requires Val(mem, l, k) < |mem| && !mem[Val(mem, l, k)].Files?
    ensures 2 + Val(mem, l, k) / BLKBITSIZE < |mem| && mem[2 + Val(mem, l, k) / BLKBITSIZE].Bits?
    ensures Storable(PutBit(mem, Val(mem, l, k), true), l, k)
    ensures State(PutSlot(PutBit(mem, Val(mem, l, k), true), l, k, 0), disk, images, {}, busy + {l})
  {
    hide OwnOk, Owns, Val, IsFree, SameKinds, Behind, CrashSafe, PutBit, PutSlot, Storable, IsFile, FileAt;
    ReleaseFacts(mem, {}, l, k);
    StoreState(mem, PutSlot(PutBit(mem, Val(mem, l, k), true), l, k, 0), disk, images, {}, {}, busy, busy + {l});
  }

  /** The last step of file_truncate_blocks. */
  method DropIndex(fs: FileSystem, l: Loc, b: nat)
    requires fs.Valid() && fs.pend == {} && IsFile(fs.bc.Logical(), l) && b == FileAt(fs.bc.Logical(), l).indirect != 0
    requires forall k :: NDIRECT <= k < NSLOTS ==> Val(fs.bc.Logical(), l, k) == 0
    modifies fs.bc`pages, fs`busy
    ensures fs.Valid() && fs.busy == old(fs.busy) + {l}
    ensures Pruned(old(fs.bc.Logical()), fs.bc.Logical(), l, NSLOTS) && FileAt(fs.bc.Logical(), l).indirect == 0
    ensures forall k: nat :: k < NSLOTS ==> Val(fs.bc.Logical(), l, k) == Val(old(fs.bc.Logical()), l, k)
  {
    hide State, OwnOk, Owns, Val, IsFree, SameKinds, Pruned, PutBit, Behind, PutSlot, PutFile, Storable, IsFile, FileAt;
    ghost var mem := fs.bc.Logical();
    StateFacts(mem, fs.bc.disk, fs.bc.images, fs.pend, fs.busy);
    IndexReleaseFacts(mem, {}, l);
    IndexStates(mem, fs.bc.disk, fs.bc.images, fs.busy, l);
    FreeBlock(fs, b);
    ClearIndirect(fs.bc, l);
    fs.busy := fs.busy + {l};
  }

  lemma IndexStates(mem: seq<Block>, disk: seq<Block>, images: seq<seq<Block>>, busy: set<Loc>, l: Loc)
    requires State(mem, disk, images, {}, busy) && IsFile(mem, l) && FileAt(mem, l).indirect != 0
    requires forall k :: NDIRECT <= k < NSLOTS ==> Val(mem, l, k) == 0
    ensures 2 + FileAt(mem, l).indirect / BLKBITSIZE < |mem| && mem[2 + FileAt(mem, l).indirect / BLKBITSIZE].Bits?
    ensures IsFile(PutBit(mem, FileAt(mem, l).indirect, true), l)
            && FileAt(PutBit(mem, FileAt(mem, l).indirect, true), l) == FileAt(mem, l)
    ensures State(PutFile(PutBit(mem, FileAt(mem, l).indirect, true), l, FileAt(mem, l).(indirect := 0)), disk, images,
            {}, busy + {l})
  {
    ReleaseIndirect(mem, {}, l);
    hide OwnOk, Owns, Val, IsFree, SameKinds, Behind, CrashSafe, PutBit, PutFile, IsFile, FileAt;
    IndexReleaseFacts(mem, {}, l);
    StoreState(mem, PutFile(PutBit(mem, FileAt(mem, l).indirect, true), l, FileAt(mem, l).(indirect := 0)), disk,
        images, {}, {}, busy, busy + {l});
  }

  /** Slots lo..hi of l are zero. */
  ghost predicate ClearFrom(mem: seq<Block>, l: Loc, lo: nat, hi: nat) {
    forall k: nat :: lo <= k < hi && k < NSLOTS ==> Val(mem, l, k) == 0
  }

  lemma ClearNext(mem: seq<Block>, mem1: seq<Block>, l: Loc, lo: nat, k: nat)
    requires ClearFrom(mem, l, lo, k) && Pruned(mem, mem1, l, k) && IsFile(mem, l)
    requires k < NSLOTS ==> Val(mem1, l, k) == 0
    ensures ClearFrom(mem1, l, lo, k + 1)
  {
    hide IsFree, FileAt;
    forall i: nat | lo <= i < k && i < NSLOTS ensures Val(mem1, l, i) == 0 {
      assert Val(mem1, l, i) == 0 || Owns(mem1, Slot(l, i), Val(mem1, l, i));
    }
  }

  lemma NoIndexNoEntry(mem: seq<Block>, l: Loc, k: nat)
    requires IndexCost(mem, l, k) != 0
    ensures Val(mem, l, k) == 0
  {
  }

  /** The slots past the old end were zero before, so after the loop all slots past the new end are. */
  lemma ClearToEnd(mem0: seq<Block>, pend: Pending, mem: seq<Block>, l: Loc, lo: nat)
    requires OwnOk(mem0, pend) && IsFile(mem0, l) && Pruned(mem0, mem, l, lo)
    requires ClearFrom(mem, l, lo, NBlocks(FileAt(mem0, l).size))
    ensures ClearFrom(mem, l, lo, NSLOTS)
  {
    hide IsFree, FileAt;
    forall i: nat | lo <= i < NSLOTS ensures Val(mem, l, i) == 0 {
      assert Val(mem, l, i) == 0 || Owns(mem, Slot(l, i), Val(mem, l, i));
    }
  }

  lemma RegularVal(mem: seq<Block>, pend: Pending, l: Loc, k: nat)
    requires OwnOk(mem, pend) && Regular(mem, l) && k < NSLOTS && Val(mem, l, k) != 0
    ensures Val(mem, l, k) < |mem| && !mem[Val(mem, l, k)].Files?
  {
    hide Exclusive, IndexTyped, Trimmed, Layout, Val;
    assert Owns(mem, Slot(l, k), Val(mem, l, k));
  }

  /** file_free_block: silently succeeds when there is no block. */
  method FileFreeBlock(fs: FileSystem, l: Loc, k: nat) returns (out: Outcome)
    requires fs.Valid() && fs.pend == {} && Regular(fs.bc.Logical(), l)
    modifies fs.bc, fs`pend, fs`busy
    ensures fs.Valid() && fs.pend == {} && fs.busy <= old(fs.busy) + {l}
    ensures fs.bc.disk == old(fs.bc.disk) && fs.bc.images == old(fs.bc.images)
    ensures out == if k >= NSLOTS then Code(-E_INVAL)
                   else if IndexCost(old(fs.bc.Logical()), l, k) == 0 then Code(0) else Code(-E_NOT_FOUND)
    ensures Pruned(old(fs.bc.Logical()), fs.bc.Logical(), l, k)
    ensures k < NSLOTS ==> Val(fs.bc.Logical(), l, k) == 0
  {
    hide State, OwnOk, Owns, Val, IsFree, Pruned, Regular, IsFile, FileAt, Storable, IndexCost, Grown;
    ghost var mem := fs.bc.Logical();
    assert IsFile(mem, l) by { RegularFile(mem, l); }
    PrunedRefl(mem, l, k);
    StateFacts(mem, fs.bc.disk, fs.bc.images, fs.pend, fs.busy);
    out := fs.BlockWalk(l, k, false);
    if out != Code(0) {
      if k < NSLOTS {
        NoIndexNoEntry(mem, l, k);
      }
      return;
    }
    var b := fs.ReadSlot(l, k);
    if b != 0 {
      RegularVal(mem, {}, l, k);
      FreeSlot(fs, l, k, b);
    }
  }

  lemma RegularFile(mem: seq<Block>, l: Loc)
    requires Regular(mem, l)
    ensures IsFile(mem, l)
  {
  }

  lemma ClearNothing(mem: seq<Block>, l: Loc, lo: nat)
    ensures ClearFrom(mem, l, lo, lo)
  {
  }

  lemma ClearMore(mem: seq<Block>, l: Loc, lo: nat, hi: nat, hi': nat)
    requires ClearFrom(mem, l, lo, hi) && hi' <= hi
    ensures ClearFrom(mem, l, lo, hi')
  {
  }

  lemma ClearEntries(mem: seq<Block>, l: Loc, lo: nat)
    requires ClearFrom(mem, l, lo, NSLOTS) && lo <= NDIRECT
    ensures forall k :: NDIRECT <= k < NSLOTS ==> Val(mem, l, k) == 0
  {
  }

  lemma ClearSame(mem: seq<Block>, mem1: seq<Block>, l: Loc, lo: nat)
    requires ClearFrom(mem, l, lo, NSLOTS) && forall k: nat :: k < NSLOTS ==> Val(mem1, l, k) == Val(mem, l, k)
    ensures ClearFrom(mem1, l, lo, NSLOTS)
  {
  }

  /** file_truncate_blocks: everything from the new end on is cleared, nothing else is. */
  method TruncateBlocks(fs: FileSystem, l: Loc, newsize: nat)
    requires fs.Settled() && Regular(fs.bc.Logical(), l)
    modifies fs.bc, fs`pend, fs`busy
    ensures fs.Valid() && fs.pend == {} && fs.busy <= {l}
    ensures Pruned(old(fs.bc.Logical()), fs.bc.Logical(), l, NBlocks(newsize))
    ensures ClearFrom(fs.bc.Logical(), l, NBlocks(newsize), NSLOTS)
    ensures NBlocks(newsize) <= NDIRECT ==> FileAt(fs.bc.Logical(), l).indirect == 0
  {
    hide State, OwnOk, Owns, Val, IsFree, Pruned, Regular, IsFile, FileAt, ClearFrom;
    ghost var mem0 := fs.bc.Logical();
    RegularFile(mem0, l);
    StateFacts(mem0, fs.bc.disk, fs.bc.images, fs.pend, fs.busy);
    var f := fs.ReadFile(l);
    var oldBlocks, newBlocks := NBlocks(f.size), NBlocks(newsize);
    var bno := newBlocks;
    PrunedRefl(mem0, l, newBlocks);
    assert ClearFrom(mem0, l, newBlocks, bno) by { ClearNothing(mem0, l, newBlocks); }
    while bno < oldBlocks
      invariant newBlocks <= bno
      invariant fs.Valid() && fs.pend == {} && fs.busy <= {l}
      invariant Pruned(mem0, fs.bc.Logical(), l, newBlocks)
      invariant ClearFrom(fs.bc.Logical(), l, newBlocks, bno)
      invariant bno > newBlocks ==> bno <= oldBlocks
    {
      ghost var mem := fs.bc.Logical();
      PrunedFile(mem0, mem, l, newBlocks);
      var out := FileFreeBlock(fs, l, bno);
      PrunedTrans(mem0, mem, fs.bc.Logical(), l, newBlocks, bno);
      ClearNext(mem, fs.bc.Logical(), l, newBlocks, bno);
      bno := bno + 1;
    }
    ghost var mem := fs.bc.Logical();
    PrunedFile(mem0, mem, l, newBlocks);
    ClearMore(mem, l, newBlocks, bno, oldBlocks);
    ClearToEnd(mem0, {}, mem, l, newBlocks);
    f := fs.ReadFile(l);
    if newBlocks <= NDIRECT && f.indirect != 0 {
      ClearEntries(mem, l, newBlocks);
      DropIndex(fs, l, f.indirect);
      PrunedTrans(mem0, mem, fs.bc.Logical(), l, newBlocks, NSLOTS);
      ClearSame(mem, fs.bc.Logical(), l, newBlocks);
    }
  }

  // ---------------------------------------------------------------- the size

  ghost function Shorter(m: map<nat, byte>, n: nat): (r: map<nat, byte>)
    ensures forall p :: p in r <==> p in m && p < n
    ensures forall p :: p in r ==> r[p] == m[p]
  {
    map p | p in m && p < n :: m[p]
  }

  lemma PrunedBytes(mem: seq<Block>, mem1: seq<Block>, l: Loc, lo: nat)
    requires Pruned(mem, mem1, l, lo)
    ensures forall x, p: nat :: HasByte(mem1, x, p) ==> HasByte(mem, x, p) && ByteAt(mem1, x, p) == ByteAt(mem, x, p)
    ensures forall x, p: nat :: HasByte(mem, x, p) && (x != l || p / BLKSIZE < lo) ==> HasByte(mem1, x, p)
  {
    hide Owns, Val, IsFile, FileAt, HasByte, ByteAt, IsFree;
    forall x, p: nat | HasByte(mem1, x, p) ensures HasByte(mem, x, p) && ByteAt(mem1, x, p) == ByteAt(mem, x, p) {
      ByteOwner(mem1, x, p);
      InFile(mem1, x, p);
      OwnerByte(mem, x, p, Val(mem1, x, p / BLKSIZE));
      OwnerByte(mem1, x, p, Val(mem1, x, p / BLKSIZE));
    }
    forall x, p: nat | HasByte(mem, x, p) && (x != l || p / BLKSIZE < lo) ensures HasByte(mem1, x, p) {
      ByteOwner(mem, x, p);
      InFile(mem, x, p);
      OwnerByte(mem1, x, p, Val(mem, x, p / BLKSIZE));
    }
  }

  lemma SizeBytes(mem: seq<Block>, l: Loc, size: nat, x: Loc, p: nat)
    requires IsFile(mem, l)
    ensures var mem' := PutFile(mem, l, FileAt(mem, l).(size := size));
            && (x != l || (p < FileAt(mem, l).size && p < size) ==> HasByte(mem', x, p) == HasByte(mem, x, p))
            && (x == l && p >= size ==> !HasByte(mem', x, p))
            && (HasByte(mem, x, p) && HasByte(mem', x, p) ==> ByteAt(mem', x, p) == ByteAt(mem, x, p))
  {
    PutFileFiles(mem, l, FileAt(mem, l).(size := size));
    var mem' := PutFile(mem, l, FileAt(mem, l).(size := size));
    assert Val(mem', x, p / BLKSIZE) == Val(mem, x, p / BLKSIZE);
  }

  lemma SizeRegular(mem: seq<Block>, l: Loc, size: nat, x: Loc)
    requires IsFile(mem, l) && Regular(mem, x)
    ensures Regular(PutFile(mem, l, FileAt(mem, l).(size := size)), x)
  {
    PutFileFiles(mem, l, FileAt(mem, l).(size := size));
    var mem' := PutFile(mem, l, FileAt(mem, l).(size := size));
    forall k ensures Val(mem', x, k) == Val(mem, x, k) {}
  }

  /** What setting the size does to the contents of every file. */
  ghost predicate Resized(mem: seq<Block>, mem': seq<Block>, l: Loc, newsize: nat) {
    && IsFile(mem', l) && FileAt(mem', l).size == newsize
    && (newsize <= FileAt(mem, l).size ==> Contents(mem', l) == Shorter(Contents(mem, l), newsize))
    && (newsize >= FileAt(mem, l).size ==> Extends(Contents(mem, l), Contents(mem', l)))
    && OthersSame(mem, mem', l)
  }

  /** No file but l has changed. */
  ghost predicate OthersSame(mem: seq<Block>, mem': seq<Block>, l: Loc) {
    forall x :: x != l ==> Contents(mem', x) == Contents(mem, x) && FileAt(mem', x).size == FileAt(mem, x).size
                           && (Regular(mem, x) ==> Regular(mem', x))
  }

  lemma ResizedBy(mem: seq<Block>, mem1: seq<Block>, l: Loc, newsize: nat)
    requires IsFile(mem, l) && IsFile(mem1, l) && Pruned(mem, mem1, l, NBlocks(newsize))
    requires newsize >= FileAt(mem, l).size ==> mem1 == mem
    ensures Resized(mem, PutFile(mem1, l, FileAt(mem1, l).(size := newsize)), l, newsize)
  {
    hide Val, HasByte, ByteAt, Regular;
    var mem2 := PutFile(mem1, l, FileAt(mem1, l).(size := newsize));
    PutFileFiles(mem1, l, FileAt(mem1, l).(size := newsize));
    PrunedBytes(mem, mem1, l, NBlocks(newsize));
    assert forall x :: FileAt(mem1, x).size == FileAt(mem, x).size;
    hide Pruned, IsFile, FileAt, PutFile, Owns;
    forall x, p: nat
      ensures (x != l || (p < FileAt(mem, l).size && p < newsize)) ==> HasByte(mem2, x, p) == HasByte(mem, x, p)
    {
      SizeBytes(mem1, l, newsize, x, p);
      if p < newsize { BelowEnd(p, newsize); }
    }
    forall x, p: nat | HasByte(mem2, x, p) && HasByte(mem, x, p) ensures ByteAt(mem2, x, p) == ByteAt(mem, x, p) {
      SizeBytes(mem1, l, newsize, x, p);
      if p < newsize { BelowEnd(p, newsize); }
      HasInSize(mem, x, p);
      HasInSize(mem2, x, p);
    }
    forall p: nat | HasByte(mem2, l, p) || HasByte(mem, l, p)
      ensures (HasByte(mem2, l, p) ==> p < newsize) && (HasByte(mem, l, p) ==> p < FileAt(mem, l).size)
    {
      if HasByte(mem2, l, p) { HasInSize(mem2, l, p); }
      if HasByte(mem, l, p) { HasInSize(mem, l, p); }
    }
    forall x | x != l
      ensures Contents(mem2, x) == Contents(mem, x) && FileAt(mem2, x).size == FileAt(mem, x).size
              && (Regular(mem, x) ==> Regular(mem2, x))
    {
      if Regular(mem, x) {
        PrunedRegular(mem, mem1, l, NBlocks(newsize), x);
        SizeRegular(mem1, l, newsize, x);
      }
    }
  }

  lemma BelowEnd(p: nat, n: nat)
    requires p < n
    ensures p / BLKSIZE < NBlocks(n)
  {
  }

  lemma HasInSize(mem: seq<Block>, x: Loc, p: nat)
    requires HasByte(mem, x, p)
    ensures p < FileAt(mem, x).size
  {
  }

  lemma PastEnd(mem: seq<Block>, pend: Pending, l: Loc, lo: nat)
    requires OwnOk(mem, pend) && IsFile(mem, l) && NBlocks(FileAt(mem, l).size) <= lo
    ensures ClearFrom(mem, l, lo, NSLOTS)
  {
    forall i: nat | lo <= i < NSLOTS ensures Val(mem, l, i) == 0 {
      assert Val(mem, l, i) == 0 || Owns(mem, Slot(l, i), Val(mem, l, i));
    }
  }

  lemma MoreBlocks(a: nat, b: nat)
    requires a <= b
    ensures NBlocks(a) <= NBlocks(b)
  {
  }

  /** The premises of the store to f_size. */
  lemma SizeFacts(mem: seq<Block>, pend: Pending, l: Loc, size: nat)
    requires OwnOk(mem, pend) && Regular(mem, l) && ClearFrom(mem, l, NBlocks(size), NSLOTS)
    ensures IsFile(mem, l)
    ensures var mem' := PutFile(mem, l, FileAt(mem, l).(size := size));
            && OwnOk(mem', pend) && SameKinds(mem, mem') && SameSlots(mem, mem') && Regular(mem', l)
            && forall x: nat :: IsFree(mem', x) == IsFree(mem, x)
  {
    RegularFile(mem, l);
    forall k | NBlocks(size) <= k < NSLOTS ensures Val(mem, l, k) == 0 {}
    SetSizeOk(mem, pend, l, size);
    PutFileKinds(mem, l, FileAt(mem, l).(size := size));
    SizeSlots(mem, l, size);
    PutFileFiles(mem, l, FileAt(mem, l).(size := size));
  }

  lemma FreeGrows(mem: seq<Block>, mem': seq<Block>)
    requires |mem'| == |mem| && forall b: nat :: IsFree(mem, b) ==> IsFree(mem', b)
    ensures |FreeSet(mem)| <= |FreeSet(mem')|
  {
    assert FreeSet(mem') == FreeSet(mem) + (FreeSet(mem') - FreeSet(mem));
  }

  /** file_set_size */
  method SetSize(fs: FileSystem, l: Loc, newsize: nat)
    requires fs.Settled() && Regular(fs.bc.Logical(), l)
    modifies fs.bc, fs`pend, fs`busy
    ensures fs.Settled() && Regular(fs.bc.Logical(), l)
    ensures Resized(old(fs.bc.Logical()), fs.bc.Logical(), l, newsize)
    ensures |FreeSet(old(fs.bc.Logical()))| <= |FreeSet(fs.bc.Logical())|
    ensures l.blk < |fs.bc.disk| == |fs.bc.Logical()| && fs.bc.disk[l.blk] == fs.bc.Logical()[l.blk]
  {
    hide State, Owns, Val, IsFree, Pruned, Regular, IsFile, FileAt, ClearFrom, Resized, SameKinds, SameSlots, FreeSet,
         PutFile, Exclusive, Marked, Layout, IndexTyped, Trimmed;
    ghost var mem0 := fs.bc.Logical();
    RegularFile(mem0, l);
    StateFacts(mem0, fs.bc.disk, fs.bc.images, fs.pend, fs.busy);
    PrunedRefl(mem0, l, NBlocks(newsize));
    var f := fs.ReadFile(l);
    if f.size > newsize {
      TruncateBlocks(fs, l, newsize);
    } else {
      MoreBlocks(f.size, newsize);
      PastEnd(mem0, {}, l, NBlocks(newsize));
    }
    ghost var mem1 := fs.bc.Logical();
    PrunedFile(mem0, mem1, l, NBlocks(newsize));
    ResizedBy(mem0, mem1, l, newsize);
    StateFacts(mem1, fs.bc.disk, fs.bc.images, fs.pend, fs.busy);
    StoreSize(fs, l, newsize);
    fs.FlushBlock(l.blk);
    PrunedFree(mem0, mem1, l, NBlocks(newsize), fs.bc.Logical());
  }

  lemma PrunedFree(mem: seq<Block>, mem1: seq<Block>, l: Loc, lo: nat, mem2: seq<Block>)
    requires Pruned(mem, mem1, l, lo) && |mem2| == |mem1| && FreeSet(mem2) == FreeSet(mem1)
    ensures |FreeSet(mem)| <= |FreeSet(mem2)|
  {
    hide FileAt, IsFile, Owns;
    FreeGrows(mem, mem1);
  }

  /** f->f_size = newsize */
  method StoreSize(fs: FileSystem, l: Loc, newsize: nat)
    requires fs.Valid() && fs.pend == {} && fs.busy <= {l} && Regular(fs.bc.Logical(), l)
    requires ClearFrom(fs.bc.Logical(), l, NBlocks(newsize), NSLOTS)
    modifies fs.bc`pages, fs`pend, fs`busy
    ensures fs.Valid() && fs.pend == {} && fs.busy == old(fs.busy) && Regular(fs.bc.Logical(), l)
    ensures IsFile(old(fs.bc.Logical()), l)
    ensures fs.bc.Logical() == PutFile(old(fs.bc.Logical()), l, FileAt(old(fs.bc.Logical()), l).(size := newsize))
    ensures FreeSet(fs.bc.Logical()) == FreeSet(old(fs.bc.Logical())) && |fs.bc.Logical()| == |old(fs.bc.Logical())|
  {
    hide State, OwnOk, Owns, Val, IsFree, Regular, ClearFrom, SameKinds, FreeSet;
    ghost var mem := fs.bc.Logical();
    StateFacts(mem, fs.bc.disk, fs.bc.images, fs.pend, fs.busy);
    SizeFacts(mem, {}, l, newsize);
    SameFree(mem, PutFile(mem, l, FileAt(mem, l).(size := newsize)));
    var c := fs.Load(l.blk);
    fs.Store(l.blk, Files(c.files[l.idx := c.files[l.idx].(size := newsize)]), {}, fs.busy);
  }
}
