/** fs/fs.c over the block cache: the bitmap allocator, block maps, file reads, writes and truncation. */
module Fs {
  import opened FsTypes
  import opened FsOwn
  import opened FsCrash
  import opened FsContents
  import opened BlockCache

  /** A panic ends the file server: diskaddr refuses the block number that alloc_block's error turns into. */
  datatype Outcome = Code(r: int) | Panic

  ghost function FreeSet(mem: seq<Block>): set<nat> { set b | 0 <= b < |mem| && IsFree(mem, b) }

  /** Ownership always; and, while one bitmap block covers the disk, every disk image so far is crash-safe. */
  ghost predicate State(mem: seq<Block>, disk: seq<Block>, images: seq<seq<Block>>, pend: Pending, busy: set<Loc>) {
    && OwnOk(mem, pend) && SameKinds(mem, disk)
    && (|mem| <= BLKBITSIZE ==> Behind(mem, disk, busy) && forall i :: 0 <= i < |images| ==> CrashSafe(images[i]))
  }

  lemma StateFacts(mem: seq<Block>, disk: seq<Block>, images: seq<seq<Block>>, pend: Pending, busy: set<Loc>)
    requires State(mem, disk, images, pend, busy)
    ensures OwnOk(mem, pend) && 2 + BitBlocks(|mem|) <= |mem|
    ensures forall l :: IsFile(mem, l) ==> 0 != l.blk < |mem| && !IsFree(mem, l.blk)
    ensures forall b :: 2 <= b < 2 + BitBlocks(|mem|) ==> mem[b].Bits? && !IsFree(mem, b)
    ensures forall b: nat :: b < |mem| ==> 2 + b / BLKBITSIZE < 2 + BitBlocks(|mem|)
    ensures forall s: Slot, b: nat :: Owns(mem, s, b) ==> 0 != b < |mem| && !IsFree(mem, b)
    ensures forall b :: 0 <= b < |mem| && IsFree(mem, b) ==> !mem[b].Files? && !mem[b].Bits? && b != 0
    ensures forall b :: b in pend ==> 0 != b < |mem| && !IsFree(mem, b) && !mem[b].Files? && !mem[b].Bits?
  {
    hide Owns, SameKinds, Behind, CrashSafe;
    forall l | IsFile(mem, l) ensures l.blk != 0 {
      assert mem[l.blk].Files?;
    }
    forall s: Slot, b: nat | Owns(mem, s, b) ensures !IsFree(mem, b) {
      assert Owned(mem, b);
    }
  }

  /** Writing one block: the image that results is crash-safe unless a truncated file is still half done. */
  lemma FlushState(mem: seq<Block>, disk: seq<Block>, images: seq<seq<Block>>, images': seq<seq<Block>>, pend: Pending,
                   busy: set<Loc>, x: nat)
    requires State(mem, disk, images, pend, busy) && x < |mem| == |disk| && forall l :: l in busy ==> l.blk == x
    requires images' == images || images' == images + [disk[x := mem[x]]]
    ensures State(mem, disk[x := mem[x]], images', pend, {})
  {
    hide OwnOk, Behind, CrashSafe;
    if |mem| <= BLKBITSIZE {
      FlushBehind(mem, disk, busy, x);
      assert (set l | l in busy && l.blk != x) == {};
      BehindSafe(mem, pend, disk[x := mem[x]]);
    }
  }

  lemma TakeState(mem: seq<Block>, disk: seq<Block>, images: seq<seq<Block>>, images': seq<seq<Block>>, pend: Pending,
                  b: nat)
    requires State(mem, disk, images, pend, {}) && b < |mem| == |disk| && IsFree(mem, b)
    ensures 2 + b / BLKBITSIZE < |mem| && mem[2 + b / BLKBITSIZE].Bits? && 2 < |mem|
    ensures images' == images || images' == images + [disk[2 := PutBit(mem, b, false)[2]]] ==>
              State(PutBit(mem, b, false), disk[2 := PutBit(mem, b, false)[2]], images', pend + {b}, {})
  {
    hide Behind, CrashSafe, IsFree, Owns;
    TakeBlock(mem, pend, b);
    if |mem| <= BLKBITSIZE {
      TakeBehind(mem, disk, {}, b);
      BehindSafe(PutBit(mem, b, false), pend + {b}, disk[2 := PutBit(mem, b, false)[2]]);
    }
  }

  lemma StoreState(mem: seq<Block>, mem': seq<Block>, disk: seq<Block>, images: seq<seq<Block>>,
                   pend: Pending, pend': Pending, busy: set<Loc>, busy': set<Loc>)
    requires State(mem, disk, images, pend, busy) && OwnOk(mem', pend') && SameKinds(mem, mem') && busy <= busy'
    requires forall s: Slot, b: nat :: s.loc !in busy' && Owns(mem, s, b) ==> Owns(mem', s, b)
    requires forall b: nat :: IsFree(mem, b) ==> IsFree(mem', b)
    ensures State(mem', disk, images, pend', busy')
  {
    hide OwnOk, Behind, CrashSafe, SameKinds, Owns, IsFree;
    if |mem| <= BLKBITSIZE {
      StoreBehind(mem, mem', disk, busy, busy');
    }
    KindsTrans(mem, mem', disk);
  }

  lemma KindsTrans(mem: seq<Block>, mem': seq<Block>, disk: seq<Block>)
    requires SameKinds(mem, mem') && SameKinds(mem, disk)
    ensures |mem'| == |mem| && SameKinds(mem', disk)
  {
  }

  /** The premises of a store that grows the block map of l. */
  lemma GrownStore(mem: seq<Block>, mem': seq<Block>, l: Loc)
    requires Grown(mem, mem', l)
    ensures forall s: Slot, x: nat :: Owns(mem, s, x) ==> Owns(mem', s, x)
  {
  }

  lemma PutFileKinds(mem: seq<Block>, l: Loc, f: File)
    requires IsFile(mem, l)
    ensures SameKinds(mem, PutFile(mem, l, f))
  {
  }

  lemma PutSlotKinds(mem: seq<Block>, l: Loc, k: nat, v: nat)
    requires Storable(mem, l, k)
    ensures SameKinds(mem, PutSlot(mem, l, k, v))
  {
  }

  lemma TakeFree(mem: seq<Block>, b: nat)
    requires Layout(mem) && b < |mem| && IsFree(mem, b)
    ensures 2 + b / BLKBITSIZE < |mem| && mem[2 + b / BLKBITSIZE].Bits?
    ensures |FreeSet(PutBit(mem, b, false))| == |FreeSet(mem)| - 1
  {
    PutBitIs(mem, b, false);
    assert FreeSet(PutBit(mem, b, false)) == FreeSet(mem) - {b};
  }

  lemma SameFree(mem: seq<Block>, mem': seq<Block>)
    requires |mem'| == |mem| && forall x: nat :: IsFree(mem', x) == IsFree(mem, x)
    ensures FreeSet(mem') == FreeSet(mem)
  {
  }

  lemma NoneFree(mem: seq<Block>)
    requires forall b: nat :: !IsFree(mem, b)
    ensures FreeSet(mem) == {}
  {
  }

  lemma SameBehind(disk: seq<Block>)
    ensures Behind(disk, disk, {})
  {
  }

  lemma SlotOwned(mem: seq<Block>, l: Loc, k: nat)
    requires IsFile(mem, l) && (Val(mem, l, k) != 0 || (k == NSLOTS && FileAt(mem, l).indirect != 0))
    ensures Val(mem, l, k) != 0 && Owns(mem, Slot(l, k), Val(mem, l, k))
    ensures k == NSLOTS ==> Val(mem, l, k) == FileAt(mem, l).indirect
  {
  }

  lemma IndirectIsVal(mem: seq<Block>, l: Loc)
    ensures Val(mem, l, NSLOTS) == FileAt(mem, l).indirect
  {
  }

  lemma WalkFacts(mem: seq<Block>, pend: Pending, l: Loc, k: nat)
    requires OwnOk(mem, pend) && IsFile(mem, l) && k < NSLOTS && (k < NDIRECT || FileAt(mem, l).indirect != 0)
    ensures Storable(mem, l, k)
  {
  }

  /** How many blocks a walk to entry k has to add. */
  function IndexCost(mem: seq<Block>, l: Loc, k: nat): nat {
    if NDIRECT <= k < NSLOTS && FileAt(mem, l).indirect == 0 then 1 else 0
  }

  /** The blocks that file_get_block has to take for entry k. */
  function BlockCost(mem: seq<Block>, l: Loc, k: nat): nat {
    IndexCost(mem, l, k) + if k < NSLOTS && Val(mem, l, k) == 0 then 1 else 0
  }

  lemma ValOwned(mem: seq<Block>, pend: Pending, l: Loc, k: nat)
    requires OwnOk(mem, pend) && IsFile(mem, l) && Val(mem, l, k) != 0
    ensures Owns(mem, Slot(l, k), Val(mem, l, k)) && Val(mem, l, k) < |mem|
  {
    hide Val, IsFile, Exclusive, IndexTyped, Trimmed, Layout;
    assert Owns(mem, Slot(l, k), Val(mem, l, k));
  }

  lemma PutSlotVal0(mem: seq<Block>, l: Loc, k: nat, b: nat)
    requires Exclusive(mem) && Storable(mem, l, k)
    ensures Val(PutSlot(mem, l, k, b), l, k) == b
  {
    PutSlotVal(mem, l, k, b, l, k);
  }

  lemma SlotStays(mem: seq<Block>, mem1: seq<Block>, l: Loc, k: nat)
    requires Storable(mem, l, k) && IndexTyped(mem1) && Grown(mem, mem1, l)
             && Val(mem1, l, NSLOTS) == Val(mem, l, NSLOTS)
    ensures Storable(mem1, l, k)
  {
  }

  lemma GrownFile(mem: seq<Block>, mem': seq<Block>, l: Loc)
    requires Grown(mem, mem', l)
    ensures IsFile(mem', l) == IsFile(mem, l) && FileAt(mem', l).size == FileAt(mem, l).size && |mem'| == |mem|
  {
  }

  class FileSystem {
    const bc: Cache
    ghost var pend: Pending          // blocks taken from the bitmap and not yet named by a slot
    ghost var busy: set<Loc>         // files whose truncation has not reached the disk

    ghost predicate Valid()
      reads this, bc
    {
      bc.Valid() && State(bc.Logical(), bc.disk, bc.images, pend, busy)
    }

    /** Between two operations. */
    ghost predicate Settled()
      reads this, bc
    {
      Valid() && pend == {} && busy == {}
    }

    /** fs_init on a disk image in which every block is accounted for. */
    constructor (disk: seq<Block>)
      requires OwnOk(disk, {})
      ensures Settled() && bc.Logical() == disk && bc.disk == disk && fresh(bc)
    {
      hide OwnOk, Behind, CrashSafe;
      bc := new Cache(disk);
      pend, busy := {}, {};
      new;
      SameBehind(disk);
      BehindSafe(disk, {}, disk);
    }

    /** Every load goes through the fault handler, whose check "reading free block" never fires. */
    method Load(b: nat) returns (c: Block)
      requires Valid() && 0 != b < |bc.disk| && !IsFree(bc.Logical(), b)
      modifies bc`pages
      ensures Valid() && bc.Logical() == old(bc.Logical()) && c == bc.Logical()[b]
    {
      hide State;
      c := bc.Load(b);
    }

    /** A store that keeps the invariants. */
    method Store(b: nat, c: Block, ghost pend': Pending, ghost busy': set<Loc>)
      requires Valid() && 0 != b < |bc.disk| && !IsFree(bc.Logical(), b)
      requires OwnOk(bc.Logical()[b := c], pend') && SameKinds(bc.Logical(), bc.Logical()[b := c]) && busy <= busy'
      requires forall s: Slot, x: nat :: s.loc !in busy' && Owns(bc.Logical(), s, x) ==>
                 Owns(bc.Logical()[b := c], s, x)
      requires forall x: nat :: IsFree(bc.Logical(), x) ==> IsFree(bc.Logical()[b := c], x)
      modifies bc`pages, `pend, `busy
      ensures Valid() && bc.Logical() == old(bc.Logical())[b := c] && pend == pend' && busy == busy'
    {
      hide State, OwnOk, SameKinds, Owns, IsFree;
      StoreState(bc.Logical(), bc.Logical()[b := c], bc.disk, bc.images, pend, pend', busy, busy');
      bc.Store(b, c);
      pend, busy := pend', busy';
    }

    method FlushBlock(b: nat)
      requires Valid() && 0 != b < |bc.disk| && forall l :: l in busy ==> l.blk == b
      modifies bc, `busy
      ensures Valid() && busy == {} && bc.Logical() == old(bc.Logical())
              && bc.disk == old(bc.disk)[b := bc.Logical()[b]]
    {
      hide State;
      FlushState(bc.Logical(), bc.disk, bc.images, bc.images, pend, busy, b);
      FlushState(bc.Logical(), bc.disk, bc.images, bc.images + [bc.disk[b := bc.Logical()[b]]], pend, busy, b);
      bc.Flush(b);
      busy := {};
    }

    method BlockIsFree(b: nat) returns (r: bool)
      requires Valid()
      modifies bc`pages
      ensures Valid() && bc.Logical() == old(bc.Logical()) && r == IsFree(bc.Logical(), b)
    {
      hide State, OwnOk, Owns;
      StateFacts(bc.Logical(), bc.disk, bc.images, pend, busy);
      if b >= |bc.disk| {
        return false;
      }
      var word := Load(2 + b / BLKBITSIZE);
      r := word.free[b % BLKBITSIZE];
    }

    /** alloc_block: the first free block, with the first bitmap block written at once. */
    method AllocBlock() returns (r: int)
      requires Valid() && busy == {}
      modifies bc, `pend
      ensures Valid()
      ensures r < 0 <==> forall b: nat :: !IsFree(old(bc.Logical()), b)
      ensures r < 0 ==>
                bc.Logical() == old(bc.Logical()) && pend == old(pend) && bc.disk == old(bc.disk)
                && bc.images == old(bc.images)
      ensures r >= 0 ==>
                && 0 != r < |old(bc.Logical())| && IsFree(old(bc.Logical()), r) && pend == old(pend) + {r}
                && (forall b: nat :: b < r ==> !IsFree(old(bc.Logical()), b))
                && 2 + r / BLKBITSIZE < |old(bc.Logical())| && old(bc.Logical())[2 + r / BLKBITSIZE].Bits?
                && bc.Logical() == PutBit(old(bc.Logical()), r, false)
    {
      hide State, OwnOk, Owns, PutBit, IsFree;
      ghost var mem := bc.Logical();
      var blockno := 0;
      while blockno < |bc.disk|
        invariant Valid() && bc.Logical() == mem && bc.disk == old(bc.disk) && bc.images == old(bc.images)
        invariant forall b: nat :: b < blockno ==> !IsFree(mem, b)
        invariant pend == old(pend) && busy == {}
      {
        var free := BlockIsFree(blockno);
        if free {
          StateFacts(mem, bc.disk, bc.images, pend, busy);
          var x := 2 + blockno / BLKBITSIZE;
          var word := Load(x);
          Take(blockno, x, word);
          return blockno;
        }
        blockno := blockno + 1;
      }
      FreeInRange(mem);
      r := -1;
    }

    /** bitmap[blockno/32] ^= 1 << (blockno%32); flush_block(bitmap) */
    method Take(blockno: nat, x: nat, word: Block)
      requires Valid() && busy == {} && blockno < |bc.disk| && IsFree(bc.Logical(), blockno)
      requires x == 2 + blockno / BLKBITSIZE < |bc.disk| && word == bc.Logical()[x]
      modifies bc, `pend
      ensures Valid() && pend == old(pend) + {blockno} && word.Bits?
              && bc.Logical() == PutBit(old(bc.Logical()), blockno, false)
    {
      hide State, OwnOk, Owns;
      ghost var mem := bc.Logical();
      TakeState(mem, bc.disk, bc.images, bc.images, pend, blockno);
      TakeState(mem, bc.disk, bc.images, bc.images + [bc.disk[2 := PutBit(mem, blockno, false)[2]]], pend, blockno);
      bc.Store(x, Bits(word.free[blockno % BLKBITSIZE := !word.free[blockno % BLKBITSIZE]]));
      bc.Flush(2);
      pend := pend + {blockno};
    }

    /** The struct File at l. */
    method ReadFile(l: Loc) returns (f: File)
      requires Valid() && IsFile(bc.Logical(), l)
      modifies bc`pages
      ensures Valid() && bc.Logical() == old(bc.Logical()) && f == FileAt(bc.Logical(), l)
    {
      hide State, OwnOk, Owns;
      StateFacts(bc.Logical(), bc.disk, bc.images, pend, busy);
      var c := Load(l.blk);
      f := c.files[l.idx];
    }

    /** The word a walk has pointed at. */
    method ReadSlot(l: Loc, k: nat) returns (v: nat)
      requires Valid() && Storable(bc.Logical(), l, k)
      modifies bc`pages
      ensures Valid() && bc.Logical() == old(bc.Logical()) && v == Val(bc.Logical(), l, k)
    {
      hide State, OwnOk, Owns;
      var f := ReadFile(l);
      if k < NDIRECT {
        v := f.direct[k];
      } else {
        SlotOwned(bc.Logical(), l, NSLOTS);
        StateFacts(bc.Logical(), bc.disk, bc.images, pend, busy);
        var c := Load(f.indirect);
        v := c.ptrs[k - NDIRECT];
      }
    }

    /** Storing a pending block into an empty slot. */
    method WriteSlot(l: Loc, k: nat, b: nat)
      requires Valid() && Storable(bc.Logical(), l, k) && Val(bc.Logical(), l, k) == 0 && b in pend
      requires k < NBlocks(FileAt(bc.Logical(), l).size)
      modifies bc`pages, `pend, `busy
      ensures Valid() && pend == old(pend) - {b} && busy == old(busy)
      ensures Storable(old(bc.Logical()), l, k) && bc.Logical() == PutSlot(old(bc.Logical()), l, k, b)
    {
      hide State, OwnOk, Owns, Val, IsFree, SameKinds, Grown;
      ghost var mem := bc.Logical();
      StateFacts(mem, bc.disk, bc.images, pend, busy);
      AttachSlot(mem, pend, l, k, b);
      SlotGrown(mem, pend, l, k, b);
      GrownStore(mem, PutSlot(mem, l, k, b), l);
      PutSlotKinds(mem, l, k, b);
      var f := ReadFile(l);
      if k < NDIRECT {
        var c := Load(l.blk);
        Store(l.blk, Files(c.files[l.idx := f.(direct := f.direct[k := b])]), pend - {b}, busy);
      } else {
        SlotOwned(mem, l, NSLOTS);
        var c := Load(f.indirect);
        Store(f.indirect, Words(c.ptrs[k - NDIRECT := b]), pend - {b}, busy);
      }
    }

    /** memset(diskaddr(blockno), 0, BLKSIZE); flush_block(diskaddr(blockno)) */
    method ClearBlock(b: nat, ghost l: Loc)
      requires Valid() && busy == {} && b in pend
      modifies bc, `pend, `busy
      ensures Valid() && busy == {} && pend == old(pend)
      ensures b < |old(bc.Logical())| && bc.Logical() == old(bc.Logical())[b := Words(ZeroPtrs())]
      ensures Grown(old(bc.Logical()), bc.Logical(), l) && FreeSet(bc.Logical()) == FreeSet(old(bc.Logical()))
      ensures forall x, k :: Val(bc.Logical(), x, k) == Val(old(bc.Logical()), x, k)
      ensures b < |bc.disk| && bc.disk[b] == Words(ZeroPtrs())
    {
      hide State, OwnOk, Owns, Val, IsFree, Grown, FreeSet;
      ghost var mem := bc.Logical();
      StateFacts(mem, bc.disk, bc.images, pend, busy);
      ClearGrown(mem, pend, b, l);
      GrownStore(mem, mem[b := Words(ZeroPtrs())], l);
      SameFree(mem, mem[b := Words(ZeroPtrs())]);
      Store(b, Words(ZeroPtrs()), pend, busy);
      FlushBlock(b);
    }

    /** f->f_indirect = blockno */
    method HangIndex(l: Loc, b: nat)
      requires Valid() && busy == {} && IsFile(bc.Logical(), l) && FileAt(bc.Logical(), l).indirect == 0 && b in pend
      requires b < |bc.Logical()| && bc.Logical()[b] == Words(ZeroPtrs())
      modifies bc`pages, `pend, `busy
      ensures Valid() && busy == {} && pend == old(pend) - {b}
      ensures Grown(old(bc.Logical()), bc.Logical(), l) && FreeSet(bc.Logical()) == FreeSet(old(bc.Logical()))
      ensures FileAt(bc.Logical(), l).indirect == b
      ensures forall k :: k != NSLOTS ==> Val(bc.Logical(), l, k) == Val(old(bc.Logical()), l, k)
    {
      hide State, OwnOk, Owns, Val, IsFree, Grown, FreeSet, SameKinds;
      ghost var mem := bc.Logical();
      StateFacts(mem, bc.disk, bc.images, pend, busy);
      AttachIndirect(mem, pend, l, b);
      IndexGrown(mem, pend, l, b);
      ghost var mem' := PutFile(mem, l, FileAt(mem, l).(indirect := b));
      GrownStore(mem, mem', l);
      PutFileKinds(mem, l, FileAt(mem, l).(indirect := b));
      SameFree(mem, mem');
      var f := ReadFile(l);
      var c := Load(l.blk);
      Store(l.blk, Files(c.files[l.idx := f.(indirect := b)]), pend - {b}, busy);
    }

    /** A fresh, cleared indirect block for a file that has none. */
    method NewIndex(l: Loc) returns (r: int)
      requires Valid() && busy == {} && pend == {} && IsFile(bc.Logical(), l) && FileAt(bc.Logical(), l).indirect == 0
      modifies bc, `pend, `busy
      ensures Valid() && busy == {} && pend == {}
      ensures r < 0 <==> FreeSet(old(bc.Logical())) == {}
      ensures r < 0 ==> bc.Logical() == old(bc.Logical()) && bc.disk == old(bc.disk) && bc.images == old(bc.images)
      ensures r >= 0 ==>
                && Grown(old(bc.Logical()), bc.Logical(), l) && FileAt(bc.Logical(), l).indirect == r != 0
                && (forall k :: k != NSLOTS ==> Val(bc.Logical(), l, k) == Val(old(bc.Logical()), l, k))
                && |FreeSet(bc.Logical())| == |FreeSet(old(bc.Logical()))| - 1
                && r < |bc.disk| && bc.disk[r] == Words(ZeroPtrs())
    {
      hide State, Owns, Val, Grown, IsFree, FileAt, IsFile, Exclusive, Marked, Layout, PutBit;
      ghost var mem := bc.Logical();
      StateFacts(mem, bc.disk, bc.images, pend, busy);
      r := AllocBlock();
      if r < 0 {
        NoneFree(mem);
        return;
      }
      TakeGrown(mem, {}, r, l);
      TakeFree(mem, r);
      ghost var mem1 := bc.Logical();
      GrownFile(mem, mem1, l);
      ClearBlock(r, l);
      ghost var mem2 := bc.Logical();
      GrownFile(mem1, mem2, l);
      IndirectIsVal(mem, l);
      IndirectIsVal(mem2, l);
      HangIndex(l, r);
      GrownTrans(mem, mem1, mem2, l);
      GrownTrans(mem, mem2, bc.Logical(), l);
    }

    /** file_block_walk.  The slot it points at is entry k itself. */
    method BlockWalk(l: Loc, k: nat, alloc: bool) returns (out: Outcome)
      requires Valid() && IsFile(bc.Logical(), l) && (alloc ==> busy == {} && pend == {})
      modifies bc, `pend, `busy
      ensures Valid() && pend == old(pend) && busy == old(busy)
      ensures out == if k >= NSLOTS then Code(-E_INVAL)
                     else if IndexCost(old(bc.Logical()), l, k) == 0 then Code(0)
                     else if !alloc then Code(-E_NOT_FOUND)
                     else if FreeSet(old(bc.Logical())) == {} then Panic
                     else Code(0)
      ensures out == Code(0) ==> Storable(bc.Logical(), l, k) && Grown(old(bc.Logical()), bc.Logical(), l)
      ensures out == Code(0) ==> Val(bc.Logical(), l, k) == Val(old(bc.Logical()), l, k)
      ensures out == Code(0) ==>
                |FreeSet(bc.Logical())| == |FreeSet(old(bc.Logical()))| - IndexCost(old(bc.Logical()), l, k)
      ensures out == Code(0) && IndexCost(old(bc.Logical()), l, k) == 1 ==>
                FileAt(bc.Logical(), l).indirect < |bc.disk|
                    && bc.disk[FileAt(bc.Logical(), l).indirect] == Words(ZeroPtrs())
      ensures !alloc || out != Code(0) ==>
                bc.Logical() == old(bc.Logical()) && bc.disk == old(bc.disk) && bc.images == old(bc.images)
    {
      hide State, OwnOk, Owns, Val, Grown, IsFree, FileAt, IsFile;
      ghost var mem := bc.Logical();
      GrownRefl(mem, l);
      StateFacts(mem, bc.disk, bc.images, pend, busy);
      if k >= NSLOTS {
        return Code(-E_INVAL);
      }
      if k < NDIRECT {
        WalkFacts(mem, pend, l, k);
        return Code(0);
      }
      var f := ReadFile(l);
      if f.indirect == 0 {
        if !alloc {
          return Code(-E_NOT_FOUND);
        }
        var blockno := NewIndex(l);
        if blockno < 0 {
          return Panic;
        }
      }
      GrownFile(mem, bc.Logical(), l);
      StateFacts(bc.Logical(), bc.disk, bc.images, pend, busy);
      WalkFacts(bc.Logical(), pend, l, k);
      out := Code(0);
    }

    /** A new data block for an empty slot; its contents are whatever the disk held. */
    method NewData(l: Loc, k: nat) returns (r: int)
      requires Settled() && Storable(bc.Logical(), l, k) && Val(bc.Logical(), l, k) == 0
      requires k < NBlocks(FileAt(bc.Logical(), l).size)
      modifies bc, `pend, `busy
      ensures Settled()
      ensures r < 0 <==> FreeSet(old(bc.Logical())) == {}
      ensures r < 0 ==> bc.Logical() == old(bc.Logical()) && bc.disk == old(bc.disk) && bc.images == old(bc.images)
      ensures r >= 0 ==>
                && 0 != r < |old(bc.Logical())| && !old(bc.Logical())[r].Files?
                && Val(bc.Logical(), l, k) == r && Grown(old(bc.Logical()), bc.Logical(), l)
                && |FreeSet(bc.Logical())| == |FreeSet(old(bc.Logical()))| - 1
    {
      hide State, Owns, Val, Grown, IsFree, FileAt, IsFile, Exclusive, Marked, Layout, PutBit, PutSlot, Storable;
      ghost var mem := bc.Logical();
      StateFacts(mem, bc.disk, bc.images, pend, busy);
      r := AllocBlock();
      if r < 0 {
        NoneFree(mem);
        return;
      }
      TakeGrown(mem, {}, r, l);
      TakeFree(mem, r);
      ghost var mem1 := bc.Logical();
      GrownFile(mem, mem1, l);
      StateFacts(mem1, bc.disk, bc.images, pend, busy);
      SlotStays(mem, mem1, l, k);
      SlotGrown(mem1, pend, l, k, r);
      PutSlotVal0(mem1, l, k, r);
      WriteSlot(l, k, r);
      GrownFile(mem1, bc.Logical(), l);
      SameFree(mem1, bc.Logical());
      GrownTrans(mem, mem1, bc.Logical(), l);
    }

    /** file_get_block: the block that holds file block k, allocated now if there was none. */
    method GetBlock(l: Loc, k: nat) returns (out: Outcome, b: nat)
      requires Settled() && IsFile(bc.Logical(), l) && (k < NSLOTS ==> k < NBlocks(FileAt(bc.Logical(), l).size))
      modifies bc, `pend, `busy
      ensures Valid() && (out.Code? ==> Settled())
      ensures out == if k >= NSLOTS then Code(-E_INVAL)
                     else if BlockCost(old(bc.Logical()), l, k) > |FreeSet(old(bc.Logical()))| then Panic
                     else Code(0)
      ensures out == Code(0) ==>
                && Owns(bc.Logical(), Slot(l, k), b) && b < |bc.Logical()| && !IsFree(bc.Logical(), b)
                && Grown(old(bc.Logical()), bc.Logical(), l)
                && |FreeSet(bc.Logical())| == |FreeSet(old(bc.Logical()))| - BlockCost(old(bc.Logical()), l, k)
      ensures out.Code? && out != Code(0) ==> bc.Logical() == old(bc.Logical())
    {
      hide State, Owns, Val, Grown, IsFree, FileAt, IsFile, Exclusive, Marked, Layout, PutBit, PutSlot, Storable,
           FreeSet;
      ghost var mem := bc.Logical();
      b := 0;
      out := BlockWalk(l, k, true);
      if out != Code(0) {
        return;
      }
      ghost var mem1 := bc.Logical();
      GrownFile(mem, mem1, l);
      b := ReadSlot(l, k);
      if b == 0 {
        var blkno := NewData(l, k);
        if blkno < 0 {
          return Panic, 0;
        }
        b := blkno;
        GrownTrans(mem, mem1, bc.Logical(), l);
        GrownFile(mem, bc.Logical(), l);
      }
      StateFacts(bc.Logical(), bc.disk, bc.images, pend, busy);
      ValOwned(bc.Logical(), pend, l, k);
    }
  }
}
