/** Block ownership: in every state each block is free, reserved, or named by exactly one slot. */
module FsOwn {
  import opened FsTypes

  /** Blocks that are marked in use and named by no slot yet. */
  type Pending = set<nat>

  ghost predicate Layout(mem: seq<Block>) {
    && 2 + BitBlocks(|mem|) <= |mem|
    && (forall b :: 0 <= b < |mem| ==> (mem[b].Bits? <==> 2 <= b < 2 + BitBlocks(|mem|)))
    && mem[1].Files? && !mem[0].Files?
    && (forall b :: 0 <= b < |mem| && mem[b].Files? ==> !IsFree(mem, b))
  }

  ghost predicate Owned(mem: seq<Block>, b: nat) { exists s :: Owns(mem, s, b) }

  ghost predicate Exclusive(mem: seq<Block>) {
    forall s, s', b: nat :: Owns(mem, s, b) && Owns(mem, s', b) ==> s == s'
  }

  /** A block is in use iff it is reserved, pending, or named by a slot. */
  ghost predicate Marked(mem: seq<Block>, pend: Pending) {
    && (forall b :: 0 <= b < |mem| ==> (IsFree(mem, b) <==> !Reserved(|mem|, b) && b !in pend && !Owned(mem, b)))
    && (forall s, b: nat :: Owns(mem, s, b) ==> b < |mem| && !Reserved(|mem|, b) && b !in pend)
    && (forall b :: b in pend ==> b < |mem| && !Reserved(|mem|, b) && !mem[b].Files?)
  }

  ghost predicate IndexTyped(mem: seq<Block>) {
    forall l :: IsFile(mem, l) && FileAt(mem, l).indirect != 0 ==>
      FileAt(mem, l).indirect < |mem| && mem[FileAt(mem, l).indirect].Words?
  }

  /** Slots at or past the end of a file are zero. */
  ghost predicate Trimmed(mem: seq<Block>) {
    forall s, b: nat :: Owns(mem, s, b) && s.k < NSLOTS ==> s.k < NBlocks(FileAt(mem, s.loc).size)
  }

  ghost predicate OwnOk(mem: seq<Block>, pend: Pending) {
    Layout(mem) && Exclusive(mem) && Marked(mem, pend) && IndexTyped(mem) && Trimmed(mem)
  }

  /** A file all of whose blocks are data, not directory blocks. */
  ghost predicate Regular(mem: seq<Block>, l: Loc) {
    IsFile(mem, l) && forall k :: 0 <= k < NSLOTS && 0 != Val(mem, l, k) < |mem| ==> !mem[Val(mem, l, k)].Files?
  }

  // ---------------------------------------------------------------- how stores change the slots

  lemma PutFileFiles(mem: seq<Block>, l: Loc, f: File)
    requires IsFile(mem, l)
    ensures forall x :: IsFile(PutFile(mem, l, f), x) <==> IsFile(mem, x)
    ensures forall x :: FileAt(PutFile(mem, l, f), x) == if x == l then f else FileAt(mem, x)
  {
  }

  lemma PutSlotVal(mem: seq<Block>, l: Loc, k: nat, v: nat, l': Loc, k': nat)
    requires Exclusive(mem) && Storable(mem, l, k) && IsFile(mem, l')
    ensures IsFile(PutSlot(mem, l, k, v), l')
    ensures Val(PutSlot(mem, l, k, v), l', k') == if l' == l && k' == k then v else Val(mem, l', k')
  {
    if k >= NDIRECT && FileAt(mem, l').indirect == FileAt(mem, l).indirect {
      assert Owns(mem, Slot(l, NSLOTS), FileAt(mem, l).indirect)
          && Owns(mem, Slot(l', NSLOTS), FileAt(mem, l).indirect);
    }
  }

  lemma PutSlotOwns(mem: seq<Block>, l: Loc, k: nat, v: nat, s: Slot, b: nat)
    requires Exclusive(mem) && Storable(mem, l, k)
    ensures Owns(PutSlot(mem, l, k, v), s, b) <==> if s == Slot(l, k) then v != 0 && b == v else Owns(mem, s, b)
    ensures IsFile(PutSlot(mem, l, k, v), s.loc) <==> IsFile(mem, s.loc)
  {
    if IsFile(mem, s.loc) {
      PutSlotVal(mem, l, k, v, s.loc, s.k);
    }
  }

  lemma PutBitIs(mem: seq<Block>, b: nat, free: bool)
    requires Layout(mem) && b < |mem|
    ensures 2 + b / BLKBITSIZE < 2 + BitBlocks(|mem|)
    ensures forall x: nat :: IsFree(PutBit(mem, b, free), x) == if x == b then free else IsFree(mem, x)
    ensures forall s, x: nat :: Owns(PutBit(mem, b, free), s, x) <==> Owns(mem, s, x)
    ensures forall l, k :: Val(PutBit(mem, b, free), l, k) == Val(mem, l, k)
    ensures forall l ::
              FileAt(PutBit(mem, b, free), l) == FileAt(mem, l) && (IsFile(PutBit(mem, b, free), l) <==> IsFile(mem, l))
  {
    var mem' := PutBit(mem, b, free);
    forall x: nat ensures IsFree(mem', x) == if x == b then free else IsFree(mem, x) {
      if x != b && x / BLKBITSIZE == b / BLKBITSIZE {
        assert x % BLKBITSIZE != b % BLKBITSIZE;
      }
    }
    forall l, k ensures Val(mem', l, k) == Val(mem, l, k) {}
  }

  /** Two memories whose slots agree. */
  ghost predicate SameSlots(mem: seq<Block>, mem': seq<Block>) {
    forall s, x: nat :: Owns(mem', s, x) <==> Owns(mem, s, x)
  }

  lemma SameOwned(mem: seq<Block>, mem': seq<Block>, b: nat)
    requires SameSlots(mem, mem')
    ensures Owned(mem', b) == Owned(mem, b)
  {
    if Owned(mem, b) {
      var s :| Owns(mem, s, b);
      assert Owns(mem', s, b);
    }
  }

  /** Taking a free block. */
  lemma TakeBlock(mem: seq<Block>, pend: Pending, b: nat)
    requires OwnOk(mem, pend) && b < |mem| && IsFree(mem, b)
    ensures 2 + b / BLKBITSIZE < |mem| && mem[2 + b / BLKBITSIZE].Bits?
    ensures OwnOk(PutBit(mem, b, false), pend + {b})
  {
    hide Owns, IsFree, Val, FileAt, IsFile;
    PutBitIs(mem, b, false);
    var mem' := PutBit(mem, b, false);
    forall x: nat ensures Owned(mem', x) == Owned(mem, x) { SameOwned(mem, mem', x); }
    assert !Owned(mem, b);
  }

  /** Slot t now names v (nothing, if v is 0); every other slot names what it named. */
  ghost predicate Renamed(mem: seq<Block>, mem': seq<Block>, t: Slot, v: nat) {
    forall s, x: nat :: Owns(mem', s, x) <==> if s == t then v != 0 && x == v else Owns(mem, s, x)
  }

  lemma RenamedOwned(mem: seq<Block>, mem': seq<Block>, t: Slot, v: nat, b: nat)
    requires Renamed(mem, mem', t, v)
    ensures v != 0 && b == v ==> Owned(mem', b)
    ensures b != v && !Owns(mem, t, b) ==> Owned(mem', b) == Owned(mem, b)
    ensures Exclusive(mem) && Owns(mem, t, b) && b != v ==> !Owned(mem', b)
  {
    if v != 0 && b == v {
      assert Owns(mem', t, b);
    }
    if Owned(mem, b) && !Owns(mem, t, b) {
      var s :| Owns(mem, s, b);
      assert Owns(mem', s, b);
    }
  }

  /** Naming a pending block in an empty slot. */
  lemma NamePending(mem: seq<Block>, pend: Pending, mem': seq<Block>, t: Slot, b: nat)
    requires Exclusive(mem) && Marked(mem, pend) && Renamed(mem, mem', t, b) && b in pend
    requires forall x: nat :: !Owns(mem, t, x)
    requires |mem'| == |mem| && forall x: nat :: IsFree(mem', x) == IsFree(mem, x)
    requires forall x :: 0 <= x < |mem| && mem'[x].Files? ==> mem[x].Files?
    ensures Exclusive(mem') && Marked(mem', pend - {b})
  {
    hide Owns, IsFree;
    forall x: nat ensures x != b ==> Owned(mem', x) == Owned(mem, x) { RenamedOwned(mem, mem', t, b, x); }
    RenamedOwned(mem, mem', t, b, b);
    assert !Owned(mem, b);
    assert forall s :: !Owns(mem, s, b);
  }

  /** Clearing a slot whose block has just been marked free. */
  lemma Unname(mem: seq<Block>, pend: Pending, mem': seq<Block>, t: Slot, b: nat)
    requires Exclusive(mem) && Marked(mem, pend) && Renamed(mem, mem', t, 0) && Owns(mem, t, b)
    requires |mem'| == |mem| && forall x: nat :: IsFree(mem', x) == (x == b || IsFree(mem, x))
    requires forall x :: 0 <= x < |mem| && mem'[x].Files? ==> mem[x].Files?
    ensures Exclusive(mem') && Marked(mem', pend)
  {
    hide Owns, IsFree;
    forall x: nat ensures Owned(mem', x) == (x != b && Owned(mem, x)) {
      RenamedOwned(mem, mem', t, 0, x);
      if x != b && Owns(mem, t, x) {
        SlotNamesOne(mem, t, x, b);
      }
      if x == 0 { ZeroUnowned(mem); ZeroUnowned(mem'); }
    }
  }

  lemma SlotNamesOne(mem: seq<Block>, t: Slot, x: nat, y: nat)
    requires Owns(mem, t, x) && Owns(mem, t, y)
    ensures x == y
  {
  }

  lemma ZeroUnowned(mem: seq<Block>)
    ensures !Owned(mem, 0)
  {
  }

  lemma PutSlotRenames(mem: seq<Block>, l: Loc, k: nat, v: nat)
    requires Exclusive(mem) && Storable(mem, l, k)
    ensures Renamed(mem, PutSlot(mem, l, k, v), Slot(l, k), v)
    ensures |PutSlot(mem, l, k, v)| == |mem|
    ensures forall x: nat :: IsFree(PutSlot(mem, l, k, v), x) == IsFree(mem, x)
    ensures forall x :: 0 <= x < |mem| ==>
              (PutSlot(mem, l, k, v)[x].Files? <==> mem[x].Files?) && (PutSlot(mem, l, k, v)[x].Bits? <==> mem[x].Bits?)
                                            && (PutSlot(mem, l, k, v)[x].Words? <==> mem[x].Words?)
    ensures forall x :: IsFile(PutSlot(mem, l, k, v), x) <==> IsFile(mem, x)
    ensures forall x ::
              FileAt(PutSlot(mem, l, k, v), x).size == FileAt(mem, x).size
              && FileAt(PutSlot(mem, l, k, v), x).indirect == FileAt(mem, x).indirect
  {
    forall s, b: nat { PutSlotOwns(mem, l, k, v, s, b); }
  }

  /** Putting a pending block into a file's block map. */
  lemma AttachSlot(mem: seq<Block>, pend: Pending, l: Loc, k: nat, b: nat)
    requires OwnOk(mem, pend) && Storable(mem, l, k) && Val(mem, l, k) == 0 && b in pend
    requires k < NBlocks(FileAt(mem, l).size)
    ensures OwnOk(PutSlot(mem, l, k, b), pend - {b})
  {
    hide Owns, IsFree, IsFile, FileAt, PutSlot;
    PutSlotRenames(mem, l, k, b);
    EmptySlot(mem, Slot(l, k));
    NamePending(mem, pend, PutSlot(mem, l, k, b), Slot(l, k), b);
  }

  lemma EmptySlot(mem: seq<Block>, t: Slot)
    requires Val(mem, t.loc, t.k) == 0
    ensures forall x: nat :: !Owns(mem, t, x)
  {
  }

  /** file_free_block: the block is marked free and the slot cleared. */
  lemma ReleaseSlot(mem: seq<Block>, pend: Pending, l: Loc, k: nat)
    requires OwnOk(mem, pend) && Storable(mem, l, k) && Val(mem, l, k) != 0
    requires Val(mem, l, k) < |mem| && !mem[Val(mem, l, k)].Files?
    ensures 2 + Val(mem, l, k) / BLKBITSIZE < |mem| && mem[2 + Val(mem, l, k) / BLKBITSIZE].Bits?
    ensures Storable(PutBit(mem, Val(mem, l, k), true), l, k)
    ensures OwnOk(PutSlot(PutBit(mem, Val(mem, l, k), true), l, k, 0), pend)
  {
    hide IsFree, PutSlot;
    var b := Val(mem, l, k);
    PutBitIs(mem, b, true);
    var mem1 := PutBit(mem, b, true);
    BitExclusive(mem, mem1);
    PutSlotRenames(mem1, l, k, 0);
    var mem2 := PutSlot(mem1, l, k, 0);
    Unname(mem, pend, mem2, Slot(l, k), b);
  }

  lemma BitExclusive(mem: seq<Block>, mem': seq<Block>)
    requires Exclusive(mem) && SameSlots(mem, mem')
    ensures Exclusive(mem')
  {
    hide Owns;
  }

  lemma OwnKept(mem: seq<Block>, mem': seq<Block>, pend: Pending)
    requires OwnOk(mem, pend) && |mem'| == |mem| && SameSlots(mem, mem')
    requires forall x: nat :: IsFree(mem', x) == IsFree(mem, x)
    requires forall x :: 0 <= x < |mem| ==> mem'[x].Files? == mem[x].Files? && mem'[x].Bits? == mem[x].Bits?
    requires IndexTyped(mem') && Trimmed(mem')
    ensures OwnOk(mem', pend)
  {
    hide Owns, IsFree, Owned, IndexTyped, Trimmed;
    forall x: nat ensures Owned(mem', x) == Owned(mem, x) { SameOwned(mem, mem', x); }
    BitExclusive(mem, mem');
  }

  /** Is b an indirect block? */
  ghost predicate IsIndex(mem: seq<Block>, b: nat) {
    exists l :: IsFile(mem, l) && FileAt(mem, l).indirect == b && b != 0
  }

  /** Replacing a block that holds neither Files, nor bitmap, nor block numbers in use. */
  lemma FillBlock(mem: seq<Block>, b: nat, c: Block)
    requires b < |mem| && !mem[b].Files? && !mem[b].Bits? && (c.Words? || c.Raw?)
    requires !IsIndex(mem, b)
    ensures forall x :: IsFile(mem[b := c], x) == IsFile(mem, x) && FileAt(mem[b := c], x) == FileAt(mem, x)
    ensures forall x, i :: Val(mem[b := c], x, i) == Val(mem, x, i)
    ensures SameSlots(mem, mem[b := c])
    ensures forall x: nat :: IsFree(mem[b := c], x) == IsFree(mem, x)
  {
    var mem' := mem[b := c];
    forall x, i ensures Val(mem', x, i) == Val(mem, x, i) {
      assert IsFile(mem, x) == IsFile(mem', x);
      assert IsFile(mem, x) && FileAt(mem, x).indirect != 0 ==> FileAt(mem, x).indirect != b;
    }
  }

  lemma IndexIsOwned(mem: seq<Block>, b: nat)
    ensures IsIndex(mem, b) ==> Owned(mem, b)
    ensures forall l, k :: IsIndex(mem, b) && Exclusive(mem) && Owns(mem, Slot(l, k), b) ==> k == NSLOTS
  {
    if IsIndex(mem, b) {
      var l :| IsFile(mem, l) && FileAt(mem, l).indirect == b && b != 0;
      assert Owns(mem, Slot(l, NSLOTS), b);
    }
  }

  /** A pending block may hold anything: nothing names it. */
  lemma FillPending(mem: seq<Block>, pend: Pending, b: nat, c: Block)
    requires OwnOk(mem, pend) && b in pend && (c.Words? || c.Raw?)
    ensures OwnOk(mem[b := c], pend)
    ensures SameSlots(mem, mem[b := c])
    ensures forall x :: IsFile(mem[b := c], x) == IsFile(mem, x) && FileAt(mem[b := c], x) == FileAt(mem, x)
    ensures forall x, i :: Val(mem[b := c], x, i) == Val(mem, x, i)
  {
    hide Owns, IsFree, IsFile, FileAt, Val, IsIndex, Owned;
    assert !Owned(mem, b) by { PendingUnowned(mem, pend, b); }
    IndexIsOwned(mem, b);
    FillBlock(mem, b, c);
    FillTyped(mem, b, c);
    OwnKept(mem, mem[b := c], pend);
  }

  lemma PendingUnowned(mem: seq<Block>, pend: Pending, b: nat)
    requires Marked(mem, pend) && b in pend
    ensures !Owned(mem, b)
  {
  }

  lemma FillTyped(mem: seq<Block>, b: nat, c: Block)
    requires b < |mem| && IndexTyped(mem) && Trimmed(mem) && !IsIndex(mem, b) && SameSlots(mem, mem[b := c])
    requires forall x :: IsFile(mem[b := c], x) == IsFile(mem, x) && FileAt(mem[b := c], x) == FileAt(mem, x)
    ensures IndexTyped(mem[b := c]) && Trimmed(mem[b := c])
  {
    hide Owns, IsFile, FileAt;
    var mem' := mem[b := c];
    forall x | IsFile(mem', x) && FileAt(mem', x).indirect != 0
      ensures FileAt(mem', x).indirect < |mem'| && mem'[FileAt(mem', x).indirect].Words?
    {
      assert IsFile(mem, x) && FileAt(mem, x) == FileAt(mem', x);
    }
  }

  /** Storing data into a block that a file's block map names. */
  lemma FillData(mem: seq<Block>, pend: Pending, l: Loc, k: nat, b: nat, bytes: seq<byte>)
    requires OwnOk(mem, pend) && Owns(mem, Slot(l, k), b) && k < NSLOTS && b < |mem| && !mem[b].Files?
             && |bytes| == BLKSIZE
    ensures OwnOk(mem[b := Raw(bytes)], pend)
    ensures SameSlots(mem, mem[b := Raw(bytes)])
    ensures forall x, i :: Val(mem[b := Raw(bytes)], x, i) == Val(mem, x, i)
    ensures forall x ::
              IsFile(mem[b := Raw(bytes)], x) == IsFile(mem, x) && FileAt(mem[b := Raw(bytes)], x) == FileAt(mem, x)
  {
    hide Owns, IsFree, IsFile, FileAt, Val, IsIndex;
    IndexIsOwned(mem, b);
    FillBlock(mem, b, Raw(bytes));
    FillTyped(mem, b, Raw(bytes));
    OwnKept(mem, mem[b := Raw(bytes)], pend);
  }

  /** The f_size field. */
  lemma SetSizeOk(mem: seq<Block>, pend: Pending, l: Loc, size: nat)
    requires OwnOk(mem, pend) && IsFile(mem, l)
    requires forall k :: NBlocks(size) <= k < NSLOTS ==> Val(mem, l, k) == 0
    ensures OwnOk(PutFile(mem, l, FileAt(mem, l).(size := size)), pend)
    ensures SameSlots(mem, PutFile(mem, l, FileAt(mem, l).(size := size)))
    ensures forall x, i :: Val(PutFile(mem, l, FileAt(mem, l).(size := size)), x, i) == Val(mem, x, i)
  {
    SizeSlots(mem, l, size);
    hide IsFree;
    OwnKept(mem, PutFile(mem, l, FileAt(mem, l).(size := size)), pend);
  }

  lemma SizeSlots(mem: seq<Block>, l: Loc, size: nat)
    requires IndexTyped(mem) && Trimmed(mem) && IsFile(mem, l)
    requires forall k :: NBlocks(size) <= k < NSLOTS ==> Val(mem, l, k) == 0
    ensures var mem' := PutFile(mem, l, FileAt(mem, l).(size := size));
            && SameSlots(mem, mem') && IndexTyped(mem') && Trimmed(mem')
            && (forall x: nat :: IsFree(mem', x) == IsFree(mem, x))
            && (forall x, i :: Val(mem', x, i) == Val(mem, x, i))
  {
    var mem' := PutFile(mem, l, FileAt(mem, l).(size := size));
    PutFileFiles(mem, l, FileAt(mem, l).(size := size));
    forall x, i ensures Val(mem', x, i) == Val(mem, x, i) {
    }
  }

  lemma PutIndirect(mem: seq<Block>, l: Loc, v: nat)
    requires IsFile(mem, l)
    requires forall k :: NDIRECT <= k < NSLOTS ==> Val(mem, l, k) == 0
    requires v == 0 || (v < |mem| && mem[v] == Words(ZeroPtrs()))
    ensures Renamed(mem, PutFile(mem, l, FileAt(mem, l).(indirect := v)), Slot(l, NSLOTS), v)
    ensures forall x: nat :: IsFree(PutFile(mem, l, FileAt(mem, l).(indirect := v)), x) == IsFree(mem, x)
    ensures forall k :: k != NSLOTS ==> Val(PutFile(mem, l, FileAt(mem, l).(indirect := v)), l, k) == Val(mem, l, k)
  {
    var mem' := PutFile(mem, l, FileAt(mem, l).(indirect := v));
    PutFileFiles(mem, l, FileAt(mem, l).(indirect := v));
    forall x, i | IsFile(mem, x)
      ensures Val(mem', x, i) == if x == l && i == NSLOTS then v else Val(mem, x, i)
    {
    }
  }

  /** A new, cleared indirect block. */
  lemma AttachIndirect(mem: seq<Block>, pend: Pending, l: Loc, b: nat)
    requires OwnOk(mem, pend) && IsFile(mem, l) && FileAt(mem, l).indirect == 0 && b in pend
    requires b < |mem| && mem[b] == Words(ZeroPtrs())
    ensures OwnOk(PutFile(mem, l, FileAt(mem, l).(indirect := b)), pend - {b})
  {
    hide IsFree, Marked, Exclusive;
    PutIndirect(mem, l, b);
    PutFileFiles(mem, l, FileAt(mem, l).(indirect := b));
    EmptySlot(mem, Slot(l, NSLOTS));
    NamePending(mem, pend, PutFile(mem, l, FileAt(mem, l).(indirect := b)), Slot(l, NSLOTS), b);
  }

  /** The end of file_truncate_blocks: the indirect block goes once all its entries are zero. */
  lemma ReleaseIndirect(mem: seq<Block>, pend: Pending, l: Loc)
    requires OwnOk(mem, pend) && IsFile(mem, l) && FileAt(mem, l).indirect != 0
    requires forall k :: NDIRECT <= k < NSLOTS ==> Val(mem, l, k) == 0
    ensures 2 + FileAt(mem, l).indirect / BLKBITSIZE < |mem| && mem[2 + FileAt(mem, l).indirect / BLKBITSIZE].Bits?
    ensures IsFile(PutBit(mem, FileAt(mem, l).indirect, true), l)
    ensures FileAt(PutBit(mem, FileAt(mem, l).indirect, true), l) == FileAt(mem, l)
    ensures OwnOk(PutFile(PutBit(mem, FileAt(mem, l).indirect, true), l, FileAt(mem, l).(indirect := 0)), pend)
  {
    hide IsFree, Marked;
    var b := FileAt(mem, l).indirect;
    PutBitIs(mem, b, true);
    var mem1 := PutBit(mem, b, true);
    BitExclusive(mem, mem1);
    PutIndirect(mem1, l, 0);
    PutFileFiles(mem1, l, FileAt(mem1, l).(indirect := 0));
    Unname(mem, pend, PutFile(mem1, l, FileAt(mem, l).(indirect := 0)), Slot(l, NSLOTS), b);
  }
}
