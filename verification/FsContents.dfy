/** What a file holds, as a finite map from positions to bytes; holes have no byte. */
module FsContents {
  import opened FsTypes
  import opened FsOwn

  predicate HasByte(mem: seq<Block>, l: Loc, pos: nat) {
    var b := Val(mem, l, pos / BLKSIZE);
    IsFile(mem, l) && pos < FileAt(mem, l).size && pos / BLKSIZE < NSLOTS && 0 != b < |mem| && !mem[b].Files?
  }

  function ByteAt(mem: seq<Block>, l: Loc, pos: nat): byte
    requires HasByte(mem, l, pos)
  {
    Bytes(mem[Val(mem, l, pos / BLKSIZE)])[pos % BLKSIZE]
  }

  ghost function Contents(mem: seq<Block>, l: Loc): map<nat, byte> {
    map pos | 0 <= pos < FileAt(mem, l).size && HasByte(mem, l, pos) :: ByteAt(mem, l, pos)
  }

  /** m' has every byte of m. */
  ghost predicate Extends(m: map<nat, byte>, m': map<nat, byte>) {
    forall p :: p in m ==> p in m' && m'[p] == m[p]
  }

  /** Only the block map of l has grown: nothing named before has moved or changed. */
  ghost predicate Grown(mem: seq<Block>, mem': seq<Block>, l: Loc) {
    && |mem'| == |mem|
    && (forall x :: IsFile(mem', x) == IsFile(mem, x) && FileAt(mem', x).size == FileAt(mem, x).size)
    && (forall s: Slot, b: nat :: Owns(mem, s, b) ==> Owns(mem', s, b))
    && (forall s: Slot, b: nat :: Owns(mem', s, b) ==> Owns(mem, s, b) || (s.loc == l && !(b < |mem| && mem[b].Files?)))
    && (forall s: Slot, b: nat :: Owns(mem, s, b) && s.k < NSLOTS && b < |mem| && !mem[b].Files? ==> mem'[b] == mem[b])
    && (forall b :: 0 <= b < |mem| ==> (mem'[b].Files? <==> mem[b].Files?))
  }

  lemma GrownTrans(mem: seq<Block>, mem1: seq<Block>, mem2: seq<Block>, l: Loc)
    requires Grown(mem, mem1, l) && Grown(mem1, mem2, l)
    ensures Grown(mem, mem2, l)
  {
    hide Owns, IsFile, FileAt;
  }

  lemma GrownRefl(mem: seq<Block>, l: Loc)
    ensures Grown(mem, mem, l)
  {
  }

  lemma ByteOwner(mem: seq<Block>, l: Loc, pos: nat)
    requires HasByte(mem, l, pos)
    ensures Owns(mem, Slot(l, pos / BLKSIZE), Val(mem, l, pos / BLKSIZE))
  {
  }

  lemma OwnerByte(mem: seq<Block>, l: Loc, pos: nat, b: nat)
    requires Owns(mem, Slot(l, pos / BLKSIZE), b) && pos < FileAt(mem, l).size && pos / BLKSIZE < NSLOTS && b < |mem|
             && !mem[b].Files?
    ensures HasByte(mem, l, pos) && ByteAt(mem, l, pos) == Bytes(mem[b])[pos % BLKSIZE]
  {
  }

  lemma GrownContents(mem: seq<Block>, mem': seq<Block>, l: Loc)
    requires Grown(mem, mem', l)
    ensures Extends(Contents(mem, l), Contents(mem', l))
    ensures forall x :: x != l ==> Contents(mem', x) == Contents(mem, x)
  {
    hide Owns, Val, IsFile, FileAt, HasByte, ByteAt;
    forall x, pos: nat | HasByte(mem, x, pos)
      ensures HasByte(mem', x, pos) && ByteAt(mem', x, pos) == ByteAt(mem, x, pos)
    {
      ByteOwner(mem, x, pos);
      InFile(mem, x, pos);
      OwnerByte(mem', x, pos, Val(mem, x, pos / BLKSIZE));
      OwnerByte(mem, x, pos, Val(mem, x, pos / BLKSIZE));
    }
    forall x, pos: nat | HasByte(mem', x, pos) && x != l
      ensures HasByte(mem, x, pos)
    {
      ByteOwner(mem', x, pos);
      InFile(mem', x, pos);
      OwnerByte(mem, x, pos, Val(mem', x, pos / BLKSIZE));
    }
    assert forall x :: FileAt(mem', x).size == FileAt(mem, x).size;
    forall x | x != l ensures Contents(mem', x) == Contents(mem, x) {
    }
  }

  lemma InFile(mem: seq<Block>, l: Loc, pos: nat)
    requires HasByte(mem, l, pos)
    ensures pos < FileAt(mem, l).size && pos / BLKSIZE < NSLOTS && Val(mem, l, pos / BLKSIZE) < |mem|
            && !mem[Val(mem, l, pos / BLKSIZE)].Files?
  {
  }

  /** The bytes of a block replaced from position at on. */
  function Patch(was: seq<byte>, at: nat, data: seq<byte>): (r: seq<byte>)
    requires at + |data| <= |was|
    ensures |r| == |was|
    ensures forall i :: 0 <= i < |was| ==> r[i] == if at <= i < at + |data| then data[i - at] else was[i]
  {
    was[..at] + data + was[at + |data|..]
  }

  predicate Within(off: nat, n: nat, p: int) { off <= p < off + n }

  /** What a write of data at off makes of a file's contents. */
  ghost function Written(m: map<nat, byte>, off: nat, data: seq<byte>): (r: map<nat, byte>)
    ensures forall p :: p in r <==> p in m || off <= p < off + |data|
    ensures forall p :: p in r ==> r[p] == if off <= p < off + |data| then data[p - off] else m[p]
  {
    m + map p | 0 <= p < off + |data| && Within(off, |data|, p) :: data[p - off]
  }

  /** Storing a chunk into block k of file l. */
  lemma ChunkContents(mem: seq<Block>, pend: Pending, l: Loc, b: nat, pos: nat, data: seq<byte>)
    requires OwnOk(mem, pend) && Owns(mem, Slot(l, pos / BLKSIZE), b) && pos / BLKSIZE < NSLOTS && b < |mem|
             && !mem[b].Files?
    requires pos % BLKSIZE + |data| <= BLKSIZE && pos + |data| <= FileAt(mem, l).size
    ensures var mem' := mem[b := Raw(Patch(Bytes(mem[b]), pos % BLKSIZE, data))];
            && Contents(mem', l) == Written(Contents(mem, l), pos, data)
            && forall x :: x != l ==> Contents(mem', x) == Contents(mem, x)
  {
    hide Owns, Val, IsFile, FileAt, HasByte, ByteAt, Bytes, OwnOk, Patch;
    var page := Patch(Bytes(mem[b]), pos % BLKSIZE, data);
    PatchLength(Bytes(mem[b]), pos % BLKSIZE, data);
    var mem' := mem[b := Raw(page)];
    FillData(mem, pend, l, pos / BLKSIZE, b, page);
    forall x, p: nat ensures HasByte(mem', x, p) == HasByte(mem, x, p) { SameHas(mem, mem', x, p); }
    forall x, p: nat | HasByte(mem, x, p)
      ensures ByteAt(mem', x, p) == if x == l && pos <= p < pos + |data| then data[p - pos] else ByteAt(mem, x, p)
    {
      ByteOwner(mem, x, p);
      InFile(mem, x, p);
      ChunkByte(mem, pend, l, b, pos, data, x, p);
    }
    forall p | pos <= p < pos + |data| ensures HasByte(mem, l, p) {
      assert p / BLKSIZE == pos / BLKSIZE;
      OwnerByte(mem, l, p, b);
    }
    forall x ensures FileAt(mem', x) == FileAt(mem, x) {}
    forall x | x != l ensures Contents(mem', x) == Contents(mem, x) {}
  }

  lemma SameHas(mem: seq<Block>, mem': seq<Block>, x: Loc, p: nat)
    requires |mem'| == |mem| && IsFile(mem', x) == IsFile(mem, x) && FileAt(mem', x) == FileAt(mem, x)
    requires Val(mem', x, p / BLKSIZE) == Val(mem, x, p / BLKSIZE)
    requires forall b :: 0 <= b < |mem| ==> mem'[b].Files? == mem[b].Files?
    ensures HasByte(mem', x, p) == HasByte(mem, x, p)
  {
  }

  lemma PatchLength(was: seq<byte>, at: nat, data: seq<byte>)
    requires at + |data| <= |was|
    ensures |Patch(was, at, data)| == |was|
  {
  }

  lemma RawBytes(s: seq<byte>)
    requires |s| == BLKSIZE
    ensures Bytes(Raw(s)) == s
  {
  }

  lemma ChunkByte(mem: seq<Block>, pend: Pending, l: Loc, b: nat, pos: nat, data: seq<byte>, x: Loc, p: nat)
    requires OwnOk(mem, pend) && Owns(mem, Slot(l, pos / BLKSIZE), b) && b < |mem| && !mem[b].Files?
    requires pos % BLKSIZE + |data| <= BLKSIZE
    requires HasByte(mem, x, p) && |Patch(Bytes(mem[b]), pos % BLKSIZE, data)| == BLKSIZE
    requires HasByte(mem[b := Raw(Patch(Bytes(mem[b]), pos % BLKSIZE, data))], x, p)
    requires Val(mem[b := Raw(Patch(Bytes(mem[b]), pos % BLKSIZE, data))], x, p / BLKSIZE) == Val(mem, x, p / BLKSIZE)
    ensures ByteAt(mem[b := Raw(Patch(Bytes(mem[b]), pos % BLKSIZE, data))], x, p) ==
              if x == l && pos <= p < pos + |data| then data[p - pos] else ByteAt(mem, x, p)
  {
    hide Val, Bytes, IsFree, Marked, IndexTyped, Trimmed, Layout;
    ByteOwner(mem, x, p);
    RawBytes(Patch(Bytes(mem[b]), pos % BLKSIZE, data));
    if Val(mem, x, p / BLKSIZE) == b {
      assert Owns(mem, Slot(x, p / BLKSIZE), b);
      assert x == l && p / BLKSIZE == pos / BLKSIZE;
      assert p == p / BLKSIZE * BLKSIZE + p % BLKSIZE && pos == pos / BLKSIZE * BLKSIZE + pos % BLKSIZE;
    }
  }

  // ---------------------------------------------------------------- how a block map grows

  lemma TakeGrown(mem: seq<Block>, pend: Pending, b: nat, l: Loc)
    requires OwnOk(mem, pend) && b < |mem|
    ensures 2 + b / BLKBITSIZE < |mem| && mem[2 + b / BLKBITSIZE].Bits?
    ensures Grown(mem, PutBit(mem, b, false), l)
    ensures forall x, k :: Val(PutBit(mem, b, false), x, k) == Val(mem, x, k)
  {
    hide Owns;
    PutBitIs(mem, b, false);
    var mem' := PutBit(mem, b, false);
    forall s: Slot, x: nat | Owns(mem, s, x) && s.k < NSLOTS && x < |mem| && !mem[x].Files?
      ensures mem'[x] == mem[x]
    {
      assert !Reserved(|mem|, x);
    }
  }

  /** memset(diskaddr(blockno), 0, BLKSIZE) */
  lemma ClearGrown(mem: seq<Block>, pend: Pending, b: nat, l: Loc)
    requires OwnOk(mem, pend) && b in pend
    ensures OwnOk(mem[b := Words(ZeroPtrs())], pend)
    ensures Grown(mem, mem[b := Words(ZeroPtrs())], l)
    ensures forall x, k :: Val(mem[b := Words(ZeroPtrs())], x, k) == Val(mem, x, k)
    ensures forall x: nat :: IsFree(mem[b := Words(ZeroPtrs())], x) == IsFree(mem, x)
    ensures !mem[b].Files? && !mem[b].Bits?
  {
    hide Owns, IsFree, Val, FileAt, IsFile;
    FillPending(mem, pend, b, Words(ZeroPtrs()));
    PendingUnowned(mem, pend, b);
    FreeKept(mem, b, Words(ZeroPtrs()));
  }

  lemma FreeKept(mem: seq<Block>, b: nat, c: Block)
    requires b < |mem| && !mem[b].Bits? && !c.Bits?
    ensures forall x: nat :: IsFree(mem[b := c], x) == IsFree(mem, x)
  {
  }

  /** f->f_indirect = blockno */
  lemma IndexGrown(mem: seq<Block>, pend: Pending, l: Loc, b: nat)
    requires OwnOk(mem, pend) && IsFile(mem, l) && FileAt(mem, l).indirect == 0 && b in pend
    requires b < |mem| && mem[b] == Words(ZeroPtrs())
    ensures Grown(mem, PutFile(mem, l, FileAt(mem, l).(indirect := b)), l)
    ensures forall k :: k != NSLOTS ==> Val(PutFile(mem, l, FileAt(mem, l).(indirect := b)), l, k) == Val(mem, l, k)
    ensures forall x: nat :: IsFree(PutFile(mem, l, FileAt(mem, l).(indirect := b)), x) == IsFree(mem, x)
  {
    hide Owns, IsFree, OwnOk, Val;
    NoEntries(mem, l);
    PutIndirect(mem, l, b);
    PutFileFiles(mem, l, FileAt(mem, l).(indirect := b));
    EmptySlot(mem, Slot(l, NSLOTS));
    RenamedGrown(mem, PutFile(mem, l, FileAt(mem, l).(indirect := b)), Slot(l, NSLOTS), b);
  }

  lemma NoEntries(mem: seq<Block>, l: Loc)
    requires FileAt(mem, l).indirect == 0
    ensures forall k :: NDIRECT <= k <= NSLOTS ==> Val(mem, l, k) == 0
  {
  }

  lemma RenamedGrown(mem: seq<Block>, mem': seq<Block>, t: Slot, b: nat)
    requires Renamed(mem, mem', t, b) && (forall x: nat :: !Owns(mem, t, x)) && !(b < |mem| && mem[b].Files?)
    requires |mem'| == |mem| && forall x ::
               IsFile(mem', x) == IsFile(mem, x) && FileAt(mem', x).size == FileAt(mem, x).size
    requires forall x :: 0 <= x < |mem| ==> (mem'[x].Files? <==> mem[x].Files?)
    requires forall s: Slot, x: nat :: Owns(mem, s, x) && s.k < NSLOTS && x < |mem| && !mem[x].Files? ==>
               mem'[x] == mem[x]
    ensures Grown(mem, mem', t.loc)
  {
    hide Owns, IsFile, FileAt;
  }

  /** Regular files stay regular: the blocks that are added are not directory blocks. */
  lemma RegularGrown(mem: seq<Block>, mem': seq<Block>, l: Loc, x: Loc)
    requires Regular(mem, x) && Grown(mem, mem', l)
    ensures Regular(mem', x)
  {
    forall k | 0 <= k < NSLOTS && 0 != Val(mem', x, k) < |mem'| ensures !mem'[Val(mem', x, k)].Files? {
      assert Owns(mem', Slot(x, k), Val(mem', x, k));
    }
  }

  /** *pdiskbno = blkno */
  lemma SlotGrown(mem: seq<Block>, pend: Pending, l: Loc, k: nat, b: nat)
    requires OwnOk(mem, pend) && Storable(mem, l, k) && Val(mem, l, k) == 0 && b in pend
    ensures Grown(mem, PutSlot(mem, l, k, b), l)
    ensures forall x: nat :: IsFree(PutSlot(mem, l, k, b), x) == IsFree(mem, x)
  {
    assert b < |mem| && !mem[b].Files?;
    hide Layout, Marked, Trimmed;
    PutSlotRenames(mem, l, k, b);
    EmptySlot(mem, Slot(l, k));
    var mem' := PutSlot(mem, l, k, b);
    assert k >= NDIRECT ==> Owns(mem, Slot(l, NSLOTS), FileAt(mem, l).indirect);
    forall s: Slot, x: nat | Owns(mem, s, x) && s.k < NSLOTS && x < |mem| && !mem[x].Files?
      ensures mem'[x] == mem[x]
    {
    }
  }
}
