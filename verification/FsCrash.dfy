/** Crash ordering: what the disk says about block numbers is always safe to restart from. */
module FsCrash {
  import opened FsTypes
  import opened FsOwn

  /** The block pointers that lie in a struct File: the direct ones and f_indirect. */
  predicate Head(k: nat) { k < NDIRECT || k == NSLOTS }

  /** In this disk image every block pointer of a File is marked in use, and no two name the same block. */
  ghost predicate CrashSafe(img: seq<Block>) {
    && (forall s: Slot, b: nat :: Head(s.k) && Owns(img, s, b) ==> b < |img| && !IsFree(img, b))
    && (forall s: Slot, s': Slot, b: nat :: Head(s.k) && Head(s'.k) && Owns(img, s, b) && Owns(img, s', b) ==> s == s')
  }

  ghost predicate SameKinds(mem: seq<Block>, disk: seq<Block>) {
    && |disk| == |mem|
    && forall b :: 0 <= b < |mem| ==> disk[b].Files? == mem[b].Files? && disk[b].Bits? == mem[b].Bits?
                                      && (mem[b].Files? ==> |disk[b].files| == |mem[b].files|)
  }

  /** How the disk may lag behind memory: it lacks pointers, but has no others (except in files being
      truncated), and it marks more blocks in use, never fewer. */
  ghost predicate Behind(mem: seq<Block>, disk: seq<Block>, busy: set<Loc>) {
    && SameKinds(mem, disk)
    && (forall s: Slot, b: nat :: Head(s.k) && s.loc !in busy && Owns(disk, s, b) ==> Owns(mem, s, b))
    && (forall b: nat :: IsFree(disk, b) ==> IsFree(mem, b))
  }

  lemma BehindSafe(mem: seq<Block>, pend: Pending, disk: seq<Block>)
    requires OwnOk(mem, pend) && Behind(mem, disk, {})
    ensures CrashSafe(disk)
  {
    hide Owns, IsFree;
    forall s: Slot, b: nat | Head(s.k) && Owns(disk, s, b) ensures b < |disk| && !IsFree(disk, b) {
      assert Owns(mem, s, b);
      assert Owned(mem, b);
    }
  }

  /** Writing any block keeps the relation, and writing a file's own block ends its truncation. */
  lemma FlushBehind(mem: seq<Block>, disk: seq<Block>, busy: set<Loc>, x: nat)
    requires Behind(mem, disk, busy) && x < |mem|
    ensures Behind(mem, disk[x := mem[x]], set l | l in busy && l.blk != x)
  {
    var disk' := disk[x := mem[x]];
    forall s: Slot, b: nat | Head(s.k) && !(s.loc in busy && s.loc.blk != x) && Owns(disk', s, b)
      ensures Owns(mem, s, b)
    {
      if s.loc.blk != x {
        assert Owns(disk, s, b);
      }
    }
    forall b: nat | IsFree(disk', b) ensures IsFree(mem, b) {
      if 2 + b / BLKBITSIZE != x {
        assert IsFree(disk, b);
      }
    }
  }

  /** Stores to memory that keep the pointers of files not being truncated and free no fewer blocks. */
  lemma StoreBehind(mem: seq<Block>, mem': seq<Block>, disk: seq<Block>, busy: set<Loc>, busy': set<Loc>)
    requires Behind(mem, disk, busy) && SameKinds(mem, mem') && busy <= busy'
    requires forall s: Slot, b: nat :: s.loc !in busy' && Owns(mem, s, b) ==> Owns(mem', s, b)
    requires forall b: nat :: IsFree(mem, b) ==> IsFree(mem', b)
    ensures Behind(mem', disk, busy')
  {
    hide Owns, IsFree;
  }

  /** Taking a block and writing the bitmap at once; one bitmap block covers the whole disk. */
  lemma TakeBehind(mem: seq<Block>, disk: seq<Block>, busy: set<Loc>, b: nat)
    requires Layout(mem) && Behind(mem, disk, busy) && |mem| <= BLKBITSIZE && b < |mem|
    ensures 2 + b / BLKBITSIZE == 2 < |mem| && mem[2].Bits?
    ensures Behind(PutBit(mem, b, false), disk[2 := PutBit(mem, b, false)[2]], busy)
  {
    var mem' := PutBit(mem, b, false);
    PutBitIs(mem, b, false);
    var disk' := disk[2 := mem'[2]];
    forall x: nat | IsFree(disk', x) ensures IsFree(mem', x) {
    }
    forall s: Slot, x: nat | Head(s.k) && s.loc !in busy && Owns(disk', s, x) ensures Owns(mem', s, x) {
      assert Owns(disk, s, x);
    }
  }
}
