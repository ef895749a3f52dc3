/** fs/fs.c, file_flush and fs_sync: what the disk alone knows afterwards; and what a crash can leave. */
module FsFlush {
  import opened FsTypes
  import opened FsOwn
  import opened FsCrash
  import opened FsContents
  import opened BlockCache
  import opened Fs

  /** Block b is on disk as the cache means it. */
  predicate Saved(mem: seq<Block>, disk: seq<Block>, b: nat) { b < |mem| && b < |disk| && disk[b] == mem[b] }

  /** Blocks saved before are still saved. */
  ghost predicate StillSaved(mem: seq<Block>, disk: seq<Block>, disk': seq<Block>) {
    forall b: nat :: Saved(mem, disk, b) ==> Saved(mem, disk', b)
  }

  lemma SaveOne(mem: seq<Block>, disk: seq<Block>, b: nat)
    requires b < |mem| == |disk|
    ensures StillSaved(mem, disk, disk[b := mem[b]]) && Saved(mem, disk[b := mem[b]], b)
  {
  }

  /** The first n file blocks of l are saved. */
  ghost predicate SavedBelow(mem: seq<Block>, disk: seq<Block>, l: Loc, n: nat) {
    forall k: nat :: k < n && k < NSLOTS && Val(mem, l, k) != 0 ==> Saved(mem, disk, Val(mem, l, k))
  }

  lemma SavedNext(mem: seq<Block>, disk: seq<Block>, disk': seq<Block>, l: Loc, n: nat)
    requires SavedBelow(mem, disk, l, n) && StillSaved(mem, disk, disk')
    requires n < NSLOTS && Val(mem, l, n) != 0 ==> Saved(mem, disk', Val(mem, l, n))
    ensures SavedBelow(mem, disk', l, n + 1)
  {
    hide Val;
  }

  lemma SavedRefl(mem: seq<Block>, disk: seq<Block>, l: Loc)
    ensures SavedBelow(mem, disk, l, 0) && StillSaved(mem, disk, disk)
  {
  }

  /** With its block, its indirect block and its data on disk, a file reads from disk as from the cache. */
  lemma SavedContents(mem: seq<Block>, pend: Pending, disk: seq<Block>, l: Loc)
    requires OwnOk(mem, pend) && IsFile(mem, l) && |disk| == |mem| && forall b :: 0 <= b < |mem| ==>
               disk[b].Files? == mem[b].Files?
    requires Saved(mem, disk, l.blk) && SavedBelow(mem, disk, l, NBlocks(FileAt(mem, l).size))
    requires FileAt(mem, l).indirect != 0 ==> Saved(mem, disk, FileAt(mem, l).indirect)
    ensures FileAt(disk, l) == FileAt(mem, l) && Contents(disk, l) == Contents(mem, l)
  {
    hide IsFree, Exclusive, Marked, Layout;
    assert FileAt(disk, l) == FileAt(mem, l);
    forall k ensures Val(disk, l, k) == Val(mem, l, k) {}
    forall p: nat | p < FileAt(mem, l).size
      ensures HasByte(disk, l, p) == HasByte(mem, l, p)
              && (HasByte(mem, l, p) ==> ByteAt(disk, l, p) == ByteAt(mem, l, p))
    {
      InBlocks(p, FileAt(mem, l).size);
      assert p / BLKSIZE < NSLOTS && Val(mem, l, p / BLKSIZE) != 0 ==> Saved(mem, disk, Val(mem, l, p / BLKSIZE));
    }
  }

  lemma InBlocks(p: nat, n: nat)
    requires p < n
    ensures p / BLKSIZE < NBlocks(n)
  {
  }

  lemma DiskKinds(mem: seq<Block>, disk: seq<Block>, images: seq<seq<Block>>, pend: Pending, busy: set<Loc>)
    requires State(mem, disk, images, pend, busy)
    ensures |disk| == |mem| && forall b :: 0 <= b < |mem| ==> disk[b].Files? == mem[b].Files?
    ensures |mem| <= BLKBITSIZE && busy == {} ==> CrashSafe(disk)
    ensures |mem| <= BLKBITSIZE ==> forall i :: 0 <= i < |images| ==> CrashSafe(images[i])
  {
    hide OwnOk, CrashSafe;
    if |mem| <= BLKBITSIZE && busy == {} {
      BehindSafe(mem, pend, disk);
    }
  }

  /** In every state of the file server, between operations and in the middle of them, each disk image
      since the start (one for every block written) is crash-safe. */
  lemma EveryImageSafe(fs: FileSystem)
    requires fs.Valid() && |fs.bc.Logical()| <= BLKBITSIZE
    ensures forall i :: 0 <= i < |fs.bc.images| ==> CrashSafe(fs.bc.images[i])
    ensures CrashSafe(fs.bc.disk)
  {
    hide State, CrashSafe;
    DiskKinds(fs.bc.Logical(), fs.bc.disk, fs.bc.images, fs.pend, fs.busy);
  }

  /** When no File on disk has an indirect block, its direct pointers are all the pointers there are. */
  lemma SmallFilesSafe(img: seq<Block>)
    requires CrashSafe(img) && forall l :: IsFile(img, l) ==> FileAt(img, l).indirect == 0
    ensures forall s: Slot, b: nat :: Owns(img, s, b) ==> b < |img| && !IsFree(img, b)
    ensures Exclusive(img)
  {
    forall s: Slot, b: nat | Owns(img, s, b) ensures Head(s.k) {
      assert FileAt(img, s.loc).indirect == 0;
    }
  }

  /** flush_block of one file block, if it has one. */
  method FlushSlot(fs: FileSystem, l: Loc, k: nat)
    requires fs.Settled() && IsFile(fs.bc.Logical(), l)
    modifies fs.bc, fs`pend, fs`busy
    ensures fs.Settled() && fs.bc.Logical() == old(fs.bc.Logical())
    ensures StillSaved(fs.bc.Logical(), old(fs.bc.disk), fs.bc.disk)
    ensures k < NSLOTS && Val(fs.bc.Logical(), l, k) != 0 ==>
              Saved(fs.bc.Logical(), fs.bc.disk, Val(fs.bc.Logical(), l, k))
  {
    hide State, Val, IsFree, IsFile, FileAt, Grown, OwnOk, Owns, Storable;
    ghost var mem := fs.bc.Logical();
    SavedRefl(mem, fs.bc.disk, l);
    var out := fs.BlockWalk(l, k, false);
    if out != Code(0) {
      if k < NSLOTS {
        NoEntry(mem, l, k);
      }
      return;
    }
    var b := fs.ReadSlot(l, k);
    if b == 0 {
      return;
    }
    StateFacts(mem, fs.bc.disk, fs.bc.images, fs.pend, fs.busy);
    ValOwned(mem, {}, l, k);
    SaveOne(mem, fs.bc.disk, b);
    fs.FlushBlock(b);
  }

  lemma NoEntry(mem: seq<Block>, l: Loc, k: nat)
    requires IndexCost(mem, l, k) != 0
    ensures Val(mem, l, k) == 0
  {
  }

  lemma SavedTrans(mem: seq<Block>, d0: seq<Block>, d1: seq<Block>, d2: seq<Block>)
    requires StillSaved(mem, d0, d1) && StillSaved(mem, d1, d2)
    ensures StillSaved(mem, d0, d2)
  {
  }

  /** file_flush: afterwards the disk alone determines the file. */
  method FileFlush(fs: FileSystem, l: Loc)
    requires fs.Settled() && IsFile(fs.bc.Logical(), l)
    modifies fs.bc, fs`pend, fs`busy
    ensures fs.Settled() && fs.bc.Logical() == old(fs.bc.Logical())
    ensures FileAt(fs.bc.disk, l) == FileAt(fs.bc.Logical(), l)
            && Contents(fs.bc.disk, l) == Contents(fs.bc.Logical(), l)
  {
    hide State, Val, IsFree, IsFile, FileAt, OwnOk, Owns, Saved, StillSaved, SavedBelow, Contents;
    ghost var mem := fs.bc.Logical();
    var f := fs.ReadFile(l);
    SavedRefl(mem, fs.bc.disk, l);
    for i := 0 to NBlocks(f.size)
      invariant fs.Settled() && fs.bc.Logical() == mem
      invariant SavedBelow(mem, fs.bc.disk, l, i)
    {
      ghost var d := fs.bc.disk;
      FlushSlot(fs, l, i);
      SavedNext(mem, d, fs.bc.disk, l, i);
    }
    ghost var d0 := fs.bc.disk;
    StateFacts(mem, fs.bc.disk, fs.bc.images, fs.pend, fs.busy);
    SaveOne(mem, d0, l.blk);
    fs.FlushBlock(l.blk);
    ghost var d1 := fs.bc.disk;
    SavedRefl(mem, d1, l);
    if f.indirect != 0 {
      SlotOwned(mem, l, NSLOTS);
      SaveOne(mem, d1, f.indirect);
      fs.FlushBlock(f.indirect);
    }
    SavedTrans(mem, d0, d1, fs.bc.disk);
    SavedKept(mem, d0, fs.bc.disk, l, NBlocks(f.size));
    SavedHere(mem, d1, fs.bc.disk, l.blk);
    DiskKinds(mem, fs.bc.disk, fs.bc.images, {}, {});
    SavedContents(mem, {}, fs.bc.disk, l);
  }

  lemma SavedKept(mem: seq<Block>, d: seq<Block>, d': seq<Block>, l: Loc, n: nat)
    requires SavedBelow(mem, d, l, n) && StillSaved(mem, d, d')
    ensures SavedBelow(mem, d', l, n)
  {
    hide Val;
  }

  lemma SavedHere(mem: seq<Block>, d: seq<Block>, d': seq<Block>, b: nat)
    requires Saved(mem, d, b) && StillSaved(mem, d, d')
    ensures Saved(mem, d', b)
  {
  }

  /** fs_sync: the disk is what the cache means, from block 1 on. */
  method FsSync(fs: FileSystem)
    requires fs.Settled()
    modifies fs.bc, fs`pend, fs`busy
    ensures fs.Settled() && fs.bc.Logical() == old(fs.bc.Logical()) && |fs.bc.disk| == |fs.bc.Logical()|
    ensures forall b :: 1 <= b < |fs.bc.disk| ==> fs.bc.disk[b] == fs.bc.Logical()[b]
  {
    hide State;
    var i := 1;
    while i < |fs.bc.disk|
      invariant 1 <= i && fs.Settled() && fs.bc.Logical() == old(fs.bc.Logical())
      invariant forall b :: 1 <= b < i && b < |fs.bc.disk| ==> fs.bc.disk[b] == fs.bc.Logical()[b]
    {
      fs.FlushBlock(i);
      i := i + 1;
    }
  }
}
