/** fs/bc.c: the write-back block cache.  The disk is a sequence of blocks written atomically. */
module BlockCache {
  import opened FsTypes

  /** A mapped page of the cache with the hardware's dirty bit. */
  datatype CachePage = CachePage(block: Block, dirty: bool)

  function Through(disk: seq<Block>, pages: map<nat, CachePage>): (s: seq<Block>)
    ensures |s| == |disk|
    ensures forall b :: 0 <= b < |disk| ==> s[b] == if b in pages then pages[b].block else disk[b]
  {
    if disk == [] then []
    else
      var b := |disk| - 1;
      Through(disk[..b], pages) + [if b in pages then pages[b].block else disk[b]]
  }

  class Cache {
    var disk: seq<Block>
    var pages: map<nat, CachePage>
    ghost var images: seq<seq<Block>>       // the disk, initially and after each block write

    /** A clean page is the block it caches. */
    ghost predicate Valid()
      reads this
    {
      && (forall b :: b in pages ==> b < |disk| && (!pages[b].dirty ==> pages[b].block == disk[b]))
      && images != [] && images[|images|-1] == disk
    }

    /** What the file system means by its blocks: the page if there is one, else the disk. */
    ghost function Logical(): (s: seq<Block>)
      reads this
      ensures |s| == |disk|
      ensures forall b :: 0 <= b < |disk| ==> s[b] == if b in pages then pages[b].block else disk[b]
    {
      Through(disk, pages)
    }

    constructor (disk: seq<Block>)
      ensures Valid() && this.disk == disk && pages == map[] && images == [disk] && Logical() == disk
    {
      this.disk, pages, images := disk, map[], [disk];
    }

    predicate IsMapped(b: nat)
      reads this
    {
      b in pages
    }

    predicate IsDirty(b: nat)
      reads this
      requires b in pages
    {
      pages[b].dirty
    }

    /** bc_pgfault: a new page is mapped, filled from the disk (which dirties it) and marked clean. */
    method Fault(b: nat)
      requires Valid() && b < |disk| && !IsMapped(b)
      modifies `pages
      ensures Valid() && IsMapped(b) && !IsDirty(b) && Logical() == old(Logical())
      ensures pages.Keys == old(pages.Keys) + {b}
    {
      pages := pages[b := CachePage(Raw(ZeroBytes()), false)];
      pages := pages[b := CachePage(disk[b], true)];
      pages := pages[b := pages[b].(dirty := false)];
    }

    /** A load from the page of block b. */
    method Load(b: nat) returns (c: Block)
      requires Valid() && b < |disk|
      modifies `pages
      ensures Valid() && Logical() == old(Logical()) && c == Logical()[b]
    {
      if !IsMapped(b) {
        Fault(b);
      }
      c := pages[b].block;
    }

    /** A store to the page of block b. */
    method Store(b: nat, c: Block)
      requires Valid() && b < |disk|
      modifies `pages
      ensures Valid() && Logical() == old(Logical())[b := c]
    {
      if !IsMapped(b) {
        Fault(b);
      }
      pages := pages[b := CachePage(c, true)];
    }

    /** flush_block: afterwards the disk has what the cache means, for this block. */
    method Flush(b: nat)
      requires Valid() && b < |disk|
      modifies this
      ensures Valid() && Logical() == old(Logical())
      ensures disk == old(disk)[b := Logical()[b]]
      ensures images == old(images) || images == old(images) + [disk]
      ensures !IsMapped(b) || !IsDirty(b)
    {
      if !(IsMapped(b) && IsDirty(b)) {
        assert disk == disk[b := Logical()[b]];
        return;
      }
      disk := disk[b := pages[b].block];
      images := images + [disk];
      pages := pages[b := pages[b].(dirty := false)];
    }
  }
}
