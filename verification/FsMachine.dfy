/**
  The file server over whole runs: any list of operations on any regular files reads what a table of byte
  sequences says, and leaves only crash-safe disk images behind.
*/
module FsMachine {
  import opened FsTypes
  import opened FsOwn
  import opened FsCrash
  import opened FsContents
  import opened BlockCache
  import opened Fs
  import opened FsFiles
  import opened FsTruncate
  import opened FsWrite
  import opened FsFlush

  datatype Op =
    | ReadF(l: Loc, count: nat, off: nat)
    | WriteF(l: Loc, data: seq<byte>, off: nat)
    | ResizeF(l: Loc, size: nat)
    | FlushF(l: Loc)
    | SyncF

  /** A file as its users know it: a size, and the bytes that have been written and not cut off. */
  datatype Known = Known(size: nat, bytes: map<nat, byte>)
  type Table = map<Loc, Known>

  ghost function Start(mem: seq<Block>, files: set<Loc>): Table
    ensures Start(mem, files).Keys == files
  {
    map l | l in files :: KnownOf(mem, l)
  }

  ghost function KnownOf(mem: seq<Block>, l: Loc): Known { Known(FileAt(mem, l).size, Contents(mem, l)) }

  ghost predicate Names(files: set<Loc>, op: Op) { op.SyncF? || op.l in files }

  ghost function After(t: Table, op: Op): (r: Table)
    ensures Names(t.Keys, op) ==> r.Keys == t.Keys
  {
    match op
    case WriteF(l, data, off) =>
      if l in t then t[l := Known(Max(t[l].size, off + |data|), Written(t[l].bytes, off, data))] else t
    case ResizeF(l, size) => if l in t then t[l := Known(size, Shorter(t[l].bytes, size))] else t
    case _ => t
  }

  ghost function AfterAll(t: Table, ops: seq<Op>): Table {
    if ops == [] then t else After(AfterAll(t, ops[..|ops|-1]), ops[|ops|-1])
  }

  lemma {:induction false} SameFiles(t: Table, ops: seq<Op>)
    requires forall i :: 0 <= i < |ops| ==> Names(t.Keys, ops[i])
    ensures AfterAll(t, ops).Keys == t.Keys
  {
    if ops != [] {
      SameFiles(t, ops[..|ops|-1]);
    }
  }

  lemma AfterNone(t: Table, ops: seq<Op>)
    ensures AfterAll(t, ops[..0]) == t
  {
  }

  lemma AfterNext(t: Table, ops: seq<Op>, n: nat)
    requires n < |ops|
    ensures AfterAll(t, ops[..n+1]) == After(AfterAll(t, ops[..n]), ops[n])
  {
    assert ops[..n+1][..n] == ops[..n];
  }

  /** What an operation shows its caller: for a read, as many bytes as the file has there, and the known
      one at every known position. */
  ghost predicate Shown(t: Table, op: Op, buf: seq<byte>) {
    op.ReadF? && op.l in t ==>
      && |buf| == (if op.off >= t[op.l].size then 0
                   else if op.off + op.count <= t[op.l].size then op.count else t[op.l].size - op.off)
      && forall p :: op.off <= p < op.off + |buf| && p in t[op.l].bytes ==> buf[p - op.off] == t[op.l].bytes[p]
  }

  /** The file system holds everything the table knows. */
  ghost predicate Holds(t: Table, mem: seq<Block>) {
    forall l :: l in t ==> Regular(mem, l) && FileAt(mem, l).size == t[l].size && Extends(t[l].bytes, Contents(mem, l))
  }

  lemma StartHolds(mem: seq<Block>, files: set<Loc>)
    requires forall l :: l in files ==> Regular(mem, l)
    ensures Holds(Start(mem, files), mem)
  {
  }

  lemma HoldsOthers(t: Table, mem: seq<Block>, mem': seq<Block>, l: Loc, k: Known)
    requires Holds(t, mem) && l in t && OthersSame(mem, mem', l)
    requires Regular(mem', l) && FileAt(mem', l).size == k.size && Extends(k.bytes, Contents(mem', l))
    ensures Holds(t[l := k], mem')
  {
    hide Regular, FileAt, Contents, Extends;
  }

  lemma ReadHolds(t: Table, mem: seq<Block>, mem': seq<Block>, l: Loc, count: nat, off: nat, buf: seq<byte>)
    requires Holds(t, mem) && l in t && Grown(mem, mem', l)
    requires |buf| == ReadLength(FileAt(mem, l).size, count, off) && ReadsAs(Contents(mem', l), off, buf)
    ensures Holds(t, mem') && Shown(t, ReadF(l, count, off), buf)
  {
    hide Regular, FileAt, Contents, Grown, OthersSame;
    GrownRegular(mem, mem', l);
    GrownOthers(mem, mem', l);
    HoldsOthers(t, mem, mem', l, t[l]);
    assert t[l := t[l]] == t;
  }

  lemma WriteHolds(t: Table, mem: seq<Block>, mem': seq<Block>, l: Loc, data: seq<byte>, off: nat)
    requires Holds(t, mem) && l in t && OthersSame(mem, mem', l) && Regular(mem', l)
    requires FileAt(mem', l).size == Max(FileAt(mem, l).size, off + |data|)
    requires Extends(Written(Contents(mem, l), off, data), Contents(mem', l))
    ensures Holds(After(t, WriteF(l, data, off)), mem')
  {
    hide Regular, FileAt, Contents, OthersSame;
    HoldsOthers(t, mem, mem', l, After(t, WriteF(l, data, off))[l]);
  }

  lemma ResizeHolds(t: Table, mem: seq<Block>, mem': seq<Block>, l: Loc, size: nat)
    requires Holds(t, mem) && l in t && Resized(mem, mem', l, size) && Regular(mem', l)
    ensures Holds(After(t, ResizeF(l, size)), mem')
  {
    hide Regular, FileAt, Contents, OthersSame;
    HoldsOthers(t, mem, mem', l, After(t, ResizeF(l, size))[l]);
  }

  /** One operation; not ok when the server panics or a file grows past its maximal size. */
  method Perform(fs: FileSystem, ghost t: Table, op: Op) returns (ok: bool, buf: seq<byte>)
    requires fs.Settled() && Names(t.Keys, op) && Holds(t, fs.bc.Logical())
    modifies fs.bc, fs`pend, fs`busy
    ensures fs.Valid()
    ensures ok ==> fs.Settled() && Holds(After(t, op), fs.bc.Logical()) && Shown(t, op, buf)
    ensures op.ResizeF? || op.FlushF? || op.SyncF? ==> ok
    ensures op.ReadF? && t[op.l].size <= MAXFILESIZE ==>
              Covers(t[op.l].bytes, op.off, ReadLength(t[op.l].size, op.count, op.off)) ==> ok
    ensures op.WriteF? && op.off + |op.data| <= MAXFILESIZE ==>
              |FreeSet(old(fs.bc.Logical()))| >= Chunks(op.off, |op.data|) + 1 ==> ok
  {
    hide State, Owns, Val, IsFree, IsFile, Regular, FileAt, Contents, Grown, OthersSame, Resized, FreeSet, Chunks,
         ReadsAs, Extends, Written;
    ghost var mem := fs.bc.Logical();
    ok, buf := true, [];
    match op
    case ReadF(l, count, off) =>
      var out;
      KnownCovers(t, mem, l, off, ReadLength(t[l].size, count, off));
      out, buf := FileRead(fs, l, count, off);
      ok := out.Code? && out.r >= 0;
      if ok {
        ReadHolds(t, mem, fs.bc.Logical(), l, count, off, buf);
      }
    case WriteF(l, data, off) =>
      var out := FileWrite(fs, l, data, off);
      ok := out.Code? && out.r >= 0;
      if ok {
        WriteHolds(t, mem, fs.bc.Logical(), l, data, off);
      }
    case ResizeF(l, size) =>
      SetSize(fs, l, size);
      ResizeHolds(t, mem, fs.bc.Logical(), l, size);
    case FlushF(l) =>
      RegularIsFile(mem, l);
      FileFlush(fs, l);
    case SyncF =>
      FsSync(fs);
  }

  lemma KnownCovers(t: Table, mem: seq<Block>, l: Loc, off: nat, n: nat)
    requires Holds(t, mem) && l in t
    ensures Covers(t[l].bytes, off, n) ==> Covers(Contents(mem, l), off, n)
  {
    hide Regular, FileAt, Contents;
  }

  /** Every read shows, at every position, the byte last written there, as long as it was not cut off;
      and a crash at any moment finds a disk that is safe to restart from. */
  method Execute(fs: FileSystem, ghost files: set<Loc>, ops: seq<Op>) returns (shown: seq<seq<byte>>)
    requires fs.Settled() && forall l :: l in files ==> Regular(fs.bc.Logical(), l)
    requires forall i :: 0 <= i < |ops| ==> Names(files, ops[i])
    modifies fs.bc, fs`pend, fs`busy
    ensures fs.Valid() && |shown| <= |ops|
    ensures forall i :: 0 <= i < |shown| ==>
              Shown(AfterAll(Start(old(fs.bc.Logical()), files), ops[..i]), ops[i], shown[i])
    ensures |shown| == |ops| ==>
              fs.Settled() && Holds(AfterAll(Start(old(fs.bc.Logical()), files), ops), fs.bc.Logical())
    ensures |fs.bc.Logical()| <= BLKBITSIZE ==> forall i :: 0 <= i < |fs.bc.images| ==> CrashSafe(fs.bc.images[i])
  {
    hide State, Regular, Start, After, AfterAll, Shown, Holds, CrashSafe, Names;
    ghost var t0 := Start(fs.bc.Logical(), files);
    StartHolds(fs.bc.Logical(), files);
    AfterNone(t0, ops);
    shown := [];
    while |shown| < |ops|
      invariant |shown| <= |ops| && fs.Settled()
      invariant Holds(AfterAll(t0, ops[..|shown|]), fs.bc.Logical())
      invariant forall i :: 0 <= i < |shown| ==> Shown(AfterAll(t0, ops[..i]), ops[i], shown[i])
    {
      var n := |shown|;
      SameFiles(t0, ops[..n]);
      var ok, buf := Perform(fs, AfterAll(t0, ops[..n]), ops[n]);
      if !ok {
        break;
      }
      AfterNext(t0, ops, n);
      shown := shown + [buf];
    }
    assert ops[..|ops|] == ops;
    if |fs.bc.Logical()| <= BLKBITSIZE {
      EveryImageSafe(fs);
    }
  }
}
