/**
  What a page fault of a user program leaves in its memory besides the program's own stores, and what it
  therefore does not leave: two runs of the eager machine, one with the words of the faults and one without,
  agree at every word that is not marked.
*/
module CowMarks {
  import opened Mmu
  import opened Mappings
  import opened Cow

  /** One word of one environment's memory. */
  datatype Spot = Spot(env: nat, vpn: nat, off: nat)

  /** The same pages, with the same words except at the marked ones. */
  ghost predicate SameBut(m: Copies, m': Copies, marks: set<Spot>) {
    && m.Keys == m'.Keys
    && forall p: Place, off: nat :: p in m && off < NENTRIES && Spot(p.env, p.vpn, off) !in marks ==>
         m[p][off] == m'[p][off]
  }

  /** What a fault does on its own account: the frame and the handler's stack, copying the page, the return
      address. */
  predicate Aside(op: Op) { op.Fill? || op.Copy? || op.Write? }

  /** The words it writes. */
  function Touched(op: Op): (r: set<Spot>)
    ensures op.Write? ==> r == {Spot(op.env, op.vpn, op.off)}
    ensures op.Fill? ==> forall x :: x in r <==> x.env == op.env && x.vpn == UXSTACK_VPN && x.off < op.n
  {
    match op
    case Write(e, v, off, _) => {Spot(e, v, off)}
    case Fill(e, n, _) => set off | 0 <= off < n :: Spot(e, UXSTACK_VPN, off)
    case _ => {}
  }

  /** The marks after an action of the program: a store overwrites one, a new page has none, and a fork
      gives the child the parent's. */
  function Spread(marks: set<Spot>, op: Op): set<Spot> {
    match op
    case Write(_, _, _, _) => marks - Touched(op)
    case Alloc(e, v, _) => set x | x in marks && !(x.env == e && x.vpn == v)
    case Unmap(e, v) => set x | x in marks && !(x.env == e && x.vpn == v)
    case Exit(e) => set x | x in marks && x.env != e
    case Fork(e, c) => Inherited(marks, e, c, UXSTACK_VPN)
    case ForkShort(e, c, n) => Inherited(marks, e, c, n)
    case _ => marks
  }

  function Inherited(marks: set<Spot>, e: nat, c: nat, n: nat): (r: set<Spot>)
    ensures forall x :: x in r <==> x in marks || (x.env == c && x.vpn < n && Spot(e, x.vpn, x.off) in marks)
  {
    marks + set x | x in marks && x.env == e && x.vpn < n :: Spot(c, x.vpn, x.off)
  }

  lemma SameStep(m: Copies, m': Copies, marks: set<Spot>, op: Op)
    requires SameBut(m, m', marks)
    ensures SameBut(EagerStep(m, op), EagerStep(m', op), Spread(marks, op))
  {
    match op
    case Fork(e, c) => SameCopy(m, m', marks, e, c, UXSTACK_VPN);
    case ForkShort(e, c, n) => SameCopy(m, m', marks, e, c, n);
    case _ =>
  }

  lemma SameCopy(m: Copies, m': Copies, marks: set<Spot>, e: nat, c: nat, n: nat)
    requires SameBut(m, m', marks)
    ensures SameBut(EagerCopy(m, e, c, n), EagerCopy(m', e, c, n), Inherited(marks, e, c, n))
  {
  }

  lemma AsideStep(m: Copies, m': Copies, marks: set<Spot>, op: Op)
    requires SameBut(m, m', marks) && Aside(op)
    ensures SameBut(EagerStep(m, op), m', marks + Touched(op))
  {
  }

  // ---------------------------------------------------------------- whole runs

  /** The asides of each action, then the action, one after the other. */
  function Joined(asides: seq<seq<Op>>, ops: seq<Op>): seq<Op>
    requires |asides| == |ops|
  {
    if ops == [] then []
    else Joined(asides[..|ops|-1], ops[..|ops|-1]) + (asides[|ops|-1] + [ops[|ops|-1]])
  }

  lemma JoinedNext(asides: seq<seq<Op>>, ops: seq<Op>, aside: seq<Op>, op: Op)
    requires |asides| == |ops|
    ensures Joined(asides + [aside], ops + [op]) == Joined(asides, ops) + (aside + [op])
  {
    assert (asides + [aside])[..|ops|] == asides && (ops + [op])[..|ops|] == ops;
  }

  lemma JoinedNone(m: Copies)
    ensures EagerRun(m, Joined([], [])) == m
  {
  }

  function TouchedAll(ops: seq<Op>): set<Spot> {
    if ops == [] then {} else TouchedAll(ops[..|ops|-1]) + Touched(ops[|ops|-1])
  }

  /** The words that faults have written and the program has not overwritten since. */
  function Marks(asides: seq<seq<Op>>, ops: seq<Op>): set<Spot>
    requires |asides| == |ops|
  {
    if ops == [] then {}
    else Spread(Marks(asides[..|ops|-1], ops[..|ops|-1]) + TouchedAll(asides[|ops|-1]), ops[|ops|-1])
  }

  predicate AllAside(ops: seq<Op>) { forall i :: 0 <= i < |ops| ==> Aside(ops[i]) }

  lemma {:induction false} AsidesStep(m: Copies, m': Copies, marks: set<Spot>, ops: seq<Op>)
    requires SameBut(m, m', marks) && AllAside(ops)
    ensures SameBut(EagerRun(m, ops), m', marks + TouchedAll(ops))
    decreases |ops|
  {
    hide SameBut, EagerStep;
    var was := marks + TouchedAll(ops);
    if ops == [] {
      assert was == marks;
    } else {
      var front := ops[..|ops|-1];
      AsidesStep(m, m', marks, front);
      AsideStep(EagerRun(m, front), m', marks + TouchedAll(front), ops[|ops|-1]);
      assert was == marks + TouchedAll(front) + Touched(ops[|ops|-1]);
    }
  }

  /** With and without the asides: the same pages, and the same words where there is no mark. */
  lemma {:induction false} SameRun(m: Copies, asides: seq<seq<Op>>, ops: seq<Op>)
    requires |asides| == |ops| && forall i :: 0 <= i < |ops| ==> AllAside(asides[i])
    ensures SameBut(EagerRun(m, Joined(asides, ops)), EagerRun(m, ops), Marks(asides, ops))
    decreases |ops|
  {
    if ops != [] {
      hide SameBut, EagerStep, Spread;
      var last := |ops| - 1;
      var before, now := Joined(asides[..last], ops[..last]), asides[last] + [ops[last]];
      SameRun(m, asides[..last], ops[..last]);
      RunOn(m, before, now);
      RunOn(EagerRun(m, before), asides[last], [ops[last]]);
      var m1 := EagerRun(EagerRun(m, before), asides[last]);
      assert [ops[last]][..0] == [];
      assert EagerRun(m1, [ops[last]]) == EagerStep(m1, ops[last]);
      AsidesStep(EagerRun(m, before), EagerRun(m, ops[..last]), Marks(asides[..last], ops[..last]), asides[last]);
      SameStep(m1, EagerRun(m, ops[..last]), Marks(asides[..last], ops[..last]) + TouchedAll(asides[last]), ops[last]);
    }
  }

  /** So a read of an unmarked word shows what it shows without the asides. */
  lemma SeenOutside(m: Copies, asides: seq<seq<Op>>, ops: seq<Op>, op: Op)
    requires |asides| == |ops| && forall i :: 0 <= i < |ops| ==> AllAside(asides[i])
    requires op.Read? ==> Spot(op.env, op.vpn, op.off) !in Marks(asides, ops)
    ensures EagerSeen(EagerRun(m, Joined(asides, ops)), op) == EagerSeen(EagerRun(m, ops), op)
  {
    SameRun(m, asides, ops);
    hide EagerRun, Joined, Marks;
    if op.Read? {
      var p := Place(op.env, op.vpn);
      assert p in EagerRun(m, Joined(asides, ops)) <==> p in EagerRun(m, ops);
    }
  }

  /** A mark lies where some aside wrote, in its environment or in a descendant's. */
  lemma {:induction false} MarksAre(asides: seq<seq<Op>>, ops: seq<Op>, x: Spot)
    requires |asides| == |ops| && x in Marks(asides, ops)
    ensures exists i, e :: 0 <= i < |ops| && Spot(e, x.vpn, x.off) in TouchedAll(asides[i])
    decreases |ops|
  {
    var last := |ops| - 1;
    var was := Marks(asides[..last], ops[..last]) + TouchedAll(asides[last]);
    var e := SpreadFrom(was, ops[last], x);
    if Spot(e, x.vpn, x.off) in TouchedAll(asides[last]) {
    } else {
      MarksAre(asides[..last], ops[..last], Spot(e, x.vpn, x.off));
      var i, f :| 0 <= i < last && Spot(f, x.vpn, x.off) in TouchedAll(asides[..last][i]);
      assert asides[..last][i] == asides[i];
    }
  }

  lemma SpreadFrom(marks: set<Spot>, op: Op, x: Spot) returns (e: nat)
    requires x in Spread(marks, op)
    ensures Spot(e, x.vpn, x.off) in marks
  {
    e := if x in marks then x.env else op.env;
  }
}
