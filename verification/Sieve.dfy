/** user/primes.c: a chain of environments that sieves the integers, under any schedule. */
module Sieve {
  /** Where the code of one stage is, between two system calls or two tests. */
  datatype Pc =
    | NeedFirst                  // about to call ipc_recv for its prime
    | WaitFirst                  // blocked in that call
    | GotFirst(p: nat)           // has printed p, about to fork
    | NeedNext(p: nat)
    | WaitNext(p: nat)
    | Got(p: nat, i: nat)        // about to test i % p
    | Sending(p: nat, i: nat)    // in the retry loop of ipc_send
    | Dead                       // fork failed

  /** A stage with everything it has received so far, in order. */
  datatype Stage = Stage(pc: Pc, log: seq<nat>)

  /** `next` is the integer the generator is trying to send. */
  datatype State = State(next: nat, stages: seq<Stage>)

  datatype Step = Start | GenSend | Recv(k: nat) | Fork(k: nat, ok: bool) | Test(k: nat) | Send(k: nat)

  predicate Waiting(st: Stage) { st.pc == WaitFirst || st.pc.WaitNext? }

  function Deliver(st: Stage, v: nat): Stage
    requires Waiting(st)
  {
    Stage(if st.pc == WaitFirst then GotFirst(v) else Got(st.pc.p, v), st.log + [v])
  }

  predicate CanDo(s: State, step: Step) {
    match step
    case Start => s.stages == []
    case GenSend => s.stages != [] && Waiting(s.stages[0])
    case Recv(k) => k < |s.stages| && (s.stages[k].pc == NeedFirst || s.stages[k].pc.NeedNext?)
    case Fork(k, _) => k < |s.stages| && s.stages[k].pc.GotFirst?
    case Test(k) => k < |s.stages| && s.stages[k].pc.Got? && s.stages[k].pc.p > 0
    case Send(k) => k + 1 < |s.stages| && s.stages[k].pc.Sending? && Waiting(s.stages[k+1])
  }

  function Do(s: State, step: Step): State
    requires CanDo(s, step)
  {
    match step
    case Start => s.(stages := [Stage(NeedFirst, [])])
    case GenSend => State(s.next + 1, s.stages[0 := Deliver(s.stages[0], s.next)])
    case Recv(k) =>
      var pc := s.stages[k].pc;
      s.(stages := s.stages[k := s.stages[k].(pc := if pc == NeedFirst then WaitFirst else WaitNext(pc.p))])
    case Fork(k, ok) =>
      if ok then s.(stages := s.stages[k := s.stages[k].(pc := NeedNext(s.stages[k].pc.p))] + [Stage(NeedFirst, [])])
      else s.(stages := s.stages[k := s.stages[k].(pc := Dead)])
    case Test(k) =>
      var Got(p, i) := s.stages[k].pc;
      s.(stages := s.stages[k := s.stages[k].(pc := if i % p != 0 then Sending(p, i) else NeedNext(p))])
    case Send(k) =>
      var Sending(p, i) := s.stages[k].pc;
      s.(stages := s.stages[k := s.stages[k].(pc := NeedNext(p))][k+1 := Deliver(s.stages[k+1], i)])
  }

  // ---------------------------------------------------------------- what each stage has passed on

  function Filter(log: seq<nat>, p: nat): seq<nat>
    requires p > 0
  {
    if log == [] then []
    else Filter(log[..|log|-1], p) + if log[|log|-1] % p != 0 then [log[|log|-1]] else []
  }

  lemma FilterNext(log: seq<nat>, p: nat, i: nat)
    requires p > 0
    ensures Filter(log + [i], p) == Filter(log, p) + if i % p != 0 then [i] else []
  {
    assert (log + [i])[..|log + [i]|-1] == log;
  }

  /** The integers from 2 up to (not including) g. */
  function Upto(g: nat): seq<nat> { if g <= 2 then [] else Upto(g - 1) + [g - 1] }

  /** Received, sieved, but not yet received by the right neighbour. */
  function Pending(pc: Pc): seq<nat> {
    if pc.Sending? then [pc.i] else if pc.Got? && pc.p > 0 && pc.i % pc.p != 0 then [pc.i] else []
  }

  /** A stage that has forked its right neighbour. */
  predicate Filtering(st: Stage) {
    && (st.pc.NeedNext? || st.pc.WaitNext? || st.pc.Got? || st.pc.Sending?)
    && st.log != [] && st.pc.p == st.log[0] > 0
  }

  predicate Newest(st: Stage) {
    match st.pc
    case NeedFirst => st.log == []
    case WaitFirst => st.log == []
    case GotFirst(p) => st.log == [p] && p > 0
    case Dead => |st.log| == 1
    case _ => false
  }

  predicate Link(left: Stage, right: Stage) {
    Filtering(left) && right.log + Pending(left.pc) == Filter(left.log[1..], left.log[0])
  }

  /** All integers sent so far are somewhere: received by the next stage, about to be, or sieved out. */
  ghost predicate Inv(s: State) {
    && s.next >= 2
    && (s.stages == [] ==> s.next == 2)
    && (s.stages != [] ==> s.stages[0].log == Upto(s.next) && Newest(s.stages[|s.stages|-1]))
    && (forall k :: 0 <= k < |s.stages| - 1 ==> Link(s.stages[k], s.stages[k+1]))
    && (forall k :: 0 <= k < |s.stages| ==> Positive(s.stages[k].log))
  }

  ghost predicate Positive(log: seq<nat>) { forall i :: 0 <= i < |log| ==> log[i] >= 2 }

  lemma DeliverNewest(st: Stage, v: nat)
    requires Newest(st) && Waiting(st) && v >= 2
    ensures Newest(Deliver(st, v)) && Deliver(st, v).log == [v]
  {
  }

  /** A filtering stage receives: its pending integer grows by the new one, unless p divides it. */
  lemma DeliverLink(left: Stage, right: Stage, v: nat)
    requires Link(left, right) && Waiting(left)
    ensures Link(Deliver(left, v), right)
  {
    FilterNext(left.log[1..], left.log[0], v);
    assert (left.log + [v])[1..] == left.log[1..] + [v];
  }

  lemma StepKeeps(s: State, step: Step)
    requires Inv(s) && CanDo(s, step)
    ensures Inv(Do(s, step))
  {
    match step
    case Start =>
    case GenSend =>
      if |s.stages| == 1 { DeliverNewest(s.stages[0], s.next); } else { DeliverLink(s.stages[0], s.stages[1], s.next); }
    case Recv(k) => LocalKeeps(s, step, k);
    case Test(k) => LocalKeeps(s, step, k);
    case Fork(k, _) => ForkKeeps(s, step);
    case Send(k) => SendKeeps(s, k);
  }

  lemma LocalKeeps(s: State, step: Step, k: nat)
    requires Inv(s) && CanDo(s, step) && (step == Recv(k) || step == Test(k))
    ensures Inv(Do(s, step))
  {
    if k + 1 < |s.stages| {
      assert Link(s.stages[k], s.stages[k+1]);
    }
    if k > 0 {
      assert Link(s.stages[k-1], s.stages[k]);
    }
  }

  lemma ForkKeeps(s: State, step: Step)
    requires Inv(s) && CanDo(s, step) && step.Fork?
    ensures Inv(Do(s, step))
  {
    var k := step.k;
    assert k + 1 == |s.stages| || Link(s.stages[k], s.stages[k+1]);
    if k > 0 {
      assert Link(s.stages[k-1], s.stages[k]);
    }
    assert s.stages[k].log[1..] == [];
  }

  lemma SendLinks(left: Stage, right: Stage)
    requires Link(left, right) && left.pc.Sending? && Waiting(right)
    ensures Link(left.(pc := NeedNext(left.pc.p)), Deliver(right, left.pc.i))
  {
  }

  lemma SendKeeps(s: State, k: nat)
    requires Inv(s) && CanDo(s, Send(k))
    ensures Inv(Do(s, Send(k)))
  {
    hide Link, Newest, Filter, Filtering;
    var i := s.stages[k].pc.i;
    var s' := Do(s, Send(k));
    PendingBig(s, k);
    SendLinks(s.stages[k], s.stages[k+1]);
    if k + 2 < |s.stages| {
      DeliverLink(s.stages[k+1], s.stages[k+2], i);
    } else {
      DeliverNewest(s.stages[k+1], i);
    }
    if k > 0 {
      LinkLog(s.stages[k-1], s.stages[k], s'.stages[k]);
    }
    forall j | 0 <= j < |s.stages| - 1 ensures Link(s'.stages[j], s'.stages[j+1]) {
      assert Link(s.stages[j], s.stages[j+1]);
    }
    assert Positive(s'.stages[k+1].log);
  }

  /** A link looks at nothing but the log of the right stage. */
  lemma LinkLog(left: Stage, right: Stage, right': Stage)
    requires Link(left, right) && right'.log == right.log
    ensures Link(left, right')
  {
  }

  lemma {:induction false} FilterPositive(log: seq<nat>, p: nat)
    requires p > 0 && Positive(log)
    ensures Positive(Filter(log, p))
  {
    if log != [] {
      FilterPositive(log[..|log|-1], p);
    }
  }

  lemma PendingBig(s: State, k: nat)
    requires Inv(s) && k + 1 < |s.stages| && s.stages[k].pc.Sending?
    ensures s.stages[k].pc.i >= 2
  {
    var left, right := s.stages[k], s.stages[k+1];
    assert Link(left, right);
    FilterPositive(left.log[1..], left.log[0]);
    var f := Filter(left.log[1..], left.log[0]);
    assert f[|f|-1] == left.pc.i;
  }

  // ---------------------------------------------------------------- the streams are sieved integers

  /** n is divisible by none of ps. */
  predicate Survives(ps: seq<nat>, n: nat) { forall j :: 0 <= j < |ps| && ps[j] > 0 ==> n % ps[j] != 0 }

  /** The integers from 2 up to (not including) g that ps leave over. */
  function Survivors(ps: seq<nat>, g: nat): seq<nat> {
    if g <= 2 then [] else Survivors(ps, g - 1) + if Survives(ps, g - 1) then [g - 1] else []
  }

  lemma {:induction false} NothingSieved(g: nat)
    ensures Upto(g) == Survivors([], g)
  {
    if g > 2 {
      NothingSieved(g - 1);
    }
  }

  lemma {:induction false} SieveOnce(ps: seq<nat>, p: nat, g: nat)
    requires p > 0
    ensures Filter(Survivors(ps, g), p) == Survivors(ps + [p], g)
  {
    if g > 2 {
      SieveOnce(ps, p, g - 1);
      FilterNext(Survivors(ps, g - 1), p, g - 1);
      SurvivesOneMore(ps, p, g - 1);
      if !Survives(ps, g - 1) {
        assert Survivors(ps, g) == Survivors(ps, g - 1);
      }
    }
  }

  lemma SurvivesOneMore(ps: seq<nat>, p: nat, n: nat)
    requires p > 0
    ensures Survives(ps + [p], n) <==> Survives(ps, n) && n % p != 0
  {
    if Survives(ps + [p], n) {
      assert (ps + [p])[|ps|] == p;
      forall j | 0 <= j < |ps| && ps[j] > 0 ensures n % ps[j] != 0 {
        assert (ps + [p])[j] == ps[j];
      }
    }
  }

  lemma {:induction false} FilterHead(log: seq<nat>)
    requires log != [] && log[0] > 0
    ensures Filter(log, log[0]) == Filter(log[1..], log[0])
  {
    if |log| > 1 {
      FilterHead(log[..|log|-1]);
      assert log[1..][..|log[1..]|-1] == log[..|log|-1][1..];
    } else {
      assert log[..|log|-1] == [];
    }
  }

  /** Holding back the last survivor leaves the survivors below it. */
  lemma {:induction false} HeldBack(ps: seq<nat>, g: nat, r: seq<nat>, x: nat)
    requires r + [x] == Survivors(ps, g)
    ensures r == Survivors(ps, x)
  {
    if g > 2 {
      if Survives(ps, g - 1) {
        assert Survivors(ps, g - 1) == Survivors(ps, g)[..|r|] == r;
      } else {
        HeldBack(ps, g - 1, r, x);
      }
    }
  }

  /** The values the first k stages have printed. */
  function Values(s: State, k: nat): seq<nat>
    requires k <= |s.stages|
  {
    if k == 0 then [] else Values(s, k - 1) + if s.stages[k-1].log != [] then [s.stages[k-1].log[0]] else []
  }

  /** What stage k has received is an initial part of the integers that the earlier stages leave over. */
  lemma {:induction false} StageStream(s: State, k: nat) returns (g: nat)
    requires Inv(s) && k < |s.stages|
    ensures s.stages[k].log == Survivors(Values(s, k), g)
    ensures |Values(s, k)| == k && forall j :: 0 <= j < k ==>
              s.stages[j].log != [] && Values(s, k)[j] == s.stages[j].log[0] >= 2
  {
    if k == 0 {
      NothingSieved(s.next);
      return s.next;
    }
    g := StageStream(s, k - 1);
    var left, right := s.stages[k-1], s.stages[k];
    assert Link(left, right);
    var ps, p := Values(s, k - 1), left.log[0];
    SieveOnce(ps, p, g);
    FilterHead(left.log);
    assert right.log + Pending(left.pc) == Survivors(ps + [p], g);
    if Pending(left.pc) != [] {
      HeldBack(ps + [p], g, right.log, Pending(left.pc)[0]);
      g := Pending(left.pc)[0];
    }
  }

  // ---------------------------------------------------------------- and their heads are the primes

  predicate IsPrime(n: nat) { n >= 2 && forall d :: 2 <= d < n ==> n % d != 0 }

  /** ps are all the primes below n, in increasing order. */
  ghost predicate PrimesBelow(ps: seq<nat>, n: nat) {
    && (forall i, j :: 0 <= i < j < |ps| ==> ps[i] < ps[j])
    && (forall i :: 0 <= i < |ps| ==> IsPrime(ps[i]) && ps[i] < n)
    && (forall q: nat :: q < n && IsPrime(q) ==> q in ps)
  }

  lemma {:induction false} SurvivorsAre(ps: seq<nat>, g: nat)
    ensures forall n: nat :: n in Survivors(ps, g) <==> 2 <= n < g && Survives(ps, n)
    ensures forall i, j :: 0 <= i < j < |Survivors(ps, g)| ==> Survivors(ps, g)[i] < Survivors(ps, g)[j]
  {
    if g > 2 {
      SurvivorsAre(ps, g - 1);
      var a := Survivors(ps, g - 1);
      forall i | 0 <= i < |a| ensures a[i] < g - 1 { assert a[i] in a; }
    }
  }

  /** Every number from 2 on has a prime divisor. */
  lemma {:induction false} PrimeDivisor(n: nat) returns (q: nat)
    requires n >= 2
    ensures IsPrime(q) && q <= n && n % q == 0
  {
    if IsPrime(n) {
      return n;
    }
    var d :| 2 <= d < n && n % d == 0;
    q := PrimeDivisor(d);
    DivTrans(q, d, n);
  }

  lemma DivTrans(q: nat, d: nat, n: nat)
    requires q > 0 && d > 0 && d % q == 0 && n % d == 0
    ensures n % q == 0
  {
    var a, b := d / q, n / d;
    assert n == q * (a * b) by {
      assert n == d * b && d == q * a;
    }
    Quotient(n, q, a * b);
  }

  lemma Quotient(n: nat, q: nat, k: nat)
    requires q > 0 && n == q * k
    ensures n % q == 0
  {
    var d := k - n / q;
    assert q * d == n % q;
    assert d >= 1 ==> q * d >= q;
    assert d < 0 ==> q * d < 0;
  }

  /** A prime that is not one of ps is divisible by none of them. */
  lemma PrimeSurvives(ps: seq<nat>, n: nat, q: nat)
    requires PrimesBelow(ps, n) && IsPrime(q) && q >= n
    ensures Survives(ps, q)
  {
    forall j | 0 <= j < |ps| && ps[j] > 0 ensures q % ps[j] != 0 {
      assert IsPrime(ps[j]);
    }
  }

  /** The smallest number that the primes below n leave over is the next prime. */
  lemma NextPrime(ps: seq<nat>, n: nat, p: nat)
    requires PrimesBelow(ps, n) && p >= 2 && Survives(ps, p)
    requires forall m: nat :: 2 <= m < p ==> !Survives(ps, m)
    ensures n <= p && IsPrime(p) && PrimesBelow(ps + [p], p + 1)
  {
    var q := PrimeDivisor(p);
    assert !(q in ps) by {
      forall j | 0 <= j < |ps| ensures ps[j] != q {
        assert ps[j] > 0 ==> p % ps[j] != 0;
      }
    }
    PrimeSurvives(ps, n, q);
    assert q == p;
    forall r: nat | r < p + 1 && IsPrime(r) ensures r in ps + [p] {
      if r >= n {
        PrimeSurvives(ps, n, r);
      } else {
        assert r in ps;
      }
    }
  }

  /** The first survivor is the smallest one. */
  lemma SmallestSurvivor(ps: seq<nat>, g: nat, p: nat)
    requires Survivors(ps, g) != [] && p == Survivors(ps, g)[0]
    ensures p >= 2 && Survives(ps, p)
    ensures forall m: nat :: 2 <= m < p ==> !Survives(ps, m)
  {
    hide Survivors, Survives;
    SurvivorsAre(ps, g);
    assert p in Survivors(ps, g);
    var all := Survivors(ps, g);
    assert forall i :: 0 <= i < |all| ==> p <= all[i];
    assert forall m: nat :: m in all ==> p <= m;
  }

  /** The sequence of values the stages print is exactly the primes in order. */
  lemma {:induction false} ValuesArePrimes(s: State, k: nat)
    requires Inv(s) && 0 < k <= |s.stages| && s.stages[k-1].log != []
    ensures |Values(s, k)| == k && PrimesBelow(Values(s, k), s.stages[k-1].log[0] + 1)
  {
    hide Inv, Survivors, Survives, PrimesBelow, IsPrime;
    var g := StageStream(s, k - 1);
    var ps, p := Values(s, k - 1), s.stages[k-1].log[0];
    var n := 2;
    if k > 1 {
      assert s.stages[k-2].log != [];
      ValuesArePrimes(s, k - 1);
      n := s.stages[k-2].log[0] + 1;
    } else {
      NoPrimeBelowTwo();
    }
    SmallestSurvivor(ps, g, p);
    NextPrime(ps, n, p);
  }

  lemma NoPrimeBelowTwo()
    ensures PrimesBelow([], 2)
  {
  }

  // ---------------------------------------------------------------- every schedule

  ghost predicate Run(states: seq<State>, steps: seq<Step>) {
    && |states| == |steps| + 1 && states[0] == State(2, [])
    && forall i :: 0 <= i < |steps| ==> CanDo(states[i], steps[i]) && states[i+1] == Do(states[i], steps[i])
  }

  lemma {:induction false} RunKeepsInv(states: seq<State>, steps: seq<Step>, n: nat)
    requires Run(states, steps) && n < |states|
    ensures Inv(states[n])
  {
    if n > 0 {
      RunKeepsInv(states, steps, n - 1);
      StepKeeps(states[n-1], steps[n-1]);
    }
  }

  /** Under every schedule: stage k's values so far are an initial part of the increasing integers from 2
      on that the first k primes do not divide, and its first value is the (k+1)-th prime. */
  lemma SieveCorrect(states: seq<State>, steps: seq<Step>, n: nat, k: nat)
    requires Run(states, steps) && n < |states| && k < |states[n].stages|
    ensures exists g :: states[n].stages[k].log == Survivors(Values(states[n], k), g)
    ensures |Values(states[n], k)| == k
    ensures k > 0 ==>
              states[n].stages[k-1].log != [] && PrimesBelow(Values(states[n], k), states[n].stages[k-1].log[0] + 1)
    ensures states[n].stages[k].log != [] ==>
              IsPrime(states[n].stages[k].log[0]) && PrimesBelow(Values(states[n], k), states[n].stages[k].log[0])
  {
    hide Inv, Run, PrimesBelow, Survivors, IsPrime;
    var s := states[n];
    RunKeepsInv(states, steps, n);
    var g := StageStream(s, k);
    if k > 0 {
      ValuesArePrimes(s, k);
    }
    if s.stages[k].log != [] {
      ValuesArePrimes(s, k + 1);
      HeadIsNext(Values(s, k), s.stages[k].log[0]);
    }
  }

  lemma HeadIsNext(ps: seq<nat>, p: nat)
    requires PrimesBelow(ps + [p], p + 1)
    ensures IsPrime(p) && PrimesBelow(ps, p)
  {
    var all := ps + [p];
    assert all[|ps|] == p;
    forall i | 0 <= i < |ps| ensures IsPrime(ps[i]) && ps[i] < p { assert all[i] == ps[i]; }
    forall i, j | 0 <= i < j < |ps| ensures ps[i] < ps[j] { assert all[i] < all[j]; }
    forall q: nat | q < p && IsPrime(q) ensures q in ps { assert q in all; }
  }

  // ---------------------------------------------------------------- no deadlock

  /** As long as no fork has failed, some environment can take a step. */
  lemma NeverStuck(s: State)
    requires Inv(s) && forall k :: 0 <= k < |s.stages| ==> s.stages[k].pc != Dead
    ensures exists step :: CanDo(s, step)
  {
    if s.stages == [] {
      assert CanDo(s, Start);
    } else {
      var last := |s.stages| - 1;
      match s.stages[last].pc
      case NeedFirst => assert CanDo(s, Recv(last));
      case GotFirst(_) => assert CanDo(s, Fork(last, true));
      case WaitFirst => WaitingMoves(s, last);
    }
  }

  /** Whoever waits to receive: someone to the left, or the generator, can move. */
  lemma {:induction false} WaitingMoves(s: State, k: nat)
    requires Inv(s) && k < |s.stages| && Waiting(s.stages[k])
    ensures exists step :: CanDo(s, step)
  {
    if k == 0 {
      assert CanDo(s, GenSend);
    } else {
      assert Link(s.stages[k-1], s.stages[k]);
      match s.stages[k-1].pc
      case NeedNext(_) => assert CanDo(s, Recv(k - 1));
      case Got(_, _) => assert CanDo(s, Test(k - 1));
      case Sending(_, _) => assert CanDo(s, Send(k - 1));
      case WaitNext(_) => WaitingMoves(s, k - 1);
    }
  }
}
