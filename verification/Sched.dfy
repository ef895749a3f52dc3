/** kern/sched.c: round-robin choice of the next environment, and how long anybody waits for it. */
module Sched {
  import opened PageRefs
  import opened EnvIds
  import opened Envs
  import opened IpcSyscalls

  /** The slot that lies k places after the current one, in circular order. */
  function Slot(cur: int, k: nat): (i: nat)
    requires NIL <= cur < NENV
    ensures i < NENV
  {
    ((if cur == NIL then 0 else (cur + 1) % NENV) + k) % NENV
  }

  /** e is the first RUNNABLE slot in circular order after the current one. */
  ghost predicate FirstRunnable(envs: seq<Env>, cur: int, e: nat)
    requires |envs| == NENV && NIL <= cur < NENV
  {
    exists k: nat :: k < NENV && e == Slot(cur, k) && envs[e].status == RUNNABLE
                     && forall j: nat :: j < k ==> envs[Slot(cur, j)].status != RUNNABLE
  }

  ghost predicate NoneRunnable(envs: seq<Env>) { forall i :: 0 <= i < |envs| ==> envs[i].status != RUNNABLE }

  lemma AllSlots(envs: seq<Env>, cur: int)
    requires |envs| == NENV && NIL <= cur < NENV
    requires forall j: nat :: j < NENV ==> envs[Slot(cur, j)].status != RUNNABLE
    ensures NoneRunnable(envs)
  {
    forall i | 0 <= i < NENV ensures envs[i].status != RUNNABLE {
      var start := if cur == NIL then 0 else (cur + 1) % NENV;
      assert Slot(cur, (i - start) % NENV) == i;
    }
  }

  lemma NextSlot(cur: int, k: nat)
    requires NIL <= cur < NENV
    ensures Slot(cur, k + 1) == (Slot(cur, k) + 1) % NENV
  {
  }

  /** What env_run does to the table. */
  function Switched(envs: seq<Env>, cur: int, e: nat): seq<Env>
    requires NIL <= cur < |envs| && e < |envs|
  {
    var left := if cur != NIL && envs[cur].status == RUNNING then envs[cur := envs[cur].(status := RUNNABLE)] else envs;
    left[e := left[e].(status := RUNNING, runs := left[e].runs + 1)]
  }

  /** A turn, slot by slot: the chosen environment runs, the one that was running can run again, and no other
      record changes. */
  predicate TurnedTo(envs: seq<Env>, cur: int, next: int, envs': seq<Env>) {
    && |envs'| == |envs| && 0 <= next < |envs|
    && envs'[next] == envs[next].(status := RUNNING, runs := envs[next].runs + 1)
    && (forall i :: 0 <= i < |envs| && i != next && i != cur ==> envs'[i] == envs[i])
    && (0 <= cur < |envs| && cur != next ==>
          envs'[cur] == if envs[cur].status == RUNNING then envs[cur].(status := RUNNABLE) else envs[cur])
  }

  /** The slots that lie between the current one and another, in circular order. */
  predicate Between(cur: int, next: int, i: int) {
    if cur == NIL then i < next else if cur < next then cur < i < next else i > cur || i < next
  }

  /** Whose turn it is: the first RUNNABLE one after the current, or the current one if there is none. */
  ghost predicate Chosen(envs: seq<Env>, cur: int, next: int) {
    && 0 <= next < |envs|
    && if NoneRunnable(envs) then next == cur && envs[next].status == RUNNING
       else envs[next].status == RUNNABLE
            && forall i :: 0 <= i < |envs| && Between(cur, next, i) ==> envs[i].status != RUNNABLE
  }

  lemma SwitchTurns(envs: seq<Env>, cur: int, e: nat)
    requires NIL <= cur < |envs| && e < |envs|
    ensures TurnedTo(envs, cur, e, Switched(envs, cur, e))
  {
  }

  lemma FirstIsNext(envs: seq<Env>, cur: int, e: nat)
    requires |envs| == NENV && NIL <= cur < NENV && FirstRunnable(envs, cur, e)
    ensures e < NENV && envs[e].status == RUNNABLE
    ensures forall i :: 0 <= i < NENV && Between(cur, e, i) ==> envs[i].status != RUNNABLE
  {
    var k: nat :| k < NENV && e == Slot(cur, k) && forall j: nat :: j < k ==> envs[Slot(cur, j)].status != RUNNABLE;
    forall i | 0 <= i < NENV && Between(cur, e, i) ensures envs[i].status != RUNNABLE {
      var start := if cur == NIL then 0 else (cur + 1) % NENV;
      var j := if i >= start then i - start else i - start + NENV;
      assert Slot(cur, j) == i && j < k;
    }
  }

  /** On one CPU, if nobody but the current environment was RUNNING, nobody but the next one is. */
  lemma OneRunning(envs: seq<Env>, cur: int, next: int, envs': seq<Env>)
    requires TurnedTo(envs, cur, next, envs')
    requires forall i :: 0 <= i < |envs| && i != cur ==> envs[i].status != RUNNING
    ensures forall i :: 0 <= i < |envs'| && i != next ==> envs'[i].status != RUNNING
  {
  }

  /** env_run up to the unlock. */
  method EnvRun(t: EnvTable, cur: int, e: nat) returns (next: int)
    requires t.Valid() && NIL <= cur < NENV && e < NENV && t.envs[e].status != FREE
    modifies t.envs
    ensures t.Valid() && next == e && t.envs[..] == Switched(old(t.envs[..]), cur, e)
  {
    hide EnvList, KthId;
    if cur != NIL && t.envs[cur].status == RUNNING {
      PutEnv(t, cur, t.envs[cur].(status := RUNNABLE));
    }
    PutEnv(t, e, t.envs[e].(status := RUNNING, runs := t.envs[e].runs + 1));
    next := e;
  }

  /** sched_yield.  The result is the CPU's next current environment, NIL when it halts. */
  method SchedYield(t: EnvTable, cur: int) returns (next: int)
    requires t.Valid() && NIL <= cur < NENV
    modifies t.envs
    ensures t.Valid() && NIL <= next < NENV
    ensures !NoneRunnable(old(t.envs[..])) ==>
              next != NIL && FirstRunnable(old(t.envs[..]), cur, next)
                  && t.envs[..] == Switched(old(t.envs[..]), cur, next)
    ensures next != NIL ==> TurnedTo(old(t.envs[..]), cur, next, t.envs[..])
    ensures next != NIL ==> Chosen(old(t.envs[..]), cur, next)
    ensures NoneRunnable(old(t.envs[..])) && cur != NIL && old(t.envs[..])[cur].status == RUNNING ==>
              next == cur && t.envs[..] == Switched(old(t.envs[..]), cur, cur)
    ensures NoneRunnable(old(t.envs[..])) && (cur == NIL || old(t.envs[..])[cur].status != RUNNING) ==>
              next == NIL && t.envs[..] == old(t.envs[..])
  {
    hide EnvList, Between, TurnedTo;
    var nexti := 0;
    if cur != NIL {
      nexti := (cur + 1) % NENV;
    }
    var i := 0;
    while i < NENV
      invariant 0 <= i <= NENV && nexti == Slot(cur, i) && t.Valid() && t.envs[..] == old(t.envs[..])
      invariant forall j: nat :: j < i ==> t.envs[Slot(cur, j)].status != RUNNABLE
    {
      if t.envs[nexti].status == RUNNABLE {
        assert FirstRunnable(t.envs[..], cur, nexti);
        FirstIsNext(t.envs[..], cur, nexti);
        SwitchTurns(t.envs[..], cur, nexti);
        next := EnvRun(t, cur, nexti);
        return;
      }
      NextSlot(cur, i);
      nexti := (nexti + 1) % NENV;
      i := i + 1;
    }
    AllSlots(t.envs[..], cur);
    if cur != NIL && t.envs[cur].status == RUNNING {
      SwitchTurns(t.envs[..], cur, cur);
      next := EnvRun(t, cur, cur);
      return;
    }
    next := NIL;
  }

  // ---------------------------------------------------------------- bounded waiting

  /** How far e lies behind the current slot in circular order. */
  function Distance(cur: nat, e: nat): (d: nat)
    ensures d < NENV
  {
    (e - cur) % NENV
  }

  lemma Wrapped(x: int)
    ensures 0 <= x < NENV ==> x % NENV == x
    ensures NENV <= x < 2 * NENV ==> x % NENV == x - NENV
    ensures -NENV <= x < 0 ==> x % NENV == x + NENV
  {
  }

  lemma SlotIs(cur: nat, k: nat)
    requires cur < NENV && k < NENV
    ensures Slot(cur, k) == if cur + 1 + k < NENV then cur + 1 + k else cur + 1 + k - NENV
  {
    Wrapped(cur + 1);
    Wrapped((cur + 1) % NENV + k);
  }

  lemma DistanceIs(cur: nat, e: nat)
    requires cur < NENV && e < NENV
    ensures Distance(cur, e) == if e >= cur then e - cur else e - cur + NENV
  {
    Wrapped(e - cur);
  }

  /** The slots after cur come closer to e one by one. */
  lemma SlotDistance(cur: nat, e: nat, k: nat)
    requires cur < NENV && e < NENV && k < Distance(cur, e)
    ensures Distance(Slot(cur, k), e) == Distance(cur, e) - k - 1
    ensures Slot(cur, Distance(cur, e) - 1) == e
  {
    hide Slot, Distance;
    DistanceIs(cur, e);
    SlotIs(cur, k);
    SlotIs(cur, Distance(cur, e) - 1);
    DistanceIs(Slot(cur, k), e);
  }

  lemma NotHere(cur: nat, e: nat)
    requires cur < NENV && e < NENV && e != cur
    ensures Distance(cur, e) > 0
  {
  }

  /** While e is RUNNABLE, every choice is e or a slot closer to it. */
  lemma Closer(envs: seq<Env>, cur: nat, next: nat, e: nat)
    requires |envs| == NENV && cur < NENV && e < NENV && e != cur && envs[e].status == RUNNABLE
    requires FirstRunnable(envs, cur, next)
    ensures Distance(next, e) < Distance(cur, e)
  {
    NotHere(cur, e);
    hide Slot, Distance;
    var k: nat :| k < NENV && next == Slot(cur, k) && forall j: nat :: j < k ==> envs[Slot(cur, j)].status != RUNNABLE;
    var d := Distance(cur, e);
    SlotDistance(cur, e, 0);
    assert k <= d - 1;
    SlotDistance(cur, e, k);
  }

  /** Calls of sched_yield on one CPU, with anything happening in between: tables[i] is what the i-th call
      finds, curs[i] the environment that was current. */
  ghost predicate Yields(tables: seq<seq<Env>>, curs: seq<nat>) {
    && |curs| == |tables| + 1
    && (forall i :: 0 <= i < |curs| ==> curs[i] < NENV)
    && forall i :: 0 <= i < |tables| ==>
         |tables[i]| == NENV && (!NoneRunnable(tables[i]) ==> FirstRunnable(tables[i], curs[i], curs[i+1]))
  }

  /** An environment that stays RUNNABLE is chosen within NENV - 1 calls. */
  lemma {:induction false} BoundedWaiting(tables: seq<seq<Env>>, curs: seq<nat>, e: nat)
    requires Yields(tables, curs) && e < NENV && e != curs[0]
    requires forall i :: 0 <= i < |tables| ==> tables[i][e].status == RUNNABLE
    requires |tables| >= Distance(curs[0], e)
    ensures Distance(curs[0], e) <= NENV - 1
    ensures exists i :: 1 <= i <= Distance(curs[0], e) && curs[i] == e
  {
    assert !NoneRunnable(tables[0]);
    Closer(tables[0], curs[0], curs[1], e);
    if curs[1] != e {
      BoundedWaiting(tables[1..], curs[1..], e);
      var i :| 1 <= i <= Distance(curs[1], e) && curs[1..][i] == e;
      assert curs[i+1] == e;
    }
  }

  /** One CPU on which environments only yield: tables[i] is what the i-th call finds, curs[i] who calls. */
  ghost predicate Turns(tables: seq<seq<Env>>, curs: seq<nat>) {
    && |curs| == |tables| && (forall i :: 0 <= i < |curs| ==> curs[i] < NENV == |tables[i]|)
    && forall i :: 0 <= i < |tables| - 1 ==>
         && TurnedTo(tables[i], curs[i], curs[i+1], tables[i+1])
         && (!NoneRunnable(tables[i]) ==> FirstRunnable(tables[i], curs[i], curs[i+1]))
  }

  /** Whoever can run is chosen within NENV - 1 calls. */
  lemma {:induction false} EachGetsATurn(tables: seq<seq<Env>>, curs: seq<nat>, e: nat)
    requires Turns(tables, curs) && e < NENV && curs != [] && e != curs[0] && tables[0][e].status == RUNNABLE
    requires |tables| > Distance(curs[0], e)
    ensures Distance(curs[0], e) <= NENV - 1
    ensures exists i :: 1 <= i <= Distance(curs[0], e) && curs[i] == e
  {
    hide Distance, FirstRunnable;
    NotHere(curs[0], e);
    assert !NoneRunnable(tables[0]);
    assert TurnedTo(tables[0], curs[0], curs[1], tables[1]);
    Closer(tables[0], curs[0], curs[1], e);
    if curs[1] != e {
      assert tables[1][e] == tables[0][e];
      EachGetsATurn(tables[1..], curs[1..], e);
      var i :| 1 <= i <= Distance(curs[1], e) && curs[1..][i] == e;
      assert curs[i+1] == e;
    }
  }

  /** And who yields while somebody else can run gets the CPU back within NENV calls. */
  lemma YielderRunsAgain(tables: seq<seq<Env>>, curs: seq<nat>)
    requires Turns(tables, curs) && |tables| > NENV && tables[0][curs[0]].status == RUNNING && !NoneRunnable(tables[0])
    ensures exists i :: 1 < i <= NENV && curs[i] == curs[0]
  {
    var e := curs[0];
    FirstIsNext(tables[0], e, curs[1]);
    assert TurnedTo(tables[0], e, curs[1], tables[1]);
    assert tables[1][e].status == RUNNABLE;
    EachGetsATurn(tables[1..], curs[1..], e);
    var i :| 1 <= i <= Distance(curs[1], e) && curs[1..][i] == e;
    assert curs[i+1] == e;
  }
}
