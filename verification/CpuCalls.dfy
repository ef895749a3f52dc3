/**
  The machine of many CPUs and the kernel's calls: each call that succeeds on the environment table is a step
  of the machine, and what the step does to the environments is what the call does.
*/
module CpuCalls {
  import opened PageRefs
  import opened Pmap
  import opened EnvIds
  import opened Envs
  import opened IpcHistory
  import opened IpcMachine
  import Sched
  import MultiCpu

  /** What the machine knows of the environment table. */
  function Known(envs: seq<Env>): seq<MultiCpu.EnvState> {
    seq(|envs|, i requires 0 <= i < |envs| => MultiCpu.EnvState(envs[i].status, envs[i].recving))
  }

  /** The CPU that makes the call: it is where such a call is made, with the caller as its environment. */
  predicate Makes(st: MultiCpu.State, c: nat, call: Call) {
    && c < |st.cpus|
    && match call
       case Yield(cur) => st.cpus[c].pc == MultiCpu.Sched && st.cpus[c].env == cur
       case Reap(e) => st.cpus[c].pc == MultiCpu.Reap && st.cpus[c].env == e
       case _ => st.cpus[c].pc == MultiCpu.Kernel && st.cpus[c].env == call.env
  }

  ghost predicate Agrees(st: MultiCpu.State, c: nat, a: MultiCpu.Action, s': Sys) {
    MultiCpu.CanDo(st, c, a) && MultiCpu.Do(st, c, a).envs == Known(s'.envs)
  }

  lemma RecvAgrees(s: Sys, call: Call, s': Sys, st: MultiCpu.State, c: nat)
    requires Step(s, call, OK, s') && call.Recv? && st.envs == Known(s.envs) && Makes(st, c, call)
    ensures Agrees(st, c, MultiCpu.BlockA, s')
  {
    assert MultiCpu.Do(st, c, MultiCpu.BlockA).envs == Known(s'.envs);
  }

  lemma SendAgrees(s: Sys, call: Call, s': Sys, st: MultiCpu.State, c: nat)
    requires Step(s, call, OK, s') && call.TrySend? && st.envs == Known(s.envs) && Makes(st, c, call)
    ensures SlotOf(call.toid, call.env) < |s.envs| && Agrees(st, c, MultiCpu.WakeA(SlotOf(call.toid, call.env)), s')
  {
    assert MultiCpu.Do(st, c, MultiCpu.WakeA(SlotOf(call.toid, call.env))).envs == Known(s'.envs);
  }

  lemma StatusAgrees(s: Sys, call: Call, s': Sys, st: MultiCpu.State, c: nat)
    requires Step(s, call, OK, s') && call.SetStatus? && st.envs == Known(s.envs) && Makes(st, c, call)
    ensures Agrees(st, c, MultiCpu.StatusA(SlotOf(call.toid, call.env), call.status), s')
  {
    assert MultiCpu.Do(st, c, MultiCpu.StatusA(SlotOf(call.toid, call.env), call.status)).envs == Known(s'.envs);
  }

  lemma ExoforkAgrees(s: Sys, call: Call, r: int, s': Sys, st: MultiCpu.State, c: nat) returns (child: nat)
    requires Step(s, call, r, s') && r > 0 && call.Exofork? && st.envs == Known(s.envs) && Makes(st, c, call)
    ensures child < |s.envs| == |s'.envs| && s'.envs[child].id == r && Agrees(st, c, MultiCpu.ExoforkA(child), s')
  {
    child :| child < NENV && ChildBorn(s, call.env, child, r, s');
    assert MultiCpu.Do(st, c, MultiCpu.ExoforkA(child)).envs == Known(s'.envs);
  }

  lemma DestroyAgrees(s: Sys, call: Call, s': Sys, st: MultiCpu.State, c: nat)
    requires Step(s, call, OK, s') && call.Destroy? && st.envs == Known(s.envs) && Makes(st, c, call)
    ensures Agrees(st, c, MultiCpu.DestroyA(SlotOf(call.toid, call.env)), s')
  {
    assert MultiCpu.Do(st, c, MultiCpu.DestroyA(SlotOf(call.toid, call.env))).envs == Known(s'.envs);
  }

  lemma ReapAgrees(s: Sys, call: Call, s': Sys, st: MultiCpu.State, c: nat)
    requires Step(s, call, OK, s') && call.Reap? && st.envs == Known(s.envs) && Makes(st, c, call)
    ensures Agrees(st, c, MultiCpu.ReapA, s')
  {
    assert MultiCpu.Do(st, c, MultiCpu.ReapA).envs == Known(s'.envs);
  }

  /** sched_yield is the step that runs the chosen environment, or the one that keeps the current one. */
  lemma YieldAgrees(s: Sys, call: Call, r: int, s': Sys, st: MultiCpu.State, c: nat)
    requires Step(s, call, r, s') && r >= 0 && call.Yield? && st.envs == Known(s.envs) && Makes(st, c, call)
    requires r < |s.envs|
    ensures s.envs[r].status == RUNNABLE ==> Agrees(st, c, MultiCpu.RunA(r), s')
    ensures s.envs[r].status != RUNNABLE ==> Agrees(st, c, MultiCpu.RestA, s')
  {
    if s.envs[r].status == RUNNABLE {
      assert MultiCpu.Do(st, c, MultiCpu.RunA(r)).envs == Known(s'.envs);
    } else {
      assert MultiCpu.Do(st, c, MultiCpu.RestA).envs == Known(s'.envs);
    }
  }

  /** The calls about pages change no environment. */
  lemma PageAgrees(s: Sys, call: Call, s': Sys, st: MultiCpu.State, c: nat)
    requires Step(s, call, OK, s') && (call.PageAlloc? || call.PageMap? || call.PageUnmap?)
    requires st.envs == Known(s.envs) && Makes(st, c, call)
    ensures Agrees(st, c, MultiCpu.NothingA, s')
  {
  }
}
