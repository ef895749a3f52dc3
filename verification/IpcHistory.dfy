/**
  IPC over whole runs: what sys_ipc_recv and sys_ipc_try_send do to the environment table and to the
  address spaces, with everything else the kernel does in between.
*/
module IpcHistory {
  import opened Mmu
  import opened EnvIds
  import opened Envs
  import opened Spaces
  import opened IpcSyscalls

  /** The environment table and every environment's address space. */
  datatype Sys = Sys(envs: seq<Env>, views: seq<map<nat, Word>>)

  datatype Event =
    | RecvE(env: nat, dstva: nat)                                          // a sys_ipc_recv that blocks
    | SendE(to: nat, sender: nat, value: int, srcva: nat, perm: Flags)     // a sys_ipc_try_send that succeeds
    | AllocE(env: nat, id: int, parent: int)                               // a new environment
    | EnvE(env: nat, now: Env)                                             // scheduling, a status, the end
    | MapE(env: nat, page: nat, entry: Word)
    | UnmapE(env: nat, page: nat)
    | EmptyE(env: nat)                                                     // an address space is freed

  /** Does a page move with this send? */
  predicate Moves(s: Sys, ev: Event) {
    ev.SendE? && ev.to < |s.envs| && ev.srcva < UTOP && s.envs[ev.to].dstva < UTOP
  }

  /** A record that differs in nothing that IPC looks at. */
  predicate SameIpc(e: Env, e': Env) {
    && e'.id == e.id && e'.recving == e.recving && e'.dstva == e.dstva && e'.value == e.value
    && e'.from == e.from && e'.perm == e.perm
  }

  /** The sender's own entry for what it sends. */
  predicate Offers(s: Sys, sender: nat, srcva: nat, perm: Flags) {
    && sender < |s.views| && srcva % PGSIZE == 0 && PageNum(srcva) in s.views[sender]
    && s.views[sender][PageNum(srcva)].flags.Includes(perm)
  }

  /** When the kernel can take the step. */
  predicate CanDo(s: Sys, ev: Event) {
    |s.views| == |s.envs| &&
    match ev
    case RecvE(e, _) => e < |s.envs| && s.envs[e].status == RUNNING
    case SendE(to, sender, _, srcva, perm) =>
      && to < |s.envs| && sender < |s.envs| && s.envs[sender].status == RUNNING
      && s.envs[to].status != FREE && s.envs[to].recving && (srcva < UTOP ==> Offers(s, sender, srcva, perm))
    case AllocE(e, _, _) => e < |s.envs| && s.envs[e].status == FREE
    case EnvE(e, now) => e < |s.envs| && SameIpc(s.envs[e], now) && (s.envs[e].status == FREE ==> now.status == FREE)
    case MapE(e, _, _) => e < |s.envs|
    case UnmapE(e, _) => e < |s.envs|
    case EmptyE(e) => e < |s.envs|
  }

  function Do(s: Sys, ev: Event): Sys
    requires CanDo(s, ev)
  {
    match ev
    case RecvE(e, dstva) => s.(envs := s.envs[e := Blocked(s.envs[e], dstva)])
    case SendE(to, sender, value, srcva, perm) =>
      Sys(s.envs[to := Delivered(s.envs[to], s.envs[sender].id, value, perm, Moves(s, ev))],
          if Moves(s, ev)
          then SetIn(s.views, to, PageNum(s.envs[to].dstva),
                     Word(s.views[sender][PageNum(srcva)].frame, perm.(p := true)))
          else s.views)
    case AllocE(e, id, parent) => Sys(s.envs[e := Born(s.envs[e], id, parent)], s.views[e := map[]])
    case EnvE(e, now) => s.(envs := s.envs[e := now])
    case MapE(e, page, entry) => s.(views := SetIn(s.views, e, page, entry))
    case UnmapE(e, page) => s.(views := s.views[e := s.views[e] - {page}])
    case EmptyE(e) => s.(views := s.views[e := map[]])
  }

  /** The events can be taken one after the other. */
  predicate Possible(s: Sys, events: seq<Event>)
    decreases |events|, 0
  {
    events == [] ||
    (Possible(s, events[..|events|-1]) && CanDo(After(s, events[..|events|-1]), events[|events|-1]))
  }

  function After(s: Sys, events: seq<Event>): Sys
    requires Possible(s, events)
    decreases |events|, 1
  {
    if events == [] then s else Do(After(s, events[..|events|-1]), events[|events|-1])
  }

  /** A history that starts with nobody waiting for a message. */
  predicate Run(s: Sys, events: seq<Event>) {
    |s.views| == |s.envs| && (forall e :: 0 <= e < |s.envs| ==> !s.envs[e].recving) && Possible(s, events)
  }

  lemma {:induction false} PossiblePrefix(s: Sys, events: seq<Event>, n: nat)
    requires Possible(s, events) && n <= |events|
    ensures Possible(s, events[..n])
    ensures n < |events| ==> CanDo(After(s, events[..n]), events[n])
    ensures n < |events| ==>
              Possible(s, events[..n+1]) && After(s, events[..n+1]) == Do(After(s, events[..n]), events[n])
    decreases |events|
  {
    if n == |events| {
      assert events[..n] == events;
    } else {
      var last := |events| - 1;
      var front := events[..last];
      if n < last {
        PossiblePrefix(s, front, n);
        assert front[..n] == events[..n] && front[..n+1] == events[..n+1];
      } else {
        assert events[..n+1] == events && events[..n+1][..n] == events[..n];
      }
    }
  }

  /** The state before event n. */
  function At(s: Sys, events: seq<Event>, n: nat): Sys
    requires Possible(s, events) && n <= |events|
  {
    PossiblePrefix(s, events, n);
    After(s, events[..n])
  }

  lemma AtNext(s: Sys, events: seq<Event>, n: nat)
    requires Possible(s, events) && n < |events|
    ensures CanDo(At(s, events, n), events[n])
    ensures At(s, events, n + 1) == Do(At(s, events, n), events[n])
  {
    PossiblePrefix(s, events, n);
  }

  lemma {:induction false} TableSize(s: Sys, events: seq<Event>, n: nat)
    requires Run(s, events) && n <= |events|
    ensures |At(s, events, n).envs| == |s.envs| == |At(s, events, n).views|
  {
    if n > 0 {
      TableSize(s, events, n - 1);
      AtNext(s, events, n - 1);
    }
  }

  /** The event starts or ends a receive of e. */
  predicate Touches(ev: Event, e: nat) {
    match ev
    case RecvE(x, _) => x == e
    case SendE(x, _, _, _, _) => x == e
    case AllocE(x, _, _) => x == e
    case _ => false
  }

  /** The last event before n that starts or ends a receive of e, or -1. */
  function Last(events: seq<Event>, n: nat, e: nat): (j: int)
    requires n <= |events|
    ensures -1 <= j < n && (j >= 0 ==> Touches(events[j], e))
    ensures forall i :: j < i < n ==> !Touches(events[i], e)
  {
    if n == 0 then -1 else if Touches(events[n-1], e) then n - 1 else Last(events, n - 1, e)
  }

  /** An environment is receiving exactly when the last such event was its own recv. */
  lemma {:induction false} RecvingIff(s: Sys, events: seq<Event>, n: nat, e: nat)
    requires Run(s, events) && n <= |events| && e < |s.envs|
    ensures |At(s, events, n).envs| == |s.envs|
    ensures At(s, events, n).envs[e].recving <==> Last(events, n, e) >= 0 && events[Last(events, n, e)].RecvE?
  {
    if n > 0 {
      RecvingIff(s, events, n - 1, e);
      AtNext(s, events, n - 1);
    }
  }

  /** The recv that the send at position i answers. */
  function Answered(events: seq<Event>, i: nat): int
    requires i < |events| && events[i].SendE?
  {
    Last(events, i, events[i].to)
  }

  /** Each successful send answers one recv of the environment it sends to: the one since which nothing
      was sent to it. */
  lemma SendAnswersRecv(s: Sys, events: seq<Event>, i: nat)
    requires Run(s, events) && i < |events| && events[i].SendE?
    ensures var j := Answered(events, i);
            && 0 <= j < i && events[j].RecvE? && events[j].env == events[i].to
            && forall k :: j < k < i ==> !Touches(events[k], events[i].to)
  {
    TableSize(s, events, i);
    AtNext(s, events, i);
    RecvingIff(s, events, i, events[i].to);
  }

  /** No recv is answered twice. */
  lemma AnsweredOnce(s: Sys, events: seq<Event>, i: nat, i': nat)
    requires Run(s, events) && i < i' < |events| && events[i].SendE? && events[i'].SendE?
    ensures Answered(events, i) != Answered(events, i')
  {
    SendAnswersRecv(s, events, i);
    SendAnswersRecv(s, events, i');
  }

  /** Between two messages to the same environment it has called recv again. */
  lemma NoOverwrite(s: Sys, events: seq<Event>, i: nat, i': nat)
    requires Run(s, events) && i < i' < |events| && events[i].SendE? && events[i'].SendE?
             && events[i].to == events[i'].to
    ensures exists j :: i < j < i' && events[j].RecvE? && events[j].env == events[i].to
  {
    SendAnswersRecv(s, events, i');
    var j := Answered(events, i');
    assert Touches(events[i], events[i'].to);
    assert j > i;
  }

  /** From i to n, environment e has not called recv again. */
  predicate NoRecv(events: seq<Event>, i: nat, n: nat, e: nat)
    requires n <= |events|
  {
    forall k :: i < k < n ==> !(events[k].RecvE? && events[k].env == e)
  }

  /** The message that e has: nobody can send it another one while it is not receiving. */
  predicate Has(s: Sys, e: nat, from: int, value: int) {
    e < |s.envs| && !s.envs[e].recving && s.envs[e].from == from && s.envs[e].value == value
  }

  lemma HasStill(s: Sys, ev: Event, e: nat, from: int, value: int)
    requires CanDo(s, ev) && Has(s, e, from, value) && !(ev.RecvE? && ev.env == e)
    ensures Has(Do(s, ev), e, from, value) && Do(s, ev).envs[e].perm == s.envs[e].perm
  {
  }

  lemma HasNow(s: Sys, ev: Event)
    requires CanDo(s, ev) && ev.SendE?
    ensures Has(Do(s, ev), ev.to, s.envs[ev.sender].id, ev.value)
    ensures Moves(s, ev) ==> Do(s, ev).envs[ev.to].perm == ev.perm
  {
  }

  /** What the receiver finds, from the send that wakes it until its next recv (or until its slot is given
      to a new environment): the sender's identifier, the value, and the permission if a page moved. */
  lemma {:induction false} MessageStays(s: Sys, events: seq<Event>, i: nat, n: nat)
    requires Run(s, events) && i < n <= |events| && events[i].SendE? && NoRecv(events, i, n, events[i].to)
    ensures events[i].sender < |At(s, events, i).envs|
    ensures Has(At(s, events, n), events[i].to, At(s, events, i).envs[events[i].sender].id, events[i].value)
    ensures Moves(At(s, events, i), events[i]) ==> At(s, events, n).envs[events[i].to].perm == events[i].perm
  {
    AtNext(s, events, i);
    hide At, Do, CanDo, Run, Moves;
    SenderInTable(At(s, events, i), events[i]);
    if i + 1 == n {
      HasNow(At(s, events, i), events[i]);
    } else {
      MessageStays(s, events, i, n - 1);
      AtNext(s, events, n - 1);
      HasStill(At(s, events, n - 1), events[n-1], events[i].to,
               At(s, events, i).envs[events[i].sender].id, events[i].value);
    }
  }

  lemma SenderInTable(s: Sys, ev: Event)
    requires CanDo(s, ev) && ev.SendE?
    ensures ev.to < |s.envs| && ev.sender < |s.envs| == |s.views|
  {
  }

  /** The event changes what environment e maps at this page, other than by a message to e. */
  predicate Remaps(ev: Event, e: nat, page: nat) {
    match ev
    case MapE(x, p, _) => x == e && p == page
    case UnmapE(x, p) => x == e && p == page
    case EmptyE(x) => x == e
    case AllocE(x, _, _) => x == e
    case _ => false
  }

  predicate MappedAs(s: Sys, e: nat, page: nat, w: Word) {
    e < |s.views| && page in s.views[e] && s.views[e][page] == w
  }

  lemma MappedStill(s: Sys, ev: Event, e: nat, page: nat, w: Word)
    requires CanDo(s, ev) && MappedAs(s, e, page, w) && !Remaps(ev, e, page) && !s.envs[e].recving
    ensures MappedAs(Do(s, ev), e, page, w)
  {
  }

  /** What the sender's entry becomes at the receiver. */
  lemma MappedNow(s: Sys, ev: Event)
    requires CanDo(s, ev) && Moves(s, ev)
    ensures Offers(s, ev.sender, ev.srcva, ev.perm)
    ensures MappedAs(Do(s, ev), ev.to, PageNum(s.envs[ev.to].dstva),
                     Word(s.views[ev.sender][PageNum(ev.srcva)].frame, ev.perm.(p := true)))
  {
  }

  /** And when a page moved: until its next recv, and while nobody maps or unmaps it, the receiver has at
      the address it named the sender's frame, with the permissions sent, which the sender had itself. */
  lemma {:induction false} PageStays(s: Sys, events: seq<Event>, i: nat, n: nat)
    requires Run(s, events) && i < n <= |events| && Moves(At(s, events, i), events[i])
             && NoRecv(events, i, n, events[i].to)
    requires forall k :: i < k < n ==>
               !Remaps(events[k], events[i].to, PageNum(At(s, events, i).envs[events[i].to].dstva))
    ensures var before, ev := At(s, events, i), events[i];
            && Offers(before, ev.sender, ev.srcva, ev.perm)
            && MappedAs(At(s, events, n), ev.to, PageNum(before.envs[ev.to].dstva),
                        Word(before.views[ev.sender][PageNum(ev.srcva)].frame, ev.perm.(p := true)))
  {
    AtNext(s, events, i);
    hide At, Do, CanDo, Run, Moves, Offers, MappedAs;
    var before, ev := At(s, events, i), events[i];
    MovesIsSend(before, ev);
    SenderInTable(before, ev);
    MappedNow(before, ev);
    if i + 1 < n {
      PageStays(s, events, i, n - 1);
      MessageStays(s, events, i, n - 1);
      AtNext(s, events, n - 1);
      MappedStill(At(s, events, n - 1), events[n-1], ev.to, PageNum(before.envs[ev.to].dstva),
                  Word(before.views[ev.sender][PageNum(ev.srcva)].frame, ev.perm.(p := true)));
    }
  }

  lemma MovesIsSend(s: Sys, ev: Event)
    requires Moves(s, ev)
    ensures ev.SendE?
  {
  }
}
