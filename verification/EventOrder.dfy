/** The order of events under interleaving: with a reliable publisher a file's history, once all
    calls have returned, is an arrangement of the events of its transitions, and every arrangement
    occurs. A call can be overtaken between its row write and its publication. */
module EventOrder {
  import opened Domain
  import opened Protocol
  import opened Lifecycle
  import opened Sequential
  import opened Outcomes
  import opened Deletions
  import opened ExactlyOnce
  import EventHistory
  import PageTokens
  import Uuids

  predicate NoRepeats(h: seq<EventKind>) {
    forall i, j | 0 <= i < j < |h| :: h[i] != h[j]
  }

  // ---------- what a history contains ----------

  lemma {:induction false} HistoryHolds(events: seq<Event>, id: string, k: EventKind)
    ensures k in EventHistory.History(events, id) <==> Published(events, k, id)
    decreases |events|
  {
    if events != [] {
      var n := |events| - 1;
      HistoryHolds(events[..n], id, k);
      assert events == events[..n] + [events[n]];
    }
  }

  ghost predicate Distinct(events: seq<Event>) {
    forall i, j | 0 <= i < j < |events| && events[i].kind == events[j].kind :: events[i].fileId != events[j].fileId
  }

  lemma {:induction false} HistoryRepeatsNothing(events: seq<Event>, id: string)
    requires Distinct(events)
    ensures NoRepeats(EventHistory.History(events, id))
    decreases |events|
  {
    if events != [] {
      var n := |events| - 1;
      var e := events[n];
      HistoryRepeatsNothing(events[..n], id);
      HistoryHolds(events[..n], id, e.kind);
      assert !(e.fileId == id && Published(events[..n], e.kind, id)) by {
        assert forall x | x in events[..n] :: !(x.kind == e.kind && x.fileId == e.fileId);
      }
    }
  }

  lemma SomethingPublished(cfg: Config, actions: seq<Action>, id: string)
    requires EventHistory.History(Run(cfg, INIT, actions).store.events, id) != []
    ensures id in Run(cfg, INIT, actions).store.rows
  {
    var s := Run(cfg, INIT, actions).store;
    var k := EventHistory.History(s.events, id)[0];
    HistoryHolds(s.events, id, k);
    RunKeepsInv(cfg, INIT, actions);
    var e :| e in s.events && e.kind == k && e.fileId == id;
    assert EventOk(s, e);
  }

  /** With a reliable publisher, once all calls have returned, a history repeats nothing and holds
      created exactly if the file exists, ready exactly if it has been ready, and deleted exactly if
      it is deleted. */
  lemma QuietHistory(cfg: Config, actions: seq<Action>, id: string)
    requires Reliable(cfg, actions, {Publish}) && Quiet(Run(cfg, INIT, actions))
    ensures var s := Run(cfg, INIT, actions).store;
            var h := EventHistory.History(s.events, id);
            && NoRepeats(h)
            && (FileCreated in h <==> id in s.rows)
            && (FileReady in h <==> WasReady(cfg, actions, id))
            && (FileDeleted in h <==> id in s.rows && s.rows[id].status == Deleted)
            && (h != [] ==> FileCreated in h)
  {
    var s := Run(cfg, INIT, actions).store;
    QuietLogMatchesRows(cfg, actions, id);
    RunKeepsOnce(cfg, actions);
    HistoryRepeatsNothing(s.events, id);
    HistoryHolds(s.events, id, FileCreated);
    HistoryHolds(s.events, id, FileReady);
    HistoryHolds(s.events, id, FileDeleted);
    if EventHistory.History(s.events, id) != [] { SomethingPublished(cfg, actions, id); }
  }

  // ---------- calls held back before they publish ----------

  lemma ReliableExtends(cfg: Config, actions: seq<Action>, a: Action, pcs: set<Pc>)
    requires Reliable(cfg, actions, pcs) && ReliableAt(cfg, Run(cfg, INIT, actions), a, pcs)
    ensures Reliable(cfg, actions + [a], pcs) && Run(cfg, INIT, actions + [a]) == Next(cfg, Run(cfg, INIT, actions), a)
  {
    var all := actions + [a];
    assert all[..|actions|] == actions;
    forall n | 0 <= n < |all| ensures ReliableAt(cfg, Run(cfg, INIT, all[..n]), all[n], pcs) {
      if n < |actions| { assert all[..n] == actions[..n] && all[n] == actions[n]; }
    }
  }

  /** The call up to the moment it would publish. */
  ghost function Until(s: Store, c: Call, env: Env): State
    requires Legal(c)
    decreases CallRank(c)
  {
    if c.pc == Publish || c.pc == Returned then State(s, c)
    else
      StepDropsRank(s, c, ReplyAt(env, c.pc));
      var st := Step(s, c, ReplyAt(env, c.pc));
      Until(st.store, st.call, env)
  }

  lemma QuietBeforePublish(s: Store, c: Call, r: Reply)
    requires c.pc != Publish
    ensures Step(s, c, r).store.events == s.events && Step(s, c, r).call.req == c.req
  {
    RequestIsKept(s, c, r);
  }

  lemma PublishKeepsRows(s: Store, c: Call, r: Reply)
    requires c.pc == Publish
    ensures Step(s, c, r).store.rows == s.rows && Step(s, c, r).call.pc == Returned
  {
  }

  lemma ReadEndsInFailure(s: Store, c: Call, r: Reply)
    requires (c.pc == ReadRow || c.pc == ReadCache) && (IsConfirm(c.req) || IsDelete(c.req)) && Legal(c)
    requires Step(s, c, r).call.pc == Returned
    ensures Step(s, c, r).call.outcome.Failed?
  {
  }

  lemma EndsInFailure(s: Store, c: Call, r: Reply)
    requires Legal(c) && c.pc != Returned && c.pc != Publish && (IsCreate(c.req) || IsConfirm(c.req) || IsDelete(c.req))
    requires Step(s, c, r).call.pc == Returned
    ensures Step(s, c, r).call.outcome.Failed?
  {
    if c.pc == ReadRow || c.pc == ReadCache { ReadEndsInFailure(s, c, r); }
  }

  /** A call that succeeds with something to publish gets as far as publishing, with everything but
      the event done. */
  lemma {:induction false} UntilPublishes(s: Store, c: Call, env: Env)
    requires Legal(c) && c.pc != Returned && (IsCreate(c.req) || IsConfirm(c.req) || IsDelete(c.req))
    requires !Finish(s, c, env).call.outcome.Failed?
    ensures var st := Until(s, c, env);
            && st.call.pc == Publish && st.call.req == c.req && st.store.events == s.events
            && st.store.rows == Finish(s, c, env).store.rows
    decreases CallRank(c)
  {
    var r := ReplyAt(env, c.pc);
    OneStep(s, c, env);
    StepDropsRank(s, c, r);
    if c.pc == Publish {
      PublishKeepsRows(s, c, r);
    } else {
      QuietBeforePublish(s, c, r);
      var st := Step(s, c, r);
      if st.call.pc == Returned { EndsInFailure(s, c, r); } else { UntilPublishes(st.store, st.call, env); }
    }
  }

  /** A run continues with a call up to the moment it would publish. */
  lemma {:induction false} RunUntil(cfg: Config, before: seq<Action>, tid: nat, env: Env) returns (actions: seq<Action>)
    requires Reliable(cfg, before, {Publish})
    requires tid in Run(cfg, INIT, before).calls && Legal(Run(cfg, INIT, before).calls[tid])
    ensures var sys := Run(cfg, INIT, before);
            var st := Until(sys.store, sys.calls[tid], env);
            Reliable(cfg, actions, {Publish}) && Run(cfg, INIT, actions) == System(st.store, sys.calls[tid := st.call])
    decreases CallRank(Run(cfg, INIT, before).calls[tid])
  {
    var sys := Run(cfg, INIT, before);
    var c := sys.calls[tid];
    if c.pc == Publish || c.pc == Returned {
      actions := before;
      assert sys.calls[tid := c] == sys.calls;
    } else {
      var r := ReplyAt(env, c.pc);
      StepDropsRank(sys.store, c, r);
      ReliableExtends(cfg, before, Advance(tid, r), {Publish});
      var st := Step(sys.store, c, r);
      actions := RunUntil(cfg, before + [Advance(tid, r)], tid, env);
      Overwrite(sys.calls, tid, st.call, Until(st.store, st.call, env).call);
    }
  }

  lemma BeginSucceeds(cfg: Config, s: Store, req: Request, env: Env)
    requires !Perform(cfg, s, req, env).call.outcome.Failed?
    ensures var c := Begin(cfg, req, env.now);
            c.pc != Returned && c.req == Resolved(req) && (IsCreate(c.req) <==> IsCreate(req)) &&
            (IsConfirm(c.req) <==> IsConfirm(req)) && (IsDelete(c.req) <==> IsDelete(req))
  {
    if IsCreate(req) { BeginCreateShape(cfg, req, env.now); } else { BeginShape(cfg, req, env.now); }
  }

  lemma ArriveUntil(cfg: Config, before: seq<Action>, tid: nat, req: Request, env: Env) returns (actions: seq<Action>)
    requires Reliable(cfg, before, {Publish}) && tid !in Run(cfg, INIT, before).calls && Legal(Begin(cfg, req, env.now))
    ensures var sys := Run(cfg, INIT, before);
            var st := Until(sys.store, Begin(cfg, req, env.now), env);
            Reliable(cfg, actions, {Publish}) && Run(cfg, INIT, actions) == System(st.store, sys.calls[tid := st.call])
  {
    var sys, c, a := Run(cfg, INIT, before), Begin(cfg, req, env.now), Invoke(tid, req, env.now);
    ReliableExtends(cfg, before, a, {Publish});
    Arrives(cfg, before, tid, req, env.now);
    actions := RunUntil(cfg, before + [a], tid, env);
    Overwrite(sys.calls, tid, c, Until(sys.store, c, env).call);
  }

  /** A call arrives after a run and is held back before it publishes. */
  lemma HoldBack(cfg: Config, before: seq<Action>, tid: nat, req: Request, env: Env) returns (actions: seq<Action>)
    requires Reliable(cfg, before, {Publish}) && tid !in Run(cfg, INIT, before).calls
    requires IsCreate(req) || IsConfirm(req) || IsDelete(req)
    requires !Perform(cfg, Run(cfg, INIT, before).store, req, env).call.outcome.Failed?
    ensures var sys, sys' := Run(cfg, INIT, before), Run(cfg, INIT, actions);
            && Reliable(cfg, actions, {Publish}) && sys'.store.events == sys.store.events
            && sys'.store.rows == Perform(cfg, sys.store, req, env).store.rows
            && tid in sys'.calls && sys'.calls == sys.calls[tid := sys'.calls[tid]]
            && sys'.calls[tid].pc == Publish && sys'.calls[tid].req == Resolved(req)
  {
    var sys, c := Run(cfg, INIT, before), Begin(cfg, req, env.now);
    BeginIsLegal(cfg, req, env.now);
    BeginSucceeds(cfg, sys.store, req, env);
    UntilPublishes(sys.store, c, env);
    actions := ArriveUntil(cfg, before, tid, req, env);
  }

  // ---------- publishing in any order ----------

  /** Which call publishes which event in the runs below. */
  function Publisher(k: EventKind): nat {
    match k case FileCreated => 0 case FileReady => 1 case FileDeleted => 2
  }

  /** The calls that will publish these events are waiting, and no other call is unfinished. */
  ghost predicate Waiting(sys: System, order: seq<EventKind>, id: string) {
    && (forall k | k in order ::
          && Publisher(k) in sys.calls && sys.calls[Publisher(k)].pc == Publish
          && KindPublished(sys.calls[Publisher(k)].req) == k && sys.calls[Publisher(k)].file.id == id)
    && (forall t | t in sys.calls && sys.calls[t].pc != Returned :: exists k :: k in order && Publisher(k) == t)
  }

  lemma PublishStep(s: Store, c: Call, r: Reply)
    requires c.pc == Publish && r.ok
    ensures var st := Step(s, c, r);
            && st.store == s.(events := s.events + [EventOf(KindPublished(c.req), c.file)])
            && st.call.pc == Returned
  {
  }

  lemma FirstPublishes(cfg: Config, sys: System, order: seq<EventKind>, id: string, r: Reply)
    requires order != [] && NoRepeats(order) && Waiting(sys, order, id) && r.ok
    ensures var sys' := Next(cfg, sys, Advance(Publisher(order[0]), r));
            && Waiting(sys', order[1..], id)
            && EventHistory.History(sys'.store.events, id) == EventHistory.History(sys.store.events, id) + [order[0]]
            && sys'.store.rows == sys.store.rows
  {
    var k, t := order[0], Publisher(order[0]);
    assert k in order;
    var c := sys.calls[t];
    PublishStep(sys.store, c, r);
    EventHistory.HistoryExtends(sys.store, Emit(EventOf(k, c.file)), id);
    var sys' := Next(cfg, sys, Advance(t, r));
    forall j | j in order[1..] ensures j in order && Publisher(j) != t {
      var i :| 0 <= i < |order[1..]| && order[1..][i] == j;
      assert order[i + 1] == j && order[0] != order[i + 1];
    }
    forall v | v in sys'.calls && sys'.calls[v].pc != Returned ensures exists j :: j in order[1..] && Publisher(j) == v {
      assert v != t && sys.calls[v] == sys'.calls[v];
      var j :| j in order && Publisher(j) == v;
      assert j in order[1..] by { assert order == [order[0]] + order[1..]; }
    }
  }

  lemma NobodyWaits(sys: System, id: string)
    requires Waiting(sys, [], id)
    ensures Quiet(sys)
  {
  }

  lemma Regroup(h: seq<EventKind>, order: seq<EventKind>)
    requires order != []
    ensures (h + [order[0]]) + order[1..] == h + order
  {
  }

  lemma PublishFirst(cfg: Config, before: seq<Action>, order: seq<EventKind>, id: string) returns (actions: seq<Action>)
    requires Reliable(cfg, before, {Publish}) && NoRepeats(order) && Waiting(Run(cfg, INIT, before), order, id)
    requires order != []
    ensures var sys, sys' := Run(cfg, INIT, before), Run(cfg, INIT, actions);
            && Reliable(cfg, actions, {Publish}) && Waiting(sys', order[1..], id) && NoRepeats(order[1..])
            && EventHistory.History(sys'.store.events, id) == EventHistory.History(sys.store.events, id) + [order[0]]
  {
    var a := Advance(Publisher(order[0]), Reply(true, 0, ""));
    assert order[0] in order;
    FirstPublishes(cfg, Run(cfg, INIT, before), order, id, a.reply);
    ReliableExtends(cfg, before, a, {Publish});
    actions := before + [a];
  }

  lemma {:induction false} PublishAll(cfg: Config, before: seq<Action>, order: seq<EventKind>, id: string)
    returns (actions: seq<Action>)
    requires Reliable(cfg, before, {Publish}) && NoRepeats(order) && Waiting(Run(cfg, INIT, before), order, id)
    ensures var sys, sys' := Run(cfg, INIT, before), Run(cfg, INIT, actions);
            && Reliable(cfg, actions, {Publish}) && Quiet(sys')
            && EventHistory.History(sys'.store.events, id) == EventHistory.History(sys.store.events, id) + order
    decreases |order|
  {
    if order == [] {
      actions := before;
      NobodyWaits(Run(cfg, INIT, before), id);
    } else {
      var next := PublishFirst(cfg, before, order, id);
      actions := PublishAll(cfg, next, order[1..], id);
      Regroup(EventHistory.History(Run(cfg, INIT, before).store.events, id), order);
    }
  }

  // ---------- every order occurs ----------

  /** The status of a file whose transitions these events announce. */
  function StatusAfter(kinds: set<EventKind>): FileStatus {
    if FileDeleted in kinds then Deleted else if FileReady in kinds then Ready else Pending
  }

  ghost predicate Waits(sys: System, k: EventKind, id: string) {
    var t := Publisher(k);
    t in sys.calls && sys.calls[t].pc == Publish && KindPublished(sys.calls[t].req) == k && sys.calls[t].req.id == id
  }

  ghost predicate AllWait(sys: System, id: string, kinds: set<EventKind>) {
    && (forall k | k in kinds :: Waits(sys, k, id))
    && (forall t | t in sys.calls :: exists k :: k in kinds && Publisher(k) == t)
  }

  /** The file has made these transitions, and none of them has been published. */
  ghost predicate Stage(cfg: Config, actions: seq<Action>, id: string, owner: string, kinds: set<EventKind>) {
    var sys := Run(cfg, INIT, actions);
    && Reliable(cfg, actions, {Publish}) && sys.store.events == []
    && AllWait(sys, id, kinds)
    && PageTokens.IsCanonical(id) && Uuids.Canon(id) == id && id != "" && owner != ""
    && id in sys.store.rows && sys.store.rows[id].owner == owner && sys.store.rows[id].status == StatusAfter(kinds)
  }

  lemma OneMoreWaits(sys: System, sys': System, id: string, kinds: set<EventKind>, k: EventKind)
    requires Publisher(k) in sys'.calls && sys'.calls == sys.calls[Publisher(k) := sys'.calls[Publisher(k)]]
    requires AllWait(sys, id, kinds) && Waits(sys', k, id) && k !in kinds
    ensures AllWait(sys', id, kinds + {k})
  {
    forall j | j in kinds ensures Waits(sys', j, id) { assert Waits(sys, j, id) && Publisher(j) != Publisher(k); }
    forall t | t in sys'.calls ensures exists j :: j in kinds + {k} && Publisher(j) == t {
      if t != Publisher(k) { var j :| j in kinds && Publisher(j) == t; assert j in kinds + {k}; }
    }
  }

  lemma ResolvedKind(req: Request, k: EventKind)
    requires KindPublished(req) == k && (IsConfirm(req) || IsDelete(req))
    ensures KindPublished(Resolved(req)) == k && Resolved(req).id == Uuids.Canon(req.id)
  {
  }

  /** One more call is held back. */
  lemma NextStage(
    cfg: Config, before: seq<Action>, id: string, owner: string, kinds: set<EventKind>, k: EventKind, req: Request, env: Env)
    returns (actions: seq<Action>)
    requires Stage(cfg, before, id, owner, kinds) && k !in kinds && KindPublished(req) == k && req.id == id
    requires IsConfirm(req) || IsDelete(req)
    requires var st := Perform(cfg, Run(cfg, INIT, before).store, req, env);
             && !st.call.outcome.Failed? && id in st.store.rows && st.store.rows[id].owner == owner
             && st.store.rows[id].status == StatusAfter(kinds + {k})
    ensures Stage(cfg, actions, id, owner, kinds + {k})
  {
    var sys := Run(cfg, INIT, before);
    assert forall j | j in kinds :: Publisher(j) != Publisher(k);
    actions := HoldBack(cfg, before, Publisher(k), req, env);
    ResolvedKind(req, k);
    OneMoreWaits(sys, Run(cfg, INIT, actions), id, kinds, k);
  }

  lemma FirstStage(cfg: Config, create: Request, env: Env) returns (actions: seq<Action>)
    requires AcceptsUpload(cfg, create) && env.faults == {}
    ensures Stage(cfg, actions, create.id, create.owner, {FileCreated})
  {
    CreateUploadSucceedsIff(cfg, EMPTY, create, env);
    Uuids.CanonicalParses(create.id);
    actions := HoldBack(cfg, [], 0, create, env);
    var sys := Run(cfg, INIT, actions);
    assert Waits(sys, FileCreated, create.id);
    assert forall t | t in sys.calls :: t == Publisher(FileCreated);
  }

  lemma ConfirmMakesReady(cfg: Config, s: Store, id: string, owner: string, env: Env)
    requires StoreInv(cfg, s) && PageTokens.IsCanonical(id) && Uuids.Canon(id) == id && id != "" && owner != ""
    requires id in s.rows && s.rows[id].owner == owner && s.rows[id].status == Pending && env.faults == {}
    ensures var end := Perform(cfg, s, ConfirmUpload(id, owner, ""), env);
            && !end.call.outcome.Failed? && id in end.store.rows && end.store.rows[id].owner == owner
            && end.store.rows[id].status == Ready
  {
    assert s.rows[id].id == id;
    ConfirmSucceedsIff(cfg, s, ConfirmUpload(id, owner, ""), env);
  }

  lemma ReadyStage(cfg: Config, before: seq<Action>, id: string, owner: string, env: Env) returns (actions: seq<Action>)
    requires Stage(cfg, before, id, owner, {FileCreated}) && env.faults == {}
    ensures Stage(cfg, actions, id, owner, {FileCreated, FileReady})
  {
    var s, req := Run(cfg, INIT, before).store, ConfirmUpload(id, owner, "");
    RunKeepsInv(cfg, INIT, before);
    ConfirmMakesReady(cfg, s, id, owner, env);
    assert {FileCreated} + {FileReady} == {FileCreated, FileReady};
    actions := NextStage(cfg, before, id, owner, {FileCreated}, FileReady, req, env);
  }

  lemma DeletedStage(cfg: Config, before: seq<Action>, id: string, owner: string, kinds: set<EventKind>, env: Env)
    returns (actions: seq<Action>)
    requires Stage(cfg, before, id, owner, kinds) && FileDeleted !in kinds && env.faults == {}
    ensures Stage(cfg, actions, id, owner, kinds + {FileDeleted})
  {
    var s, req := Run(cfg, INIT, before).store, DeleteFile(id, owner);
    RunKeepsInv(cfg, INIT, before);
    assert Deletable(s, req, env);
    DeleteSucceedsIff(cfg, s, req, env);
    actions := NextStage(cfg, before, id, owner, kinds, FileDeleted, req, env);
  }

  lemma WaitsWithFile(cfg: Config, sys: System, k: EventKind, id: string)
    requires SystemInv(cfg, sys) && Waits(sys, k, id)
    ensures sys.calls[Publisher(k)].file.id == id
  {
    assert CallInv(cfg, sys.store, sys.calls[Publisher(k)]);
  }

  lemma AllWaitInOrder(cfg: Config, sys: System, id: string, kinds: set<EventKind>, order: seq<EventKind>)
    requires SystemInv(cfg, sys) && AllWait(sys, id, kinds) && forall k :: k in order <==> k in kinds
    ensures Waiting(sys, order, id)
  {
    forall k | k in order ensures Waits(sys, k, id) && sys.calls[Publisher(k)].file.id == id {
      assert Waits(sys, k, id);
      WaitsWithFile(cfg, sys, k, id);
    }
    forall t | t in sys.calls ensures exists k :: k in order && Publisher(k) == t {
      var k :| k in kinds && Publisher(k) == t;
      assert k in order;
    }
  }

  lemma StageWaits(cfg: Config, actions: seq<Action>, id: string, owner: string, kinds: set<EventKind>, order: seq<EventKind>)
    requires Stage(cfg, actions, id, owner, kinds) && forall k :: k in order <==> k in kinds
    ensures Waiting(Run(cfg, INIT, actions), order, id)
  {
    RunKeepsInv(cfg, INIT, actions);
    AllWaitInOrder(cfg, Run(cfg, INIT, actions), id, kinds, order);
  }

  /** Every arrangement of created, with or without ready, with or without deleted, is the history
      of a file in some run with a reliable publisher and all calls returned. */
  lemma EveryOrderOccurs(cfg: Config, create: Request, env: Env, order: seq<EventKind>) returns (actions: seq<Action>)
    requires AcceptsUpload(cfg, create) && env.faults == {} && NoRepeats(order) && FileCreated in order
    ensures Reliable(cfg, actions, {Publish}) && Quiet(Run(cfg, INIT, actions))
    ensures EventHistory.History(Run(cfg, INIT, actions).store.events, create.id) == order
  {
    var id, owner := create.id, create.owner;
    var a := FirstStage(cfg, create, env);
    var kinds := {FileCreated};
    if FileReady in order {
      a := ReadyStage(cfg, a, id, owner, env);
      kinds := {FileCreated, FileReady};
    }
    if FileDeleted in order {
      a := DeletedStage(cfg, a, id, owner, kinds, env);
      kinds := kinds + {FileDeleted};
    }
    forall k ensures k in order <==> k in kinds {
      match k case FileCreated => case FileReady => case FileDeleted =>
    }
    StageWaits(cfg, a, id, owner, kinds, order);
    actions := PublishAll(cfg, a, order, id);
  }

  ghost predicate HistoryAfter(cfg: Config, actions: seq<Action>, id: string, order: seq<EventKind>) {
    && Reliable(cfg, actions, {Publish}) && Quiet(Run(cfg, INIT, actions))
    && EventHistory.History(Run(cfg, INIT, actions).store.events, id) == order
  }

  /** The histories a reliable publisher can leave behind are exactly the empty one and the
      arrangements that hold created. */
  lemma HistoryOccursIff(cfg: Config, create: Request, env: Env, order: seq<EventKind>)
    requires AcceptsUpload(cfg, create) && env.faults == {} && order != []
    ensures (exists actions :: HistoryAfter(cfg, actions, create.id, order)) <==> NoRepeats(order) && FileCreated in order
  {
    if NoRepeats(order) && FileCreated in order {
      var actions := EveryOrderOccurs(cfg, create, env, order);
      assert HistoryAfter(cfg, actions, create.id, order);
    }
    forall actions | HistoryAfter(cfg, actions, create.id, order) ensures NoRepeats(order) && FileCreated in order {
      QuietHistory(cfg, actions, create.id);
    }
  }
}
