/** Events under interleaving: at most one of each kind for a file, whatever fails, and exactly
    one for each transition that happened when the publisher is reliable. */
module ExactlyOnce {
  import opened Domain
  import opened Protocol
  import opened Lifecycle

  /** The call has made the transition and still has to announce it. */
  predicate Owes(c: Call, k: EventKind) {
    match k
    case FileCreated => IsCreate(c.req) && (c.pc == FillCache || c.pc == Publish)
    case FileReady => IsConfirm(c.req) && (c.pc == DeleteParts || c.pc == FillCache || c.pc == Publish)
    case FileDeleted =>
      || (c.req.AbortMultipart? && (c.pc == Invalidate || c.pc == Publish))
      || (c.req.DeleteFile? && (c.pc == AbortUpload || c.pc == DeleteParts || c.pc == RemoveObject ||
                                c.pc == Invalidate || c.pc == Publish))
  }

  /** The transition has not happened yet: its guarded statement can still succeed. */
  predicate Fresh(rows: map<string, FileMetadata>, k: EventKind, id: string) {
    id !in rows ||
    match k
    case FileCreated => false
    case FileReady => rows[id].status == Pending
    case FileDeleted => rows[id].status != Deleted
  }

  ghost predicate Published(events: seq<Event>, k: EventKind, id: string) {
    exists e :: e in events && e.kind == k && e.fileId == id
  }

  // ---------- one statement ----------

  /** A debt is taken on only by the statement that ends freshness, and an event is published
      only by the call that owes it, which then owes it no more. */
  ghost predicate FairMove(s: Store, c: Call, m: Move, k: EventKind) {
    var s' := Apply(s, m.effect);
    && m.call.req == c.req
    && (Owes(m.call, k) ==> Owes(c, k) || (Fresh(s.rows, k, c.req.id) && !Fresh(s'.rows, k, c.req.id)))
    && (m.effect.Emit? && m.effect.event.kind == k ==>
          Owes(c, k) && !Owes(m.call, k) && m.effect.event.fileId == c.req.id)
  }

  lemma ReadOwesNothing(s: Store, c: Call, r: Reply, k: EventKind)
    requires Legal(c) && (c.pc == ReadRow || c.pc == ReadCache)
    ensures Decide(s, c, r).effect == NoEffect && Decide(s, c, r).call.req == c.req
    ensures !Owes(Decide(s, c, r).call, k)
  {
  }

  lemma AnnouncingIsFair(cfg: Config, s: Store, c: Call, r: Reply, k: EventKind)
    requires CallInv(cfg, s, c)
    requires c.pc == FillCache || c.pc == Invalidate || c.pc == DeleteParts || c.pc == Publish
    ensures FairMove(s, c, Decide(s, c, r), k)
  {
  }

  lemma StorageIsFair(cfg: Config, s: Store, c: Call, r: Reply, k: EventKind)
    requires CallInv(cfg, s, c) && c.pc != InsertRow && c.pc != ConfirmRow && c.pc != SoftDelete && c.pc != ReadRow
    requires c.pc != ReadCache && c.pc != FillCache && c.pc != Invalidate && c.pc != DeleteParts && c.pc != Publish
    ensures FairMove(s, c, Decide(s, c, r), k)
  {
  }

  lemma InsertIsFair(cfg: Config, s: Store, c: Call, r: Reply, k: EventKind)
    requires CallInv(cfg, s, c) && c.pc == InsertRow
    ensures FairMove(s, c, Decide(s, c, r), k)
  {
    assert BuildingOk(cfg, s, c);
  }

  lemma ConfirmIsFair(s: Store, c: Call, r: Reply, k: EventKind)
    requires Legal(c) && c.pc == ConfirmRow && (c.req.id in s.rows ==> s.rows[c.req.id].id == c.req.id)
    ensures FairMove(s, c, Decide(s, c, r), k)
  {
  }

  lemma SoftDeleteIsFair(s: Store, c: Call, r: Reply, k: EventKind)
    requires Legal(c) && c.pc == SoftDelete && (c.req.id in s.rows ==> s.rows[c.req.id].id == c.req.id)
    ensures FairMove(s, c, Decide(s, c, r), k)
  {
  }

  lemma UpdateIsFair(cfg: Config, s: Store, c: Call, r: Reply, k: EventKind)
    requires RowsOk(cfg, s) && Legal(c) && (c.pc == ConfirmRow || c.pc == SoftDelete)
    ensures FairMove(s, c, Decide(s, c, r), k)
  {
    if c.req.id in s.rows { assert s.rows[c.req.id].id == c.req.id; }
    if c.pc == ConfirmRow { ConfirmIsFair(s, c, r, k); } else { SoftDeleteIsFair(s, c, r, k); }
  }

  lemma WriteIsFair(cfg: Config, s: Store, c: Call, r: Reply, k: EventKind)
    requires RowsOk(cfg, s) && CallInv(cfg, s, c)
    requires c.pc == InsertRow || c.pc == ConfirmRow || c.pc == SoftDelete
    ensures FairMove(s, c, Decide(s, c, r), k)
  {
    if c.pc == InsertRow {
      InsertIsFair(cfg, s, c, r, k);
    } else {
      UpdateIsFair(cfg, s, c, r, k);
    }
  }

  lemma StepIsFair(cfg: Config, s: Store, c: Call, r: Reply, k: EventKind)
    requires RowsOk(cfg, s) && CallInv(cfg, s, c)
    ensures FairMove(s, c, Decide(s, c, r), k)
  {
    if c.pc == InsertRow || c.pc == ConfirmRow || c.pc == SoftDelete {
      WriteIsFair(cfg, s, c, r, k);
    } else if c.pc == ReadRow || c.pc == ReadCache {
      ReadOwesNothing(s, c, r, k);
    } else if c.pc == FillCache || c.pc == Invalidate || c.pc == DeleteParts || c.pc == Publish {
      AnnouncingIsFair(cfg, s, c, r, k);
    } else {
      StorageIsFair(cfg, s, c, r, k);
    }
  }

  lemma FreshShrinks(s: Store, s': Store, k: EventKind, id: string)
    requires Extends(s, s') && Fresh(s'.rows, k, id)
    ensures Fresh(s.rows, k, id)
  {
  }

  // ---------- at most once ----------

  ghost predicate OnceInv(sys: System) {
    && (forall k, id | Published(sys.store.events, k, id) :: !Fresh(sys.store.rows, k, id))
    && (forall t, k | t in sys.calls && Owes(sys.calls[t], k) ::
          !Fresh(sys.store.rows, k, sys.calls[t].req.id) && !Published(sys.store.events, k, sys.calls[t].req.id))
    && (forall t, u, k | t in sys.calls && u in sys.calls && Owes(sys.calls[t], k) && Owes(sys.calls[u], k) &&
                         sys.calls[t].req.id == sys.calls[u].req.id :: t == u)
    && (forall i, j | 0 <= i < j < |sys.store.events| && sys.store.events[i].kind == sys.store.events[j].kind ::
          sys.store.events[i].fileId != sys.store.events[j].fileId)
  }

  lemma PublishedAfter(s: Store, e: Effect, k: EventKind, id: string)
    ensures Published(Apply(s, e).events, k, id) <==>
            Published(s.events, k, id) || (e.Emit? && e.event.kind == k && e.event.fileId == id)
  {
    if e.Emit? {
      assert e.event in s.events + [e.event];
      if Published(s.events, k, id) {
        var x :| x in s.events && x.kind == k && x.fileId == id;
        assert x in s.events + [e.event];
      }
    }
  }

  lemma EventsStayDistinct(sys: System, tid: nat, m: Move)
    requires OnceInv(sys) && tid in sys.calls
    requires forall k :: FairMove(sys.store, sys.calls[tid], m, k)
    ensures var es := Apply(sys.store, m.effect).events;
            forall i, j | 0 <= i < j < |es| && es[i].kind == es[j].kind :: es[i].fileId != es[j].fileId
  {
    var es := Apply(sys.store, m.effect).events;
    if m.effect.Emit? {
      var e := m.effect.event;
      assert FairMove(sys.store, sys.calls[tid], m, e.kind);
      forall i | 0 <= i < |sys.store.events| && sys.store.events[i].kind == e.kind
        ensures sys.store.events[i].fileId != e.fileId
      {
        assert sys.store.events[i] in sys.store.events;
      }
    }
  }

  lemma FairMoveKeepsOnce(sys: System, tid: nat, m: Move, sys': System)
    requires OnceInv(sys) && tid in sys.calls
    requires forall k :: FairMove(sys.store, sys.calls[tid], m, k)
    requires sys' == System(Apply(sys.store, m.effect), sys.calls[tid := m.call]) && Extends(sys.store, sys'.store)
    ensures OnceInv(sys')
  {
    var s, s', c := sys.store, sys'.store, sys.calls[tid];
    forall k, id | Published(s'.events, k, id) ensures !Fresh(s'.rows, k, id) {
      PublishedAfter(s, m.effect, k, id);
      assert FairMove(s, c, m, k);
      if Fresh(s'.rows, k, id) { FreshShrinks(s, s', k, id); }
    }
    forall t, k | t in sys'.calls && Owes(sys'.calls[t], k)
      ensures !Fresh(s'.rows, k, sys'.calls[t].req.id) && !Published(s'.events, k, sys'.calls[t].req.id)
    {
      var id := sys'.calls[t].req.id;
      assert FairMove(s, c, m, k);
      PublishedAfter(s, m.effect, k, id);
      if Fresh(s'.rows, k, id) { FreshShrinks(s, s', k, id); }
    }
    forall t, u, k | t in sys'.calls && u in sys'.calls && Owes(sys'.calls[t], k) && Owes(sys'.calls[u], k) &&
                     sys'.calls[t].req.id == sys'.calls[u].req.id
      ensures t == u
    {
      assert FairMove(s, c, m, k);
    }
    EventsStayDistinct(sys, tid, m);
  }

  lemma StepKeepsOnce(cfg: Config, sys: System, tid: nat, r: Reply)
    requires SystemInv(cfg, sys) && OnceInv(sys) && tid in sys.calls
    ensures OnceInv(Next(cfg, sys, Advance(tid, r)))
  {
    var s, c, sys' := sys.store, sys.calls[tid], Next(cfg, sys, Advance(tid, r));
    var m := Decide(s, c, r);
    StepKeepsInv(cfg, sys, tid, r);
    forall k ensures FairMove(s, c, m, k) { StepIsFair(cfg, s, c, r, k); }
    FairMoveKeepsOnce(sys, tid, m, sys');
  }

  lemma EnvironmentKeepsOnce(sys: System, e: Effect)
    requires OnceInv(sys) && (e.DropCache? || e.PutObject?)
    ensures OnceInv(sys.(store := Apply(sys.store, e)))
  {
    var s' := Apply(sys.store, e);
    assert s'.rows == sys.store.rows && s'.events == sys.store.events;
  }

  lemma ArrivedOwesNothing(c: Call)
    requires Arrived(c)
    ensures forall k :: !Owes(c, k)
  {
  }

  lemma BeginOwesNothing(cfg: Config, req: Request, now: int64)
    ensures forall k :: !Owes(Begin(cfg, req, now), k)
  {
    BeginArrives(cfg, req, now);
    ArrivedOwesNothing(Begin(cfg, req, now));
  }

  lemma InvokeKeepsOnce(cfg: Config, sys: System, tid: nat, req: Request, now: int64)
    requires OnceInv(sys) && tid !in sys.calls
    ensures OnceInv(Next(cfg, sys, Invoke(tid, req, now)))
  {
    BeginOwesNothing(cfg, req, now);
    var sys' := Next(cfg, sys, Invoke(tid, req, now));
    assert sys'.store == sys.store;
    assert forall t, k | t in sys'.calls && Owes(sys'.calls[t], k) :: t in sys.calls && sys'.calls[t] == sys.calls[t];
  }

  lemma NextKeepsOnce(cfg: Config, sys: System, a: Action)
    requires SystemInv(cfg, sys) && OnceInv(sys)
    ensures OnceInv(Next(cfg, sys, a))
  {
    match a
    case Invoke(tid, req, now) =>
      if tid !in sys.calls { InvokeKeepsOnce(cfg, sys, tid, req, now); }
    case Advance(tid, r) =>
      if tid in sys.calls { StepKeepsOnce(cfg, sys, tid, r); }
    case Evict(id) => EnvironmentKeepsOnce(sys, DropCache(id));
    case ClientPut(key) => EnvironmentKeepsOnce(sys, PutObject(key));
  }

  lemma {:induction false} RunKeepsOnce(cfg: Config, actions: seq<Action>)
    ensures OnceInv(Run(cfg, INIT, actions))
    decreases |actions|
  {
    if actions != [] {
      var front := actions[..|actions| - 1];
      RunKeepsOnce(cfg, front);
      RunKeepsInv(cfg, INIT, front);
      NextKeepsOnce(cfg, Run(cfg, INIT, front), actions[|actions| - 1]);
    }
  }

  /** Under every interleaving, with any failures, at most one file.created, one file.ready and
      one file.deleted are published for a file, and none before its transition. */
  lemma EventsAtMostOnce(cfg: Config, actions: seq<Action>, i: nat, j: nat)
    requires i < |Run(cfg, INIT, actions).store.events| && j < |Run(cfg, INIT, actions).store.events|
    ensures var s := Run(cfg, INIT, actions).store;
            && (s.events[i].kind == s.events[j].kind && s.events[i].fileId == s.events[j].fileId ==> i == j)
            && !Fresh(s.rows, s.events[i].kind, s.events[i].fileId)
            && EventOk(s, s.events[i])
  {
    RunKeepsOnce(cfg, actions);
    RunKeepsInv(cfg, INIT, actions);
    var s := Run(cfg, INIT, actions).store;
    assert s.events[i] in s.events;
    assert Published(s.events, s.events[i].kind, s.events[i].fileId);
  }

  // ---------- exactly once ----------

  ghost predicate ReliableAt(cfg: Config, sys: System, a: Action, pcs: set<Pc>) {
    a.Advance? && a.tid in sys.calls && sys.calls[a.tid].pc in pcs ==> a.reply.ok
  }

  /** No statement of the given kinds fails in the run. */
  ghost predicate Reliable(cfg: Config, actions: seq<Action>, pcs: set<Pc>) {
    forall n | 0 <= n < |actions| :: ReliableAt(cfg, Run(cfg, INIT, actions[..n]), actions[n], pcs)
  }

  lemma ReliablePrefix(cfg: Config, actions: seq<Action>, pcs: set<Pc>)
    requires Reliable(cfg, actions, pcs) && actions != []
    ensures Reliable(cfg, actions[..|actions| - 1], pcs)
    ensures ReliableAt(cfg, Run(cfg, INIT, actions[..|actions| - 1]), actions[|actions| - 1], pcs)
  {
    var front := actions[..|actions| - 1];
    forall n | 0 <= n < |front| ensures ReliableAt(cfg, Run(cfg, INIT, front[..n]), front[n], pcs) {
      assert front[..n] == actions[..n] && front[n] == actions[n];
    }
  }

  /** The row shows that the transition happened. */
  predicate Happened(rows: map<string, FileMetadata>, k: EventKind, id: string) {
    id in rows &&
    match k
    case FileCreated => true
    case FileReady => rows[id].status == Ready
    case FileDeleted => rows[id].status == Deleted
  }

  ghost predicate Announced(sys: System, k: EventKind, id: string) {
    Published(sys.store.events, k, id) ||
    exists t :: t in sys.calls && Owes(sys.calls[t], k) && sys.calls[t].req.id == id
  }

  ghost predicate AnnouncedInv(sys: System) {
    forall k, id | Happened(sys.store.rows, k, id) :: Announced(sys, k, id)
  }

  /** A transition leaves a debt, and a debt is dropped only by publishing. */
  ghost predicate HonestMove(s: Store, c: Call, m: Move, k: EventKind) {
    var s' := Apply(s, m.effect);
    && m.call.req == c.req
    && (forall id | Happened(s'.rows, k, id) && !Happened(s.rows, k, id) :: id == c.req.id && Owes(m.call, k))
    && (Owes(c, k) && !Owes(m.call, k) ==>
          m.effect.Emit? && m.effect.event.kind == k && m.effect.event.fileId == c.req.id)
  }

  /** A call at a row write owes nothing, and after a successful one owes the event it announces. */
  lemma WriteOwes(cfg: Config, s: Store, c: Call, r: Reply)
    requires CallInv(cfg, s, c) && WritesRow(c.pc)
    ensures forall k :: !Owes(c, k)
    ensures Decide(s, c, r).call.req == c.req
    ensures Decide(s, c, r).effect.PutRow? ==> Owes(Decide(s, c, r).call, KindPublished(c.req))
    ensures Decide(s, c, r).effect.PutRow? || Decide(s, c, r).effect == NoEffect
  {
  }

  lemma WriteIsHonest(cfg: Config, s: Store, c: Call, r: Reply, k: EventKind)
    requires RowsOk(cfg, s) && CallInv(cfg, s, c) && WritesRow(c.pc)
    ensures HonestMove(s, c, Decide(s, c, r), k)
  {
    var m := Decide(s, c, r);
    WriteOwes(cfg, s, c, r);
    if m.effect.PutRow? {
      WrittenRow(cfg, s, c, r);
      forall id | Happened(Apply(s, m.effect).rows, k, id) && !Happened(s.rows, k, id)
        ensures id == c.req.id && k == KindPublished(c.req)
      {
      }
    }
  }

  lemma DebtStep(s: Store, c: Call, r: Reply, k: EventKind)
    requires Legal(c) && Owes(c, k) && (c.pc == Publish ==> r.ok)
    ensures Owes(Decide(s, c, r).call, k) || Decide(s, c, r).effect == Emit(EventOf(k, c.file))
  {
  }

  lemma DebtIsKept(cfg: Config, s: Store, c: Call, r: Reply, k: EventKind)
    requires CallInv(cfg, s, c) && (c.pc == Publish ==> r.ok)
    requires c.pc != InsertRow && c.pc != ConfirmRow && c.pc != SoftDelete
    ensures Decide(s, c, r).call.req == c.req
    ensures Owes(c, k) && !Owes(Decide(s, c, r).call, k) ==>
              Decide(s, c, r).effect == Emit(EventOf(k, c.file)) && c.file.id == c.req.id
  {
    RequestIsKept(s, c, r);
    if Owes(c, k) {
      assert CopyOk(cfg, s, c);
      DebtStep(s, c, r, k);
    }
  }

  lemma StepIsHonest(cfg: Config, s: Store, c: Call, r: Reply, k: EventKind)
    requires RowsOk(cfg, s) && CallInv(cfg, s, c) && (c.pc == Publish ==> r.ok)
    ensures HonestMove(s, c, Decide(s, c, r), k)
  {
    if c.pc == InsertRow || c.pc == ConfirmRow || c.pc == SoftDelete {
      WriteIsHonest(cfg, s, c, r, k);
    } else {
      SideEffectIsQuiet(s, c, r);
      DebtIsKept(cfg, s, c, r, k);
    }
  }

  lemma HonestStaysAnnounced(sys: System, tid: nat, m: Move, k: EventKind, id: string)
    requires tid in sys.calls && Announced(sys, k, id) && HonestMove(sys.store, sys.calls[tid], m, k)
    ensures Announced(System(Apply(sys.store, m.effect), sys.calls[tid := m.call]), k, id)
  {
    var sys' := System(Apply(sys.store, m.effect), sys.calls[tid := m.call]);
    PublishedAfter(sys.store, m.effect, k, id);
    if !Published(sys.store.events, k, id) {
      var t :| t in sys.calls && Owes(sys.calls[t], k) && sys.calls[t].req.id == id;
      if t != tid { assert sys'.calls[t] == sys.calls[t]; }
      if t == tid && Owes(m.call, k) { assert sys'.calls[t] == m.call; }
    }
  }

  /** Once announced, always announced. */
  lemma StaysAnnounced(cfg: Config, sys: System, a: Action, k: EventKind, id: string)
    requires SystemInv(cfg, sys) && Announced(sys, k, id) && ReliableAt(cfg, sys, a, {Publish})
    ensures Announced(Next(cfg, sys, a), k, id)
  {
    var sys' := Next(cfg, sys, a);
    if a.Advance? && a.tid in sys.calls {
      StepIsHonest(cfg, sys.store, sys.calls[a.tid], a.reply, k);
      HonestStaysAnnounced(sys, a.tid, Decide(sys.store, sys.calls[a.tid], a.reply), k, id);
    } else if !Published(sys.store.events, k, id) {
      var t :| t in sys.calls && Owes(sys.calls[t], k) && sys.calls[t].req.id == id;
      assert sys'.calls[t] == sys.calls[t];
    }
  }

  lemma StepKeepsAnnounced(cfg: Config, sys: System, tid: nat, r: Reply)
    requires SystemInv(cfg, sys) && AnnouncedInv(sys) && tid in sys.calls
    requires sys.calls[tid].pc == Publish ==> r.ok
    ensures AnnouncedInv(Next(cfg, sys, Advance(tid, r)))
  {
    var s, c, sys' := sys.store, sys.calls[tid], Next(cfg, sys, Advance(tid, r));
    var m := Decide(s, c, r);
    forall k, id | Happened(sys'.store.rows, k, id) ensures Announced(sys', k, id) {
      if Happened(s.rows, k, id) {
        StaysAnnounced(cfg, sys, Advance(tid, r), k, id);
      } else {
        StepIsHonest(cfg, s, c, r, k);
        assert sys'.calls[tid] == m.call;
      }
    }
  }

  lemma NextKeepsAnnounced(cfg: Config, sys: System, a: Action)
    requires SystemInv(cfg, sys) && AnnouncedInv(sys) && ReliableAt(cfg, sys, a, {Publish})
    ensures AnnouncedInv(Next(cfg, sys, a))
  {
    if a.Advance? && a.tid in sys.calls {
      StepKeepsAnnounced(cfg, sys, a.tid, a.reply);
    } else {
      var sys' := Next(cfg, sys, a);
      forall k, id | Happened(sys'.store.rows, k, id) ensures Announced(sys', k, id) {
        StaysAnnounced(cfg, sys, a, k, id);
      }
    }
  }

  lemma {:induction false} RunKeepsAnnounced(cfg: Config, actions: seq<Action>)
    requires Reliable(cfg, actions, {Publish})
    ensures AnnouncedInv(Run(cfg, INIT, actions))
    decreases |actions|
  {
    if actions != [] {
      var front := actions[..|actions| - 1];
      ReliablePrefix(cfg, actions, {Publish});
      RunKeepsAnnounced(cfg, front);
      RunKeepsInv(cfg, INIT, front);
      NextKeepsAnnounced(cfg, Run(cfg, INIT, front), actions[|actions| - 1]);
    }
  }

  // ---------- whether a file has been ready ----------

  ghost predicate ReadyAt(cfg: Config, actions: seq<Action>, id: string) {
    Happened(Run(cfg, INIT, actions).store.rows, FileReady, id)
  }

  /** At some moment of the run the row was ready. */
  ghost predicate WasReady(cfg: Config, actions: seq<Action>, id: string) {
    exists k :: 0 <= k <= |actions| && ReadyAt(cfg, actions[..k], id)
  }

  lemma WasReadyAfter(cfg: Config, actions: seq<Action>, id: string)
    requires actions != []
    ensures WasReady(cfg, actions, id) <==>
            WasReady(cfg, actions[..|actions| - 1], id) || ReadyAt(cfg, actions, id)
  {
    var front := actions[..|actions| - 1];
    if WasReady(cfg, actions, id) {
      var k :| 0 <= k <= |actions| && ReadyAt(cfg, actions[..k], id);
      if k == |actions| { assert actions[..k] == actions; } else { assert front[..k] == actions[..k]; }
    }
    if WasReady(cfg, front, id) {
      var k :| 0 <= k <= |front| && ReadyAt(cfg, front[..k], id);
      assert front[..k] == actions[..k];
    }
    if ReadyAt(cfg, actions, id) { assert actions[..|actions|] == actions; }
  }

  lemma ReadyDebtIsConfirm(s: Store, c: Call, r: Reply)
    requires Legal(c) && WritesRow(c.pc) && Owes(Decide(s, c, r).call, FileReady)
    ensures c.pc == ConfirmRow && Decide(s, c, r).effect.PutRow?
  {
  }

  /** The debt of a ready event is taken on by making the row ready. */
  lemma NewReadyDebt(cfg: Config, s: Store, c: Call, r: Reply)
    requires RowsOk(cfg, s) && CallInv(cfg, s, c)
    requires Owes(Decide(s, c, r).call, FileReady) && !Owes(c, FileReady)
    ensures Happened(Step(s, c, r).store.rows, FileReady, c.req.id)
  {
    StepIsFair(cfg, s, c, r, FileReady);
    if WritesRow(c.pc) {
      if Decide(s, c, r).effect.PutRow? { WrittenRow(cfg, s, c, r); }
      ReadyDebtIsConfirm(s, c, r);
    } else {
      SideEffectIsQuiet(s, c, r);
    }
  }

  /** A ready event is announced only where it was, or where the row has just become ready. */
  lemma StepAnnouncesReady(cfg: Config, sys: System, tid: nat, r: Reply, id: string)
    requires SystemInv(cfg, sys) && tid in sys.calls && Announced(Next(cfg, sys, Advance(tid, r)), FileReady, id)
    ensures Announced(sys, FileReady, id) || Happened(Next(cfg, sys, Advance(tid, r)).store.rows, FileReady, id)
  {
    var s, c, sys' := sys.store, sys.calls[tid], Next(cfg, sys, Advance(tid, r));
    var m := Decide(s, c, r);
    assert CallInv(cfg, s, c);
    StepIsFair(cfg, s, c, r, FileReady);
    PublishedAfter(s, m.effect, FileReady, id);
    if !Announced(sys, FileReady, id) {
      assert !(Owes(c, FileReady) && c.req.id == id);
      assert !Published(sys'.store.events, FileReady, id);
      assert forall u | u in sys'.calls && u != tid :: u in sys.calls && sys'.calls[u] == sys.calls[u];
      var t :| t in sys'.calls && Owes(sys'.calls[t], FileReady) && sys'.calls[t].req.id == id;
      assert t == tid;
      NewReadyDebt(cfg, s, c, r);
    }
  }

  lemma OtherAnnouncesNothing(cfg: Config, sys: System, a: Action, k: EventKind, id: string)
    requires !(a.Advance? && a.tid in sys.calls) && Announced(Next(cfg, sys, a), k, id)
    ensures Announced(sys, k, id)
  {
    var sys' := Next(cfg, sys, a);
    if a.Invoke? { BeginOwesNothing(cfg, a.req, a.now); }
    if !Published(sys.store.events, k, id) {
      var t :| t in sys'.calls && Owes(sys'.calls[t], k) && sys'.calls[t].req.id == id;
      assert t in sys.calls && sys.calls[t] == sys'.calls[t];
    }
  }

  /** With a reliable publisher a ready event is published or owed exactly for the files that have
      been ready. */
  lemma {:induction false} ReadyAnnouncedIff(cfg: Config, actions: seq<Action>, id: string)
    requires Reliable(cfg, actions, {Publish})
    ensures Announced(Run(cfg, INIT, actions), FileReady, id) <==> WasReady(cfg, actions, id)
    decreases |actions|
  {
    if actions == [] {
      assert actions[..0] == [];
    } else {
      var front, a := actions[..|actions| - 1], actions[|actions| - 1];
      var sys := Run(cfg, INIT, front);
      ReliablePrefix(cfg, actions, {Publish});
      ReadyAnnouncedIff(cfg, front, id);
      RunKeepsInv(cfg, INIT, front);
      RunKeepsAnnounced(cfg, actions);
      WasReadyAfter(cfg, actions, id);
      if Announced(sys, FileReady, id) {
        StaysAnnounced(cfg, sys, a, FileReady, id);
      } else if Announced(Next(cfg, sys, a), FileReady, id) {
        if a.Advance? && a.tid in sys.calls { StepAnnouncesReady(cfg, sys, a.tid, a.reply, id); }
        else { OtherAnnouncesNothing(cfg, sys, a, FileReady, id); }
      }
    }
  }

  // ---------- all calls returned ----------

  ghost predicate Quiet(sys: System) {
    forall t | t in sys.calls :: sys.calls[t].pc == Returned
  }

  lemma QuietMeansPublished(sys: System, k: EventKind, id: string)
    requires AnnouncedInv(sys) && OnceInv(sys) && Quiet(sys)
    ensures Happened(sys.store.rows, k, id) ==> Published(sys.store.events, k, id)
    ensures Published(sys.store.events, k, id) ==> !Fresh(sys.store.rows, k, id)
  {
    if Happened(sys.store.rows, k, id) {
      assert Announced(sys, k, id);
    }
  }

  /** With a reliable publisher, once all calls have returned, the log tells each file's status
      whatever the interleaving was: created for every row, ready exactly for the files that have
      been ready, deleted exactly for the deleted rows. */
  lemma QuietLogMatchesRows(cfg: Config, actions: seq<Action>, id: string)
    requires Reliable(cfg, actions, {Publish}) && Quiet(Run(cfg, INIT, actions))
    ensures var s := Run(cfg, INIT, actions).store;
            && (Published(s.events, FileCreated, id) <==> id in s.rows)
            && (Published(s.events, FileReady, id) <==> WasReady(cfg, actions, id))
            && (Published(s.events, FileDeleted, id) <==> id in s.rows && s.rows[id].status == Deleted)
  {
    RunKeepsAnnounced(cfg, actions);
    RunKeepsOnce(cfg, actions);
    var sys := Run(cfg, INIT, actions);
    QuietMeansPublished(sys, FileCreated, id);
    ReadyAnnouncedIff(cfg, actions, id);
    QuietMeansPublished(sys, FileDeleted, id);
  }
}
