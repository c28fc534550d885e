/** The event log of sequential runs with a reliable publisher: a file's history spells out how
    it came to its status. */
module EventHistory {
  import opened Domain
  import opened Protocol
  import opened Lifecycle
  import opened Sequential
  import opened ExactlyOnce

  /** The kinds of the events about one file, in order of publication. */
  function History(events: seq<Event>, id: string): seq<EventKind> {
    if events == [] then []
    else
      var e := events[|events| - 1];
      History(events[..|events| - 1], id) + (if e.fileId == id then [e.kind] else [])
  }

  lemma HistoryExtends(s: Store, e: Effect, id: string)
    ensures History(Apply(s, e).events, id) ==
            History(s.events, id) + (if e.Emit? && e.event.fileId == id then [e.event.kind] else [])
  {
    if e.Emit? {
      assert (s.events + [e.event])[..|s.events|] == s.events;
    }
  }

  predicate Explains(h: seq<EventKind>, status: FileStatus) {
    match status
    case Pending => h == [FileCreated]
    case Ready => h == [FileCreated, FileReady]
    case Deleted => h == [FileCreated, FileDeleted] || h == [FileCreated, FileReady, FileDeleted]
  }

  /** What the call still has to say about its file. */
  function Debt(c: Call, id: string): seq<EventKind> {
    if c.req.id == id && Owes(c, KindPublished(c.req)) then [KindPublished(c.req)] else []
  }

  ghost predicate Told(s: Store, c: Call, id: string) {
    if id in s.rows then Explains(History(s.events, id) + Debt(c, id), s.rows[id].status)
    else History(s.events, id) == [] && Debt(c, id) == []
  }

  ghost predicate AllTold(s: Store, c: Call) {
    forall id :: Told(s, c, id)
  }

  /** A row write takes its file to the next status and owes the event that says so. */
  lemma WriteMoveTells(s: Store, c: Call, m: Move, id: string)
    requires Told(s, c, id) && m.call.req == c.req && m.effect.PutRow? && m.effect.row.id == c.req.id
    requires !Owes(c, KindPublished(c.req)) && Owes(m.call, KindPublished(c.req))
    requires match KindPublished(c.req)
             case FileCreated => c.req.id !in s.rows && m.effect.row.status == Pending
             case FileReady => c.req.id in s.rows && s.rows[c.req.id].status == Pending && m.effect.row.status == Ready
             case FileDeleted => c.req.id in s.rows && s.rows[c.req.id].status != Deleted && m.effect.row.status == Deleted
    ensures Told(Apply(s, m.effect), m.call, id)
  {
  }

  /** The guards of the three row writes. */
  lemma WrittenStatus(s: Store, c: Call, r: Reply)
    requires Legal(c) && WritesRow(c.pc) && Decide(s, c, r).effect.PutRow?
    ensures c.pc == InsertRow ==> KindPublished(c.req) == FileCreated && c.file.id !in s.rows
    ensures c.pc == ConfirmRow ==>
              KindPublished(c.req) == FileReady && c.req.id in s.rows && s.rows[c.req.id].status == Pending
    ensures c.pc == SoftDelete ==>
              KindPublished(c.req) == FileDeleted && c.req.id in s.rows && s.rows[c.req.id].status != Deleted
  {
  }

  /** A statement that changes no row says what it owed, or owes as much as before. */
  lemma QuietMoveTells(s: Store, c: Call, m: Move, id: string)
    requires Told(s, c, id) && Apply(s, m.effect).rows == s.rows && FairMove(s, c, m, KindPublished(c.req))
    requires m.effect.Emit? ==> m.effect.event.kind == KindPublished(c.req)
    requires Owes(c, KindPublished(c.req)) && !Owes(m.call, KindPublished(c.req)) ==> m.effect.Emit?
    ensures Told(Apply(s, m.effect), m.call, id)
  {
    HistoryExtends(s, m.effect, id);
  }

  lemma WriteTells(cfg: Config, s: Store, c: Call, r: Reply, id: string)
    requires Good(cfg, s, c) && Told(s, c, id) && WritesRow(c.pc)
    ensures Told(Step(s, c, r).store, Step(s, c, r).call, id)
  {
    var m := Decide(s, c, r);
    WriteOwes(cfg, s, c, r);
    if m.effect.PutRow? {
      WrittenRow(cfg, s, c, r);
      WrittenStatus(s, c, r);
      assert c.pc == InsertRow ==> BuildingOk(cfg, s, c);
      WriteMoveTells(s, c, m, id);
    } else {
      StepIsFair(cfg, s, c, r, KindPublished(c.req));
      QuietMoveTells(s, c, m, id);
    }
  }

  lemma EmitsOwnKind(s: Store, c: Call, r: Reply)
    ensures Decide(s, c, r).effect.Emit? ==> Decide(s, c, r).effect.event.kind == KindPublished(c.req)
  {
  }

  lemma OtherTells(cfg: Config, s: Store, c: Call, r: Reply, id: string)
    requires Good(cfg, s, c) && Told(s, c, id) && !WritesRow(c.pc) && (c.pc == Publish ==> r.ok)
    ensures Told(Step(s, c, r).store, Step(s, c, r).call, id)
  {
    SideEffectIsQuiet(s, c, r);
    DebtIsKept(cfg, s, c, r, KindPublished(c.req));
    StepIsFair(cfg, s, c, r, KindPublished(c.req));
    EmitsOwnKind(s, c, r);
    QuietMoveTells(s, c, Decide(s, c, r), id);
  }

  lemma StepTells(cfg: Config, s: Store, c: Call, r: Reply)
    requires Good(cfg, s, c) && AllTold(s, c) && (c.pc == Publish ==> r.ok)
    ensures AllTold(Step(s, c, r).store, Step(s, c, r).call)
  {
    forall id ensures Told(Step(s, c, r).store, Step(s, c, r).call, id) {
      assert Told(s, c, id);
      if WritesRow(c.pc) { WriteTells(cfg, s, c, r, id); } else { OtherTells(cfg, s, c, r, id); }
    }
  }

  lemma {:induction false} FinishTells(cfg: Config, s: Store, c: Call, env: Env)
    requires Good(cfg, s, c) && AllTold(s, c) && Publish !in env.faults
    ensures Finish(s, c, env).call.pc == Returned
    ensures AllTold(Finish(s, c, env).store, Finish(s, c, env).call)
    decreases CallRank(c)
  {
    if c.pc != Returned {
      var r := ReplyAt(env, c.pc);
      StepDropsRank(s, c, r);
      StepKeepsGood(cfg, s, c, r);
      StepTells(cfg, s, c, r);
      FinishTells(cfg, Step(s, c, r).store, Step(s, c, r).call, env);
    }
  }

  /** Between calls nothing is owed. */
  lemma ToldWithoutDebt(s: Store, c: Call, d: Call)
    requires AllTold(s, c) && (forall k :: !Owes(c, k)) && (forall k :: !Owes(d, k))
    ensures AllTold(s, d)
  {
    forall id ensures Told(s, d, id) { assert Told(s, c, id); }
  }

  lemma CallTells(cfg: Config, s: Store, c: Call, env: Env, idle: Call)
    requires Good(cfg, s, c) && Publish !in env.faults && (forall k :: !Owes(c, k))
    requires idle.pc == Returned && AllTold(s, idle)
    ensures AllTold(Finish(s, c, env).store, idle)
  {
    ToldWithoutDebt(s, idle, c);
    FinishTells(cfg, s, c, env);
    ToldWithoutDebt(Finish(s, c, env).store, Finish(s, c, env).call, idle);
  }

  lemma PerformTells(cfg: Config, s: Store, req: Request, env: Env, idle: Call)
    requires StoreInv(cfg, s) && Publish !in env.faults && idle.pc == Returned && AllTold(s, idle)
    ensures AllTold(Perform(cfg, s, req, env).store, idle)
  {
    BeginIsGood(cfg, s, req, env.now);
    BeginOwesNothing(cfg, req, env.now);
    CallTells(cfg, s, Begin(cfg, req, env.now), env, idle);
  }

  const IDLE: Call := Call(GetFile("", ""), "", Returned, NO_FILE, [], OkDone)

  lemma {:induction false} PlayTells(cfg: Config, ops: seq<Op>)
    requires forall i | 0 <= i < |ops| && ops[i].Do? :: Publish !in ops[i].env.faults
    ensures AllTold(Play(cfg, EMPTY, ops), IDLE)
    decreases |ops|
  {
    if ops == [] {
      forall id ensures Told(EMPTY, IDLE, id) {}
    } else {
      var front, s := ops[..|ops| - 1], Play(cfg, EMPTY, ops[..|ops| - 1]);
      PlayTells(cfg, front);
      PlayKeepsInv(cfg, front);
      match ops[|ops| - 1]
      case Do(req, env) => PerformTells(cfg, s, req, env, IDLE);
      case Expire(id) =>
        forall k ensures Told(Apply(s, DropCache(id)), IDLE, k) { assert Told(s, IDLE, k); }
    }
  }

  /** After every sequential run with a reliable publisher, whatever else failed, the history of
      a pending file is [created], of a ready file [created, ready], of a deleted file
      [created, deleted] or [created, ready, deleted], and of any other id empty. */
  lemma HistoryExplainsStatus(cfg: Config, ops: seq<Op>, id: string)
    requires forall i | 0 <= i < |ops| && ops[i].Do? :: Publish !in ops[i].env.faults
    ensures var s := Play(cfg, EMPTY, ops);
            if id in s.rows then Explains(History(s.events, id), s.rows[id].status)
            else History(s.events, id) == []
  {
    PlayTells(cfg, ops);
    assert Told(Play(cfg, EMPTY, ops), IDLE, id);
  }
}
