/** Calls executed one after the other. A sequential call is an uninterrupted run of the step
    machine, which always ends. */
module Sequential {
  import opened Domain
  import opened Protocol
  import opened Lifecycle

  /** How the outside world treats one call: the statements that fail, the clock, and the upload
      id storage would hand out. No call executes the same statement twice. */
  datatype Env = Env(faults: set<Pc>, now: int64, uploadId: string)

  function ReplyAt(env: Env, pc: Pc): Reply {
    Reply(pc !in env.faults, env.now, env.uploadId)
  }

  /** Statements a call can still execute. */
  function CallRank(c: Call): nat {
    match c.pc
    case ReadCache => 9
    case ReadRow => 8
    case FillCache => if c.req.DeleteFile? then 7 else 3
    case SelectParts => 7
    case PresignUpload => 7
    case OpenUpload => 7
    case InsertRow => 6
    case FinishUpload => 6
    case ConfirmRow => 5
    case AbortUpload => 5
    case SoftDelete => if c.req.DeleteFile? then 6 else 3
    case DeleteParts => 4
    case RemoveObject => 3
    case Invalidate => 2
    case Publish => 1
    case SavePart => 1
    case PresignDownload => 1
    case PresignPart => 1
    case RollbackUpload => 1
    case Returned => 0
  }

  lemma ReadDropsRank(s: Store, c: Call, r: Reply)
    requires Legal(c) && (c.pc == ReadCache || c.pc == ReadRow)
    ensures Legal(Decide(s, c, r).call) && CallRank(Decide(s, c, r).call) < CallRank(c)
  {
  }

  lemma WriteDropsRank(s: Store, c: Call, r: Reply)
    requires Legal(c) && WritesRow(c.pc)
    ensures Legal(Decide(s, c, r).call) && CallRank(Decide(s, c, r).call) < CallRank(c)
  {
  }

  lemma CleanupDropsRank(s: Store, c: Call, r: Reply)
    requires Legal(c)
    requires c.pc == FillCache || c.pc == Invalidate || c.pc == DeleteParts || c.pc == Publish || c.pc == AbortUpload
    ensures Legal(Decide(s, c, r).call) && CallRank(Decide(s, c, r).call) < CallRank(c)
  {
  }

  lemma StorageDropsRank(s: Store, c: Call, r: Reply)
    requires Legal(c) && c.pc != Returned && c.pc != ReadCache && c.pc != ReadRow && !WritesRow(c.pc)
    requires c.pc != FillCache && c.pc != Invalidate && c.pc != DeleteParts && c.pc != Publish && c.pc != AbortUpload
    ensures Legal(Decide(s, c, r).call) && CallRank(Decide(s, c, r).call) < CallRank(c)
  {
  }

  /** Every statement brings the call closer to its end. */
  lemma StepDropsRank(s: Store, c: Call, r: Reply)
    requires Legal(c) && c.pc != Returned
    ensures Legal(Decide(s, c, r).call) && CallRank(Decide(s, c, r).call) < CallRank(c)
  {
    if c.pc == ReadCache || c.pc == ReadRow {
      ReadDropsRank(s, c, r);
    } else if WritesRow(c.pc) {
      WriteDropsRank(s, c, r);
    } else if c.pc == FillCache || c.pc == Invalidate || c.pc == DeleteParts || c.pc == Publish || c.pc == AbortUpload {
      CleanupDropsRank(s, c, r);
    } else {
      StorageDropsRank(s, c, r);
    }
  }

  lemma BeginIsLegal(cfg: Config, req: Request, now: int64)
    ensures Legal(Begin(cfg, req, now)) && Begin(cfg, req, now).req == Resolved(req)
  {
    if IsCreate(req) { BeginCreateShape(cfg, req, now); } else { BeginShape(cfg, req, now); }
  }

  /** The rest of the call, with no other call in between. */
  ghost function Finish(s: Store, c: Call, env: Env): State
    requires Legal(c)
    decreases CallRank(c)
  {
    if c.pc == Returned then State(s, c)
    else
      StepDropsRank(s, c, ReplyAt(env, c.pc));
      var st := Step(s, c, ReplyAt(env, c.pc));
      Finish(st.store, st.call, env)
  }

  lemma OneStep(s: Store, c: Call, env: Env)
    requires Legal(c) && c.pc != Returned
    ensures var st := Step(s, c, ReplyAt(env, c.pc));
            Legal(st.call) && Finish(s, c, env) == Finish(st.store, st.call, env)
  {
    StepDropsRank(s, c, ReplyAt(env, c.pc));
  }

  lemma {:induction false} FinishReturns(s: Store, c: Call, env: Env)
    requires Legal(c)
    ensures Finish(s, c, env).call.pc == Returned
    decreases CallRank(c)
  {
    if c.pc != Returned {
      OneStep(s, c, env);
      StepDropsRank(s, c, ReplyAt(env, c.pc));
      FinishReturns(Step(s, c, ReplyAt(env, c.pc)).store, Step(s, c, ReplyAt(env, c.pc)).call, env);
    }
  }

  ghost function Perform(cfg: Config, s: Store, req: Request, env: Env): State {
    BeginIsLegal(cfg, req, env.now);
    Finish(s, Begin(cfg, req, env.now), env)
  }

  // ---------- the invariant of interleaved runs, call by call ----------

  ghost predicate Good(cfg: Config, s: Store, c: Call) {
    StoreInv(cfg, s) && CallInv(cfg, s, c) && PartFacts(c)
  }

  lemma StepKeepsGood(cfg: Config, s: Store, c: Call, r: Reply)
    requires Good(cfg, s, c)
    ensures Good(cfg, Step(s, c, r).store, Step(s, c, r).call)
  {
    StepEffectOk(cfg, s, c, r);
    EffectKeepsStore(cfg, s, c.req.id, Decide(s, c, r).effect);
    StepKeepsCall(cfg, s, c, r);
    StepKeepsPartFacts(s, c, r);
  }

  lemma BeginIsGood(cfg: Config, s: Store, req: Request, now: int64)
    requires StoreInv(cfg, s)
    ensures Good(cfg, s, Begin(cfg, req, now))
  {
    BeginInv(cfg, s, req, now);
  }

  /** Induction over the statements of one call. */
  lemma {:induction false} FinishKeepsGood(cfg: Config, s: Store, c: Call, env: Env)
    requires Good(cfg, s, c)
    ensures Good(cfg, Finish(s, c, env).store, Finish(s, c, env).call) && Finish(s, c, env).call.pc == Returned
    decreases CallRank(c)
  {
    if c.pc != Returned {
      var r := ReplyAt(env, c.pc);
      StepDropsRank(s, c, r);
      StepKeepsGood(cfg, s, c, r);
      FinishKeepsGood(cfg, Step(s, c, r).store, Step(s, c, r).call, env);
    }
  }

  lemma PerformKeepsInv(cfg: Config, s: Store, req: Request, env: Env)
    requires StoreInv(cfg, s)
    ensures StoreInv(cfg, Perform(cfg, s, req, env).store)
    ensures Perform(cfg, s, req, env).call.pc == Returned
  {
    BeginIsGood(cfg, s, req, env.now);
    FinishKeepsGood(cfg, s, Begin(cfg, req, env.now), env);
  }

  // ---------- sequential runs ----------

  /** A call, or the expiry of a cache entry between calls. */
  datatype Op = Do(req: Request, env: Env) | Expire(id: string)

  ghost function Perform1(cfg: Config, s: Store, op: Op): Store {
    match op
    case Do(req, env) => Perform(cfg, s, req, env).store
    case Expire(id) => Apply(s, DropCache(id))
  }

  ghost function Play(cfg: Config, s: Store, ops: seq<Op>): Store {
    if ops == [] then s else Perform1(cfg, Play(cfg, s, ops[..|ops| - 1]), ops[|ops| - 1])
  }

  lemma {:induction false} PlayKeepsInv(cfg: Config, ops: seq<Op>)
    ensures StoreInv(cfg, Play(cfg, EMPTY, ops))
    decreases |ops|
  {
    if ops != [] {
      var s, op := Play(cfg, EMPTY, ops[..|ops| - 1]), ops[|ops| - 1];
      PlayKeepsInv(cfg, ops[..|ops| - 1]);
      match op
      case Do(req, env) => PerformKeepsInv(cfg, s, req, env);
      case Expire(id) => EffectKeepsStore(cfg, s, id, DropCache(id));
    }
  }

  // ---------- sequential runs are interleaved runs ----------

  /** The actions that execute the rest of a call. */
  ghost function Remaining(s: Store, c: Call, env: Env, tid: nat): seq<Action>
    requires Legal(c)
    decreases CallRank(c)
  {
    if c.pc == Returned then []
    else
      StepDropsRank(s, c, ReplyAt(env, c.pc));
      var st := Step(s, c, ReplyAt(env, c.pc));
      [Advance(tid, ReplyAt(env, c.pc))] + Remaining(st.store, st.call, env, tid)
  }

  lemma RunFirst(cfg: Config, sys: System, a: Action, rest: seq<Action>)
    ensures Run(cfg, sys, [a] + rest) == Run(cfg, Next(cfg, sys, a), rest)
  {
    RunConcat(cfg, sys, [a], rest);
    assert [a][..0] == [];
  }

  lemma {:induction false} RemainingFinishes(cfg: Config, sys: System, tid: nat, env: Env)
    requires tid in sys.calls && Legal(sys.calls[tid])
    ensures var c, st := sys.calls[tid], Finish(sys.store, sys.calls[tid], env);
            Run(cfg, sys, Remaining(sys.store, c, env, tid)) == System(st.store, sys.calls[tid := st.call])
    decreases CallRank(sys.calls[tid])
  {
    var c := sys.calls[tid];
    if c.pc == Returned {
      assert sys.calls[tid := c] == sys.calls;
    } else {
      var r := ReplyAt(env, c.pc);
      StepDropsRank(sys.store, c, r);
      var st := Step(sys.store, c, r);
      var mid := Next(cfg, sys, Advance(tid, r));
      RemainingFinishes(cfg, mid, tid, env);
      var rest := Remaining(st.store, st.call, env, tid);
      RunFirst(cfg, sys, Advance(tid, r), rest);
      assert mid.calls[tid := Finish(st.store, st.call, env).call] == sys.calls[tid := Finish(sys.store, c, env).call];
    }
  }

  lemma Arrives(cfg: Config, before: seq<Action>, tid: nat, req: Request, now: int64)
    requires tid !in Run(cfg, INIT, before).calls
    ensures var sys := Run(cfg, INIT, before);
            Run(cfg, INIT, before + [Invoke(tid, req, now)]) == System(sys.store, sys.calls[tid := Begin(cfg, req, now)])
  {
    assert (before + [Invoke(tid, req, now)])[..|before|] == before;
  }

  lemma Overwrite(calls: map<nat, Call>, tid: nat, c: Call, d: Call)
    ensures calls[tid := c][tid := d] == calls[tid := d]
  {
  }

  /** After any run, a call in progress can run to its end without interruption. */
  lemma Concluded(cfg: Config, before: seq<Action>, tid: nat, env: Env) returns (actions: seq<Action>)
    requires tid in Run(cfg, INIT, before).calls && Legal(Run(cfg, INIT, before).calls[tid])
    ensures var sys := Run(cfg, INIT, before);
            var end := Finish(sys.store, sys.calls[tid], env);
            Run(cfg, INIT, actions) == System(end.store, sys.calls[tid := end.call])
  {
    var sys := Run(cfg, INIT, before);
    var rest := Remaining(sys.store, sys.calls[tid], env, tid);
    RemainingFinishes(cfg, sys, tid, env);
    actions := before + rest;
    RunConcat(cfg, INIT, before, rest);
  }

  /** After any run, a call can run from its arrival to its end without interruption. */
  lemma PerformIsARun(cfg: Config, before: seq<Action>, tid: nat, req: Request, env: Env) returns (actions: seq<Action>)
    requires tid !in Run(cfg, INIT, before).calls
    ensures var sys := Run(cfg, INIT, before);
            var end := Perform(cfg, sys.store, req, env);
            Run(cfg, INIT, actions) == System(end.store, sys.calls[tid := end.call])
  {
    var sys, c := Run(cfg, INIT, before), Begin(cfg, req, env.now);
    BeginIsLegal(cfg, req, env.now);
    Arrives(cfg, before, tid, req, env.now);
    actions := Concluded(cfg, before + [Invoke(tid, req, env.now)], tid, env);
    Overwrite(sys.calls, tid, c, Perform(cfg, sys.store, req, env).call);
  }

  lemma PlayTwo(cfg: Config, first: Op, second: Op)
    ensures Play(cfg, EMPTY, [first, second]) == Perform1(cfg, Perform1(cfg, EMPTY, first), second)
  {
    var ops := [first, second];
    assert ops[..1] == [first] && ops[..1][..0] == [];
    assert Play(cfg, EMPTY, ops[..1]) == Perform1(cfg, EMPTY, first);
  }

  /** After any run with all calls returned, calls can go on one after the other. */
  lemma {:induction false} PlayContinues(cfg: Config, before: seq<Action>, m: nat, ops: seq<Op>)
    returns (actions: seq<Action>)
    requires forall t | t in Run(cfg, INIT, before).calls :: t < m && Run(cfg, INIT, before).calls[t].pc == Returned
    ensures Run(cfg, INIT, actions).store == Play(cfg, Run(cfg, INIT, before).store, ops)
    ensures forall t | t in Run(cfg, INIT, actions).calls ::
              t < m + |ops| && Run(cfg, INIT, actions).calls[t].pc == Returned
    decreases |ops|
  {
    if ops == [] {
      actions := before;
    } else {
      var n := |ops| - 1;
      var front := PlayContinues(cfg, before, m, ops[..n]);
      var sys := Run(cfg, INIT, front);
      match ops[n]
      case Expire(id) =>
        actions := front + [Evict(id)];
        assert actions[..|actions| - 1] == front;
      case Do(req, env) =>
        BeginIsLegal(cfg, req, env.now);
        FinishReturns(sys.store, Begin(cfg, req, env.now), env);
        actions := PerformIsARun(cfg, front, m + n, req, env);
    }
  }

  /** Every sequential run is one of the interleaved runs, ending with all calls returned; what
      holds under every interleaving therefore holds of sequential runs. */
  lemma PlayIsARun(cfg: Config, ops: seq<Op>) returns (actions: seq<Action>)
    ensures Run(cfg, INIT, actions).store == Play(cfg, EMPTY, ops)
    ensures forall t | t in Run(cfg, INIT, actions).calls ::
              t < |ops| && Run(cfg, INIT, actions).calls[t].pc == Returned
  {
    actions := PlayContinues(cfg, [], 0, ops);
  }
}
