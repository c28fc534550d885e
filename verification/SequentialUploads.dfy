/** Sequential runs over reliable storage: the open uploads and the part rows are those of the
    pending multipart files, and of nothing else. */
module SequentialUploads {
  import opened Protocol
  import opened Lifecycle
  import opened Sequential
  import opened UploadAccounting
  import opened PartAccounting
  import ExactlyOnce
  import Uuids

  /** What the accounting needs of one call: closing an upload and deleting part rows do not
      fail, nor does the row update of a completion or an abort, and ConfirmUpload is called on
      no pending multipart file. Everything else may fail, the insertion of a row included. */
  predicate CarefulCall(s: Store, req: Request, env: Env) {
    && RollbackUpload !in env.faults && AbortUpload !in env.faults && DeleteParts !in env.faults
    && (req.CompleteMultipart? ==> ConfirmRow !in env.faults)
    && (req.AbortMultipart? ==> SoftDelete !in env.faults)
    && (req.ConfirmUpload? && Uuids.Canon(req.id) in s.rows ==> !PendingMultipart(s.rows[Uuids.Canon(req.id)]))
  }

  ghost predicate CarefulOps(cfg: Config, ops: seq<Op>) {
    forall n | 0 <= n < |ops| && ops[n].Do? :: CarefulCall(Play(cfg, EMPTY, ops[..n]), ops[n].req, ops[n].env)
  }

  // ---------- what a call running alone knows ----------

  /** A confirmation does not face a pending multipart row; a report and a completion do. */
  ghost predicate Alert(s: Store, c: Call) {
    && (c.req.ConfirmUpload? && (c.pc == ReadRow || c.pc == ConfirmRow) && c.req.id in s.rows ==>
          !PendingMultipart(s.rows[c.req.id]))
    && (c.pc == SavePart || (c.req.CompleteMultipart? && (c.pc == SelectParts || c.pc == FinishUpload)) ==>
          c.req.id in s.rows && PendingMultipart(s.rows[c.req.id]))
  }

  lemma ReadStaysAlert(s: Store, c: Call, r: Reply)
    requires Legal(c) && Alert(s, c) && (c.pc == ReadRow || c.pc == ReadCache)
    ensures Alert(s, Decide(s, c, r).call) && Decide(s, c, r).effect == NoEffect
  {
  }

  lemma OtherStaysAlert(s: Store, c: Call, r: Reply)
    requires Legal(c) && Alert(s, c) && c.pc != ReadRow && c.pc != ReadCache
    ensures Alert(Step(s, c, r).store, Decide(s, c, r).call)
  {
  }

  lemma StepStaysAlert(s: Store, c: Call, r: Reply)
    requires Legal(c) && Alert(s, c)
    ensures Alert(Step(s, c, r).store, Step(s, c, r).call)
  {
    if c.pc == ReadRow || c.pc == ReadCache { ReadStaysAlert(s, c, r); } else { OtherStaysAlert(s, c, r); }
  }

  function Alone(s: Store, c: Call): System {
    System(s, map[0 := c])
  }

  /** A call alone in the system leaves no part rows behind. */
  lemma AloneIsTidy(s: Store, c: Call, r: Reply)
    requires Alert(s, c) && NoStrays(Alone(s, c))
    ensures Tidy(Alone(s, c), Advance(0, r))
  {
    var sys := Alone(s, c);
    if c.pc == SavePart { assert !AbortedBy(sys, c.req.id); }
    if c.req.id in s.parts { assert Kept(sys, c.req.id); }
  }

  // ---------- a call alone in the system ----------

  ghost predicate InBalance(cfg: Config, s: Store) {
    FullInv(cfg, System(s, map[])) && NoStrays(System(s, map[]))
  }

  ghost predicate CallInBalance(cfg: Config, s: Store, c: Call) {
    ReliableInv(cfg, Alone(s, c)) && NoStrays(Alone(s, c)) && Alert(s, c)
  }

  lemma IdleIsReliable(cfg: Config, s: Store)
    requires FullInv(cfg, System(s, map[]))
    ensures ReliableInv(cfg, System(s, map[]))
  {
    assert forall id :: !FinishedBy(System(s, map[]), id);
  }

  lemma BeginIsAlert(cfg: Config, s: Store, req: Request, env: Env)
    requires CarefulCall(s, req, env)
    ensures Alert(s, Begin(cfg, req, env.now))
  {
    if IsCreate(req) { BeginCreateShape(cfg, req, env.now); } else { BeginShape(cfg, req, env.now); }
  }

  lemma BeginInBalance(cfg: Config, s: Store, req: Request, env: Env)
    requires InBalance(cfg, s) && CarefulCall(s, req, env)
    ensures CallInBalance(cfg, s, Begin(cfg, req, env.now))
  {
    var idle, c := System(s, map[]), Begin(cfg, req, env.now);
    IdleIsReliable(cfg, s);
    NextKeepsReliable(cfg, idle, Invoke(0, req, env.now));
    OtherKeepsParts(cfg, idle, Invoke(0, req, env.now));
    assert Next(cfg, idle, Invoke(0, req, env.now)) == Alone(s, c);
    BeginIsAlert(cfg, s, req, env);
  }

  lemma AloneIsReliable(s: Store, c: Call, env: Env)
    requires Legal(c) && Alert(s, c)
    requires RollbackUpload !in env.faults && AbortUpload !in env.faults
    requires c.req.CompleteMultipart? ==> ConfirmRow !in env.faults
    requires c.req.AbortMultipart? ==> SoftDelete !in env.faults
    ensures ReliableStep(Alone(s, c), Advance(0, ReplyAt(env, c.pc)))
  {
  }

  lemma AloneSteps(cfg: Config, s: Store, c: Call, r: Reply)
    ensures Next(cfg, Alone(s, c), Advance(0, r)) == Alone(Step(s, c, r).store, Step(s, c, r).call)
  {
    var d := Step(s, c, r).call;
    assert map[0 := c][0 := d] == map[0 := d];
  }

  lemma AloneIsGood(cfg: Config, s: Store, c: Call)
    requires SystemInv(cfg, Alone(s, c))
    ensures Good(cfg, s, c)
  {
    assert Alone(s, c).calls[0] == c;
  }

  lemma StepInBalance(cfg: Config, s: Store, c: Call, env: Env)
    requires CallInBalance(cfg, s, c)
    requires RollbackUpload !in env.faults && AbortUpload !in env.faults && DeleteParts !in env.faults
    requires c.req.CompleteMultipart? ==> ConfirmRow !in env.faults
    requires c.req.AbortMultipart? ==> SoftDelete !in env.faults
    ensures CallInBalance(cfg, Step(s, c, ReplyAt(env, c.pc)).store, Step(s, c, ReplyAt(env, c.pc)).call)
  {
    var r := ReplyAt(env, c.pc);
    AloneIsGood(cfg, s, c);
    AloneIsReliable(s, c, env);
    NextKeepsReliable(cfg, Alone(s, c), Advance(0, r));
    AloneSteps(cfg, s, c, r);
    StepStaysAlert(s, c, r);
    AloneIsTidy(s, c, r);
    StepKeepsPartsIff(cfg, Alone(s, c), 0, r);
  }

  lemma ReturnedKeepsParts(s: Store, c: Call)
    requires NoStrays(Alone(s, c)) && c.pc == Returned
    ensures NoStrays(System(s, map[]))
  {
    forall id | id in s.parts ensures Kept(System(s, map[]), id) {
      assert Kept(Alone(s, c), id);
    }
  }

  lemma ReturnedOwesNothing(s: Store, c: Call)
    requires ExactlyOnce.OnceInv(Alone(s, c))
    ensures ExactlyOnce.OnceInv(System(s, map[]))
  {
    assert Alone(s, c).store == s;
  }

  lemma ReturnedAccounts(s: Store, c: Call)
    requires AccountInv(Alone(s, c)) && c.pc == Returned
    ensures AccountInv(System(s, map[]))
  {
    var sys := Alone(s, c);
    forall u | u in s.uploads ensures Backed(s, u) {
      assert Backed(sys.store, u) || Guarded(sys, u);
    }
    forall id | id in s.rows && PendingMultipart(s.rows[id]) ensures UploadOf(s.rows[id]) in s.uploads {
      assert UploadOf(sys.store.rows[id]) in sys.store.uploads || FinishedBy(sys, id);
    }
  }

  /** A call that has returned answers for nothing. */
  lemma ReturnedInBalance(cfg: Config, s: Store, c: Call)
    requires CallInBalance(cfg, s, c) && c.pc == Returned
    ensures InBalance(cfg, s)
  {
    ReturnedOwesNothing(s, c);
    ReturnedAccounts(s, c);
    ReturnedKeepsParts(s, c);
  }

  lemma {:induction false} FinishInBalance(cfg: Config, s: Store, c: Call, env: Env)
    requires CallInBalance(cfg, s, c) && Legal(c)
    requires RollbackUpload !in env.faults && AbortUpload !in env.faults && DeleteParts !in env.faults
    requires c.req.CompleteMultipart? ==> ConfirmRow !in env.faults
    requires c.req.AbortMultipart? ==> SoftDelete !in env.faults
    ensures InBalance(cfg, Finish(s, c, env).store)
    decreases CallRank(c)
  {
    if c.pc == Returned {
      ReturnedInBalance(cfg, s, c);
    } else {
      var r := ReplyAt(env, c.pc);
      StepDropsRank(s, c, r);
      RequestIsKept(s, c, r);
      StepInBalance(cfg, s, c, env);
      FinishInBalance(cfg, Step(s, c, r).store, Step(s, c, r).call, env);
    }
  }

  lemma PerformInBalance(cfg: Config, s: Store, req: Request, env: Env)
    requires InBalance(cfg, s) && CarefulCall(s, req, env)
    ensures InBalance(cfg, Perform(cfg, s, req, env).store)
  {
    BeginInBalance(cfg, s, req, env);
    BeginIsLegal(cfg, req, env.now);
    FinishInBalance(cfg, s, Begin(cfg, req, env.now), env);
  }

  lemma {:induction false} PlayInBalance(cfg: Config, ops: seq<Op>)
    requires CarefulOps(cfg, ops)
    ensures InBalance(cfg, Play(cfg, EMPTY, ops))
    decreases |ops|
  {
    if ops != [] {
      var n := |ops| - 1;
      var s := Play(cfg, EMPTY, ops[..n]);
      forall k | 0 <= k < n && ops[..n][k].Do?
        ensures CarefulCall(Play(cfg, EMPTY, ops[..n][..k]), ops[..n][k].req, ops[..n][k].env)
      {
        assert ops[..n][..k] == ops[..k];
      }
      PlayInBalance(cfg, ops[..n]);
      match ops[n]
      case Do(req, env) => PerformInBalance(cfg, s, req, env);
      case Expire(id) =>
        NextKeepsAccount(cfg, System(s, map[]), Evict(id));
        OtherKeepsParts(cfg, System(s, map[]), Evict(id));
    }
  }

  /** Conservation in sequential runs, also after a failed insertion: storage holds open exactly
      the uploads of the pending multipart rows, and only those rows have part rows. */
  lemma UploadsAndPartsArePending(cfg: Config, ops: seq<Op>)
    requires CarefulOps(cfg, ops)
    ensures var s := Play(cfg, EMPTY, ops);
            && s.uploads == PendingUploads(s.rows)
            && forall id | id in s.parts :: id in s.rows && PendingMultipart(s.rows[id])
  {
    PlayInBalance(cfg, ops);
    var sys := System(Play(cfg, EMPTY, ops), map[]);
    QuietAccounts(sys);
    assert forall id | id in sys.store.parts :: Kept(sys, id);
  }
}
