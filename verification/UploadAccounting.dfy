/** Open multipart uploads against pending rows, under interleaving: exactly which statements leave
    an upload without a pending row, or a pending row without its upload. */
module UploadAccounting {
  import opened Domain
  import opened Protocol
  import opened Lifecycle
  import ExactlyOnce

  // ---------- who answers for an upload ----------

  /** A creation that has opened its upload and not yet inserted its row. */
  predicate Opening(c: Call) {
    c.req.CreateMultipart? && (c.pc == InsertRow || c.pc == RollbackUpload)
  }

  /** The next statement of the call closes the upload of its file. */
  predicate Closing(c: Call) {
    c.pc == RollbackUpload || c.pc == AbortUpload || c.pc == FinishUpload
  }

  /** A call that is about to insert the row of the upload, or to close the upload. */
  predicate Guards(c: Call, u: Upload) {
    UploadOf(c.file) == u && (Opening(c) || Closing(c))
  }

  /** A call whose next row update takes its file out of pending. */
  predicate Finishing(c: Call) {
    || (IsConfirm(c.req) && c.pc == ConfirmRow)
    || (IsDelete(c.req) && c.pc == SoftDelete)
    || (c.req.AbortMultipart? && (c.pc == AbortUpload || c.pc == DeleteParts))
  }

  /** A call that has closed the upload of its file and is about to take the row out of pending. */
  predicate HasClosed(c: Call) {
    || (c.req.CompleteMultipart? && c.pc == ConfirmRow)
    || (c.req.AbortMultipart? && (c.pc == DeleteParts || c.pc == SoftDelete))
  }

  ghost predicate Backed(s: Store, u: Upload) {
    exists id :: id in s.rows && PendingMultipart(s.rows[id]) && UploadOf(s.rows[id]) == u
  }

  ghost predicate Guarded(sys: System, u: Upload) {
    exists t :: t in sys.calls && Guards(sys.calls[t], u)
  }

  ghost predicate GuardedByOther(sys: System, tid: nat, u: Upload) {
    exists t :: t in sys.calls && t != tid && Guards(sys.calls[t], u)
  }

  ghost predicate FinishedBy(sys: System, id: string) {
    exists t :: t in sys.calls && Finishing(sys.calls[t]) && sys.calls[t].req.id == id
  }

  ghost predicate FinishedByOther(sys: System, tid: nat, id: string) {
    exists t :: t in sys.calls && t != tid && Finishing(sys.calls[t]) && sys.calls[t].req.id == id
  }

  /** No orphans: an open upload belongs to a pending multipart row or to a call that deals with it. */
  ghost predicate NoOrphans(sys: System) {
    forall u | u in sys.store.uploads :: Backed(sys.store, u) || Guarded(sys, u)
  }

  /** No dangling rows: a pending multipart row has its upload open, or a call is finishing it. */
  ghost predicate NoDangling(sys: System) {
    forall id | id in sys.store.rows && PendingMultipart(sys.store.rows[id]) ::
      UploadOf(sys.store.rows[id]) in sys.store.uploads || FinishedBy(sys, id)
  }

  // ---------- the condition ----------

  /** The statement is a row update that takes a pending multipart row. */
  predicate TakesPending(s: Store, c: Call, r: Reply) {
    && (c.pc == ConfirmRow || c.pc == SoftDelete) && r.ok
    && c.req.id in s.rows && PendingMultipart(s.rows[c.req.id])
  }

  /** A row leaves pending with its upload closed, or about to be closed. */
  ghost predicate LeavesClosed(sys: System, c: Call, r: Reply) {
    TakesPending(sys.store, c, r) && UploadOf(sys.store.rows[c.req.id]) in sys.store.uploads ==>
      c.req.DeleteFile? || Guarded(sys, UploadOf(sys.store.rows[c.req.id]))
  }

  /** A close that fails leaves the upload to a pending row or to another call. */
  ghost predicate CloseIsCovered(sys: System, tid: nat, c: Call, r: Reply) {
    Closing(c) && !r.ok && UploadOf(c.file) in sys.store.uploads ==>
      Backed(sys.store, UploadOf(c.file)) || GuardedByOther(sys, tid, UploadOf(c.file))
  }

  /** A row update that fails leaves a row whose upload is closed to another call. */
  ghost predicate UpdateIsCovered(sys: System, tid: nat, c: Call, r: Reply) {
    && (c.pc == ConfirmRow || c.pc == SoftDelete) && !r.ok && c.req.id in sys.store.rows
    && PendingMultipart(sys.store.rows[c.req.id]) && UploadOf(sys.store.rows[c.req.id]) !in sys.store.uploads ==>
      FinishedByOther(sys, tid, c.req.id)
  }

  ghost predicate Careful(sys: System, a: Action) {
    a.Advance? && a.tid in sys.calls ==>
      var c := sys.calls[a.tid];
      && LeavesClosed(sys, c, a.reply)
      && CloseIsCovered(sys, a.tid, c, a.reply)
      && UpdateIsCovered(sys, a.tid, c, a.reply)
  }

  ghost predicate CarefulRun(cfg: Config, actions: seq<Action>) {
    forall n | 0 <= n < |actions| :: Careful(Run(cfg, INIT, actions[..n]), actions[n])
  }

  lemma CarefulPrefix(cfg: Config, actions: seq<Action>)
    requires CarefulRun(cfg, actions) && actions != []
    ensures CarefulRun(cfg, actions[..|actions| - 1])
    ensures Careful(Run(cfg, INIT, actions[..|actions| - 1]), actions[|actions| - 1])
  {
    var front := actions[..|actions| - 1];
    forall n | 0 <= n < |front| ensures Careful(Run(cfg, INIT, front[..n]), front[n]) {
      assert front[..n] == actions[..n] && front[n] == actions[n];
    }
  }

  // ---------- supporting invariant ----------

  /** The call's file names an upload that was issued. */
  predicate Carries(c: Call) {
    Opening(c) || (HoldsCopy(c) && c.file.mode == Multipart)
  }

  /** The upload of an opening call is open and in nobody else's hands. */
  ghost predicate OpeningOk(sys: System, t: nat)
    requires t in sys.calls
  {
    Opening(sys.calls[t]) ==>
      var u := UploadOf(sys.calls[t].file);
      && u in sys.store.uploads
      && (forall id | id in sys.store.rows && sys.store.rows[id].mode == Multipart :: UploadOf(sys.store.rows[id]) != u)
      && (forall id | id in sys.store.cache && sys.store.cache[id].mode == Multipart :: UploadOf(sys.store.cache[id]) != u)
      && (forall v | v in sys.calls && v != t && Carries(sys.calls[v]) :: UploadOf(sys.calls[v].file) != u)
  }

  ghost predicate AccountInv(sys: System) {
    NoOrphans(sys) && NoDangling(sys) && forall t | t in sys.calls :: OpeningOk(sys, t)
  }

  ghost predicate FullInv(cfg: Config, sys: System) {
    SystemInv(cfg, sys) && ExactlyOnce.OnceInv(sys) && AccountInv(sys)
  }

  // ---------- facts about one statement ----------

  lemma CarriedIsIssued(cfg: Config, s: Store, c: Call)
    requires CallInv(cfg, s, c) && Carries(c)
    ensures UploadOf(c.file) in s.issued
  {
  }

  /** Two versions of a pending row are the same. */
  lemma PendingCopyIsRow(cfg: Config, s: Store, c: Call)
    requires CallInv(cfg, s, c) && HoldsCopy(c) && c.file.status == Pending
    requires s.rows[c.req.id].status == Pending
    ensures c.file == s.rows[c.req.id]
  {
  }

  lemma OnlyCloseCloses(s: Store, c: Call, r: Reply, u: Upload)
    requires u in s.uploads && u !in Step(s, c, r).store.uploads
    ensures u == UploadOf(c.file) && Closing(c)
  {
  }

  lemma CloserCarries(cfg: Config, s: Store, c: Call)
    requires CallInv(cfg, s, c) && Closing(c)
    ensures Carries(c)
  {
  }

  /** An upload leaves storage's list only through a call that carries it. */
  lemma OnlyCarrierCloses(cfg: Config, s: Store, c: Call, r: Reply, u: Upload)
    requires CallInv(cfg, s, c) && u in s.uploads && u !in Step(s, c, r).store.uploads
    ensures u == UploadOf(c.file) && Carries(c)
    ensures c.pc == RollbackUpload || c.pc == AbortUpload || c.pc == FinishUpload
  {
    OnlyCloseCloses(s, c, r, u);
    CloserCarries(cfg, s, c);
  }

  lemma OnlyOpenIssues(cfg: Config, s: Store, c: Call, r: Reply, u: Upload)
    requires CallInv(cfg, s, c) && u !in s.uploads && u in Step(s, c, r).store.uploads
    ensures c.pc == OpenUpload && u !in s.issued
    ensures Opening(Step(s, c, r).call) && UploadOf(Step(s, c, r).call.file) == u
  {
  }

  lemma InsertOpens(cfg: Config, s: Store, c: Call)
    requires CallInv(cfg, s, c) && c.pc == InsertRow && c.file.mode == Multipart
    ensures Opening(c)
  {
  }

  lemma GuardStays(sys: System, tid: nat, s': Store, c': Call, u: Upload)
    requires tid in sys.calls && (GuardedByOther(sys, tid, u) || Guards(c', u))
    ensures Guarded(System(s', sys.calls[tid := c']), u)
  {
    var calls' := sys.calls[tid := c'];
    if Guards(c', u) {
      assert tid in calls' && Guards(calls'[tid], u);
    } else {
      var t :| t in sys.calls && t != tid && Guards(sys.calls[t], u);
      assert t in calls' && Guards(calls'[t], u);
    }
  }

  lemma FinisherStays(sys: System, tid: nat, s': Store, c': Call, id: string)
    requires tid in sys.calls && (FinishedByOther(sys, tid, id) || (Finishing(c') && c'.req.id == id))
    ensures FinishedBy(System(s', sys.calls[tid := c']), id)
  {
    var calls' := sys.calls[tid := c'];
    if Finishing(c') && c'.req.id == id {
      assert tid in calls' && Finishing(calls'[tid]);
    } else {
      var t :| t in sys.calls && t != tid && Finishing(sys.calls[t]) && sys.calls[t].req.id == id;
      assert t in calls' && Finishing(calls'[t]);
    }
  }

  // ---------- no orphans ----------

  lemma RowChange(cfg: Config, s: Store, c: Call, r: Reply, id: string)
    requires RowsOk(cfg, s) && CallInv(cfg, s, c)
    requires id in s.rows && id in Step(s, c, r).store.rows && Step(s, c, r).store.rows[id] != s.rows[id]
    ensures id == c.req.id && (c.pc == ConfirmRow || c.pc == SoftDelete) && r.ok
    ensures Step(s, c, r).store.rows[id].status != Pending
  {
    RowAfter(s, Decide(s, c, r).effect, id);
    WrittenRow(cfg, s, c, r);
  }

  lemma DeleteGoesOnGuarding(cfg: Config, s: Store, c: Call, r: Reply)
    requires RowsOk(cfg, s) && CallInv(cfg, s, c) && c.req.DeleteFile? && TakesPending(s, c, r)
    ensures Guards(Step(s, c, r).call, UploadOf(s.rows[c.req.id]))
  {
  }

  lemma WriteGuardsNothing(c: Call, u: Upload)
    requires c.pc == ConfirmRow || c.pc == SoftDelete
    ensures !Guards(c, u)
  {
  }

  /** A careful statement that takes a row out of pending leaves its upload closed or guarded. */
  lemma StepKeepsBacked(cfg: Config, sys: System, tid: nat, r: Reply, u: Upload)
    requires FullInv(cfg, sys) && tid in sys.calls && Careful(sys, Advance(tid, r))
    requires u in sys.store.uploads && Backed(sys.store, u)
    ensures Backed(Next(cfg, sys, Advance(tid, r)).store, u) || Guarded(Next(cfg, sys, Advance(tid, r)), u)
  {
    var s, c, st := sys.store, sys.calls[tid], Step(sys.store, sys.calls[tid], r);
    var id :| id in s.rows && PendingMultipart(s.rows[id]) && UploadOf(s.rows[id]) == u;
    StepKeepsInv(cfg, sys, tid, r);
    if st.store.rows[id] != s.rows[id] {
      RowChange(cfg, s, c, r, id);
      WriteGuardsNothing(c, u);
      if c.req.DeleteFile? { DeleteGoesOnGuarding(cfg, s, c, r); }
      GuardStays(sys, tid, st.store, st.call, u);
    }
  }

  lemma ClosingStep(s: Store, c: Call, r: Reply)
    requires Closing(c) && UploadOf(c.file) in s.uploads
    ensures if r.ok then UploadOf(c.file) !in Step(s, c, r).store.uploads else Step(s, c, r).store == s
  {
  }

  /** A guard that steps inserts the row, closes the upload, or goes on guarding, unless its close
      fails. */
  lemma OwnGuard(cfg: Config, s: Store, c: Call, r: Reply, u: Upload)
    requires CallInv(cfg, s, c) && Guards(c, u) && u in s.uploads && u in Step(s, c, r).store.uploads
    ensures || Guards(Step(s, c, r).call, u)
            || (Decide(s, c, r).effect == PutRow(c.file) && c.pc == InsertRow)
            || (Closing(c) && !r.ok && Step(s, c, r).store == s)
  {
    if c.pc != InsertRow { ClosingStep(s, c, r); }
  }

  lemma StepKeepsGuard(cfg: Config, sys: System, tid: nat, r: Reply, u: Upload)
    requires FullInv(cfg, sys) && tid in sys.calls && Careful(sys, Advance(tid, r))
    requires Guarded(sys, u) && !Backed(sys.store, u)
    requires u in sys.store.uploads && u in Next(cfg, sys, Advance(tid, r)).store.uploads
    ensures Backed(Next(cfg, sys, Advance(tid, r)).store, u) || Guarded(Next(cfg, sys, Advance(tid, r)), u)
  {
    var s, c, st := sys.store, sys.calls[tid], Step(sys.store, sys.calls[tid], r);
    if GuardedByOther(sys, tid, u) {
      GuardStays(sys, tid, st.store, st.call, u);
    } else {
      assert Guards(c, u) && CallInv(cfg, s, c);
      OwnGuard(cfg, s, c, r, u);
      if Guards(st.call, u) {
        GuardStays(sys, tid, st.store, st.call, u);
      } else if c.pc == InsertRow {
        WrittenRow(cfg, s, c, r);
        assert BuildingOk(cfg, s, c);
        assert st.store.rows[c.file.id] == c.file;
      }
    }
  }

  lemma StepKeepsNoOrphans(cfg: Config, sys: System, tid: nat, r: Reply)
    requires FullInv(cfg, sys) && tid in sys.calls && Careful(sys, Advance(tid, r))
    ensures NoOrphans(Next(cfg, sys, Advance(tid, r)))
  {
    var s, c, sys' := sys.store, sys.calls[tid], Next(cfg, sys, Advance(tid, r));
    forall u | u in sys'.store.uploads ensures Backed(sys'.store, u) || Guarded(sys', u) {
      if u !in s.uploads {
        OnlyOpenIssues(cfg, s, c, r, u);
        assert Guards(sys'.calls[tid], u);
      } else if Backed(s, u) {
        StepKeepsBacked(cfg, sys, tid, r, u);
      } else {
        StepKeepsGuard(cfg, sys, tid, r, u);
      }
    }
  }

  // ---------- no dangling rows ----------

  lemma ClosingOwnRow(cfg: Config, sys: System, tid: nat, r: Reply, id: string)
    requires FullInv(cfg, sys) && tid in sys.calls
    requires id in sys.store.rows && PendingMultipart(sys.store.rows[id])
    requires UploadOf(sys.store.rows[id]) in sys.store.uploads
    requires UploadOf(sys.store.rows[id]) !in Step(sys.store, sys.calls[tid], r).store.uploads
    ensures HasClosed(Step(sys.store, sys.calls[tid], r).call) && sys.calls[tid].req.id == id
    ensures Step(sys.store, sys.calls[tid], r).call.req == sys.calls[tid].req
  {
    var s, c := sys.store, sys.calls[tid];
    OnlyCarrierCloses(cfg, s, c, r, UploadOf(s.rows[id]));
    assert OpeningOk(sys, tid);
    assert HoldsCopy(c);
    assert s.rows[c.req.id].objectKey == s.rows[id].objectKey;
    assert c.req.id == id;
    assert ExactlyOnce.Owes(c, FileDeleted) ==> !ExactlyOnce.Fresh(s.rows, FileDeleted, id);
  }

  lemma AbortGoesOn(s: Store, c: Call, r: Reply)
    requires c.req.AbortMultipart? && (c.pc == AbortUpload || c.pc == DeleteParts)
    ensures Finishing(Step(s, c, r).call) && Step(s, c, r).call.req == c.req
  {
  }

  lemma PendingRowWasPending(cfg: Config, s: Store, c: Call, r: Reply, id: string)
    requires RowsOk(cfg, s) && CallInv(cfg, s, c) && id in s.rows && id in Step(s, c, r).store.rows
    requires PendingMultipart(Step(s, c, r).store.rows[id])
    ensures s.rows[id] == Step(s, c, r).store.rows[id]
  {
    if Step(s, c, r).store.rows[id] != s.rows[id] {
      RowChange(cfg, s, c, r, id);
    }
  }

  lemma TakenRow(cfg: Config, s: Store, c: Call, r: Reply)
    requires RowsOk(cfg, s) && CallInv(cfg, s, c) && TakesPending(s, c, r)
    ensures var st := Step(s, c, r);
            && st.store.uploads == s.uploads && c.req.id in st.store.rows && st.store.rows[c.req.id].status != Pending
            && st.store.rows == s.rows[c.req.id := st.store.rows[c.req.id]]
            && (!c.req.DeleteFile? ==> forall u :: !Guards(st.call, u))
  {
    assert s.rows[c.req.id].id == c.req.id;
  }

  /** A finisher that steps goes on finishing or takes the row, unless its row update fails. */
  lemma FinishingGoesOn(cfg: Config, s: Store, c: Call, r: Reply)
    requires RowsOk(cfg, s) && CallInv(cfg, s, c) && Finishing(c)
    requires c.req.id in Step(s, c, r).store.rows && PendingMultipart(Step(s, c, r).store.rows[c.req.id])
    ensures Step(s, c, r).call.req == c.req
    ensures Finishing(Step(s, c, r).call) || ((c.pc == ConfirmRow || c.pc == SoftDelete) && !r.ok)
  {
    if c.pc == AbortUpload || c.pc == DeleteParts {
      AbortGoesOn(s, c, r);
    } else if r.ok {
      RequestIsKept(s, c, r);
      PendingRowWasPending(cfg, s, c, r, c.req.id);
      assert TakesPending(s, c, r);
      TakenRow(cfg, s, c, r);
    } else {
      RequestIsKept(s, c, r);
    }
  }

  lemma InsertedBy(s: Store, e: Effect, id: string)
    requires id !in s.rows && id in Apply(s, e).rows
    ensures e.PutRow? && e.row.id == id && Apply(s, e).rows[id] == e.row && Apply(s, e).uploads == s.uploads
  {
  }

  /** A new pending multipart row was inserted by a call whose upload is open. */
  lemma InsertedRowIsOpen(cfg: Config, sys: System, tid: nat, r: Reply, id: string)
    requires FullInv(cfg, sys) && tid in sys.calls
    requires id !in sys.store.rows && id in Step(sys.store, sys.calls[tid], r).store.rows
    requires Step(sys.store, sys.calls[tid], r).store.rows[id].mode == Multipart
    ensures UploadOf(Step(sys.store, sys.calls[tid], r).store.rows[id]) in Step(sys.store, sys.calls[tid], r).store.uploads
  {
    var s, c := sys.store, sys.calls[tid];
    assert CallInv(cfg, s, c) && OpeningOk(sys, tid);
    var e := Decide(s, c, r).effect;
    InsertedBy(s, e, id);
    WrittenRow(cfg, s, c, r);
    assert c.pc == InsertRow && e.row == c.file;
    InsertOpens(cfg, s, c);
  }

  lemma PendingRowStaysCovered(cfg: Config, sys: System, tid: nat, r: Reply, id: string)
    requires FullInv(cfg, sys) && tid in sys.calls && Careful(sys, Advance(tid, r))
    requires id in sys.store.rows && PendingMultipart(sys.store.rows[id])
    requires id in Next(cfg, sys, Advance(tid, r)).store.rows
    requires Next(cfg, sys, Advance(tid, r)).store.rows[id] == sys.store.rows[id]
    ensures var sys' := Next(cfg, sys, Advance(tid, r));
            UploadOf(sys'.store.rows[id]) in sys'.store.uploads || FinishedBy(sys', id)
  {
    var s, c, st := sys.store, sys.calls[tid], Step(sys.store, sys.calls[tid], r);
    if UploadOf(s.rows[id]) in s.uploads {
      if UploadOf(s.rows[id]) !in st.store.uploads {
        ClosingOwnRow(cfg, sys, tid, r, id);
        FinisherStays(sys, tid, st.store, st.call, id);
      }
    } else {
      if !FinishedByOther(sys, tid, id) {
        assert Finishing(c) && c.req.id == id && CallInv(cfg, s, c);
        FinishingGoesOn(cfg, s, c, r);
      }
      FinisherStays(sys, tid, st.store, st.call, id);
    }
  }

  lemma StepKeepsNoDangling(cfg: Config, sys: System, tid: nat, r: Reply)
    requires FullInv(cfg, sys) && tid in sys.calls && Careful(sys, Advance(tid, r))
    ensures NoDangling(Next(cfg, sys, Advance(tid, r)))
  {
    var s, c, sys' := sys.store, sys.calls[tid], Next(cfg, sys, Advance(tid, r));
    forall id | id in sys'.store.rows && PendingMultipart(sys'.store.rows[id])
      ensures UploadOf(sys'.store.rows[id]) in sys'.store.uploads || FinishedBy(sys', id)
    {
      if id !in s.rows {
        InsertedRowIsOpen(cfg, sys, tid, r, id);
      } else {
        PendingRowWasPending(cfg, s, c, r, id);
        PendingRowStaysCovered(cfg, sys, tid, r, id);
      }
    }
  }

  // ---------- the upload of a creation ----------

  lemma OpenCarriesNew(s: Store, c: Call, r: Reply)
    requires c.pc == OpenUpload && Legal(c) && Carries(Decide(s, c, r).call)
    ensures UploadOf(Decide(s, c, r).call.file) !in s.issued
  {
  }

  lemma ReadCarries(s: Store, c: Call, r: Reply)
    requires Legal(c) && (c.pc == ReadRow || c.pc == ReadCache) && Carries(Decide(s, c, r).call)
    ensures HoldsCopy(Decide(s, c, r).call) && Decide(s, c, r).call.file.mode == Multipart
  {
  }

  lemma WriteCarries(s: Store, c: Call, r: Reply)
    requires Legal(c) && WritesRow(c.pc) && Carries(Decide(s, c, r).call)
    requires c.pc == InsertRow && !c.req.CreateMultipart? ==> c.file.mode == Single
    ensures Carries(c) && Decide(s, c, r).call.file == c.file
  {
  }

  lemma StepCarries(cfg: Config, s: Store, c: Call, r: Reply)
    requires CallInv(cfg, s, c) && c.pc != ReadRow && c.pc != ReadCache && c.pc != OpenUpload
    requires Carries(Decide(s, c, r).call)
    ensures Carries(c) && Decide(s, c, r).call.file == c.file
  {
    if WritesRow(c.pc) { WriteCarries(s, c, r); }
  }

  /** What a call may newly carry after a statement. */
  lemma CarrySource(cfg: Config, s: Store, c: Call, r: Reply)
    requires StoreInv(cfg, s) && CallInv(cfg, s, c) && Carries(Decide(s, c, r).call)
    ensures var u := UploadOf(Decide(s, c, r).call.file);
            || (Carries(c) && u == UploadOf(c.file))
            || (c.req.id in s.rows && s.rows[c.req.id].mode == Multipart && u == UploadOf(s.rows[c.req.id]))
            || (c.req.id in s.cache && s.cache[c.req.id].mode == Multipart && u == UploadOf(s.cache[c.req.id]))
            || u !in s.issued
  {
    if c.pc == ReadRow || c.pc == ReadCache {
      ReadCarries(s, c, r);
      ReadSource(cfg, s, c, r);
    } else if c.pc == OpenUpload {
      OpenCarriesNew(s, c, r);
    } else {
      StepCarries(cfg, s, c, r);
    }
  }

  lemma StillOpening(s: Store, c: Call, r: Reply)
    requires Legal(c) && c.pc != OpenUpload && Opening(Step(s, c, r).call)
    requires c.pc == PresignUpload ==> !c.req.CreateMultipart?
    ensures Opening(c) && Step(s, c, r).call.file == c.file && Step(s, c, r).store == s
  {
    RequestIsKept(s, c, r);
  }

  lemma OpeningBefore(cfg: Config, s: Store, c: Call, r: Reply)
    requires CallInv(cfg, s, c) && Opening(Step(s, c, r).call)
    ensures (Opening(c) && Step(s, c, r).call.file == c.file && Step(s, c, r).store == s)
         || (c.pc == OpenUpload && UploadOf(Step(s, c, r).call.file) !in s.issued &&
             Step(s, c, r).store.rows == s.rows && Step(s, c, r).store.cache == s.cache &&
             UploadOf(Step(s, c, r).call.file) in Step(s, c, r).store.uploads)
  {
    if c.pc != OpenUpload { StillOpening(s, c, r); }
  }

  lemma RowSource(cfg: Config, s: Store, c: Call, r: Reply, id: string)
    requires RowsOk(cfg, s) && CallInv(cfg, s, c) && id in Step(s, c, r).store.rows
    requires Step(s, c, r).store.rows[id].mode == Multipart
    ensures var u := UploadOf(Step(s, c, r).store.rows[id]);
            (id in s.rows && s.rows[id].mode == Multipart && u == UploadOf(s.rows[id])) ||
            (Opening(c) && c.pc == InsertRow && u == UploadOf(c.file))
  {
    var e := Decide(s, c, r).effect;
    RowAfter(s, e, id);
    if e.PutRow? {
      WrittenRow(cfg, s, c, r);
      if c.pc == InsertRow && c.file.mode == Multipart { InsertOpens(cfg, s, c); }
    }
  }

  lemma CacheEntrySource(cfg: Config, s: Store, c: Call, r: Reply, id: string)
    requires CallInv(cfg, s, c) && id in Step(s, c, r).store.cache && Step(s, c, r).store.cache[id].mode == Multipart
    ensures var u := UploadOf(Step(s, c, r).store.cache[id]);
            (id in s.cache && s.cache[id].mode == Multipart && u == UploadOf(s.cache[id])) ||
            (HoldsCopy(c) && Carries(c) && u == UploadOf(c.file))
  {
    CacheSource(cfg, s, c, r, id);
  }

  /** An opening call other than the one that steps keeps its upload to itself. */
  lemma OtherOpeningOk(cfg: Config, sys: System, tid: nat, r: Reply, t: nat)
    requires FullInv(cfg, sys) && tid in sys.calls && t in sys.calls && t != tid && Opening(sys.calls[t])
    ensures OpeningOk(Next(cfg, sys, Advance(tid, r)), t)
  {
    var s, c, sys' := sys.store, sys.calls[tid], Next(cfg, sys, Advance(tid, r));
    var u := UploadOf(sys.calls[t].file);
    assert OpeningOk(sys, t) && CallInv(cfg, s, sys.calls[t]);
    assert Carries(c) ==> UploadOf(c.file) != u;
    CarriedIsIssued(cfg, s, sys.calls[t]);
    if u !in sys'.store.uploads { OnlyCarrierCloses(cfg, s, c, r, u); }
    forall id | id in sys'.store.rows && sys'.store.rows[id].mode == Multipart
      ensures UploadOf(sys'.store.rows[id]) != u
    {
      RowSource(cfg, s, c, r, id);
    }
    forall id | id in sys'.store.cache && sys'.store.cache[id].mode == Multipart
      ensures UploadOf(sys'.store.cache[id]) != u
    {
      CacheEntrySource(cfg, s, c, r, id);
    }
    if Carries(sys'.calls[tid]) { CarrySource(cfg, s, c, r); }
  }

  /** The stepping call, when it has just opened its upload: nobody has seen the upload yet. */
  lemma JustOpenedOk(cfg: Config, sys: System, tid: nat, r: Reply)
    requires FullInv(cfg, sys) && tid in sys.calls && sys.calls[tid].pc == OpenUpload
    requires Opening(Step(sys.store, sys.calls[tid], r).call)
    ensures OpeningOk(Next(cfg, sys, Advance(tid, r)), tid)
  {
    var s, c, sys' := sys.store, sys.calls[tid], Next(cfg, sys, Advance(tid, r));
    var u := UploadOf(sys'.calls[tid].file);
    OpeningBefore(cfg, s, c, r);
    forall id | id in s.rows && s.rows[id].mode == Multipart ensures UploadOf(s.rows[id]) != u {
      assert Sound(cfg, s, s.rows[id]);
    }
    forall id | id in s.cache && s.cache[id].mode == Multipart ensures UploadOf(s.cache[id]) != u {
      assert Version(cfg, s, id, s.cache[id]);
    }
    forall v | v in sys'.calls && v != tid && Carries(sys'.calls[v]) ensures UploadOf(sys'.calls[v].file) != u {
      CarriedIsIssued(cfg, s, sys.calls[v]);
    }
  }

  lemma StillOpeningOk(cfg: Config, sys: System, tid: nat, r: Reply)
    requires FullInv(cfg, sys) && tid in sys.calls && sys.calls[tid].pc != OpenUpload
    requires Opening(Step(sys.store, sys.calls[tid], r).call)
    ensures OpeningOk(Next(cfg, sys, Advance(tid, r)), tid)
  {
    var s, c, sys' := sys.store, sys.calls[tid], Next(cfg, sys, Advance(tid, r));
    OpeningBefore(cfg, s, c, r);
    assert OpeningOk(sys, tid);
    assert sys'.store == s && sys'.calls[tid].file == c.file;
    forall v | v in sys'.calls && v != tid && Carries(sys'.calls[v])
      ensures UploadOf(sys'.calls[v].file) != UploadOf(c.file)
    {
      assert sys'.calls[v] == sys.calls[v];
    }
  }

  lemma StepKeepsOpening(cfg: Config, sys: System, tid: nat, r: Reply, t: nat)
    requires FullInv(cfg, sys) && tid in sys.calls && t in sys.calls
    ensures OpeningOk(Next(cfg, sys, Advance(tid, r)), t)
  {
    var sys' := Next(cfg, sys, Advance(tid, r));
    if t != tid && Opening(sys.calls[t]) {
      OtherOpeningOk(cfg, sys, tid, r, t);
    } else if t == tid && Opening(sys'.calls[tid]) {
      if sys.calls[tid].pc == OpenUpload {
        JustOpenedOk(cfg, sys, tid, r);
      } else {
        StillOpeningOk(cfg, sys, tid, r);
      }
    }
  }

  // ---------- the condition is necessary ----------

  /** The key of an upload names its row. */
  lemma UploadNamesRow(cfg: Config, s: Store, id: string)
    requires RowsOk(cfg, s) && id in s.rows
    ensures forall k | k in s.rows && UploadOf(s.rows[k]) == UploadOf(s.rows[id]) :: k == id
  {
    forall k | k in s.rows && UploadOf(s.rows[k]) == UploadOf(s.rows[id]) ensures k == id {
      assert s.rows[k].objectKey == s.rows[id].objectKey;
    }
  }

  /** A row taken out of pending with its upload open and nobody to close it leaves an orphan. */
  lemma TakingOrphans(cfg: Config, sys: System, tid: nat, r: Reply)
    requires SystemInv(cfg, sys) && tid in sys.calls && !LeavesClosed(sys, sys.calls[tid], r)
    ensures !NoOrphans(Next(cfg, sys, Advance(tid, r)))
  {
    var s, c, sys' := sys.store, sys.calls[tid], Next(cfg, sys, Advance(tid, r));
    var id, u := c.req.id, UploadOf(s.rows[c.req.id]);
    assert CallInv(cfg, s, c);
    TakenRow(cfg, s, c, r);
    WriteGuardsNothing(c, u);
    UploadNamesRow(cfg, s, id);
    assert !Backed(sys'.store, u) by {
      assert forall k | k in sys'.store.rows && k != id :: k in s.rows && sys'.store.rows[k] == s.rows[k];
    }
    assert !Guarded(sys', u) by {
      assert forall t | t in sys'.calls && t != tid :: t in sys.calls && sys'.calls[t] == sys.calls[t];
    }
    assert u in sys'.store.uploads;
  }

  lemma FailedClose(s: Store, c: Call, r: Reply)
    requires Legal(c) && Closing(c) && !r.ok
    ensures Step(s, c, r).store == s && forall u :: !Guards(Step(s, c, r).call, u)
  {
  }

  /** A close that fails with nobody else to answer for the upload leaves an orphan. */
  lemma FailingCloseOrphans(cfg: Config, sys: System, tid: nat, r: Reply)
    requires SystemInv(cfg, sys) && tid in sys.calls && !CloseIsCovered(sys, tid, sys.calls[tid], r)
    ensures !NoOrphans(Next(cfg, sys, Advance(tid, r)))
  {
    var c, sys' := sys.calls[tid], Next(cfg, sys, Advance(tid, r));
    var u := UploadOf(c.file);
    assert CallInv(cfg, sys.store, c);
    FailedClose(sys.store, c, r);
    assert !Guarded(sys', u) by {
      assert forall t | t in sys'.calls && t != tid :: t in sys.calls && sys'.calls[t] == sys.calls[t];
    }
    assert u in sys'.store.uploads;
  }

  lemma FailedUpdate(s: Store, c: Call, r: Reply)
    requires Legal(c) && (c.pc == ConfirmRow || c.pc == SoftDelete) && !r.ok
    ensures Step(s, c, r).store == s && Step(s, c, r).call.pc == Returned
  {
  }

  lemma FinishersElsewhere(sys: System, tid: nat, s': Store, c': Call, id: string)
    requires tid in sys.calls && !Finishing(c')
    ensures FinishedBy(System(s', sys.calls[tid := c']), id) ==> FinishedByOther(sys, tid, id)
  {
    var calls' := sys.calls[tid := c'];
    assert forall t | t in calls' && t != tid :: t in sys.calls && calls'[t] == sys.calls[t];
  }

  /** A row update that fails after the upload was closed, with no other call to take the row,
      leaves it dangling. */
  lemma FailingUpdateDangles(cfg: Config, sys: System, tid: nat, r: Reply)
    requires SystemInv(cfg, sys) && tid in sys.calls && !UpdateIsCovered(sys, tid, sys.calls[tid], r)
    ensures !NoDangling(Next(cfg, sys, Advance(tid, r)))
  {
    var c, sys' := sys.calls[tid], Next(cfg, sys, Advance(tid, r));
    assert CallInv(cfg, sys.store, c);
    FailedUpdate(sys.store, c, r);
    FinishersElsewhere(sys, tid, sys'.store, sys'.calls[tid], c.req.id);
    assert c.req.id in sys'.store.rows && PendingMultipart(sys'.store.rows[c.req.id]);
  }

  /** From a state in good order, a statement leaves no orphaned upload and no dangling row exactly
      when it is careful. */
  lemma StepAccountsIff(cfg: Config, sys: System, tid: nat, r: Reply)
    requires FullInv(cfg, sys) && tid in sys.calls
    ensures NoOrphans(Next(cfg, sys, Advance(tid, r))) && NoDangling(Next(cfg, sys, Advance(tid, r))) <==>
            Careful(sys, Advance(tid, r))
  {
    if Careful(sys, Advance(tid, r)) {
      StepKeepsNoOrphans(cfg, sys, tid, r);
      StepKeepsNoDangling(cfg, sys, tid, r);
    } else if !LeavesClosed(sys, sys.calls[tid], r) {
      TakingOrphans(cfg, sys, tid, r);
    } else if !CloseIsCovered(sys, tid, sys.calls[tid], r) {
      FailingCloseOrphans(cfg, sys, tid, r);
    } else {
      FailingUpdateDangles(cfg, sys, tid, r);
    }
  }

  /** ConfirmUpload orphans an upload exactly when it takes a pending multipart row whose upload is
      open and which no call is about to close. */
  lemma ConfirmOrphansIff(cfg: Config, sys: System, tid: nat, r: Reply)
    requires FullInv(cfg, sys) && tid in sys.calls && r.ok
    requires sys.calls[tid].req.ConfirmUpload? && sys.calls[tid].pc == ConfirmRow
    requires sys.calls[tid].req.id in sys.store.rows
    ensures var row := sys.store.rows[sys.calls[tid].req.id];
            NoOrphans(Next(cfg, sys, Advance(tid, r))) <==>
            !(PendingMultipart(row) && UploadOf(row) in sys.store.uploads && !Guarded(sys, UploadOf(row)))
  {
    if Careful(sys, Advance(tid, r)) {
      StepKeepsNoOrphans(cfg, sys, tid, r);
    } else {
      TakingOrphans(cfg, sys, tid, r);
    }
  }

  // ---------- runs ----------

  lemma ArrivedIsIdle(c: Call)
    requires Arrived(c)
    ensures !Finishing(c) && !Opening(c) && !Carries(c)
  {
  }

  lemma BeginIsIdle(cfg: Config, req: Request, now: int64)
    ensures !Finishing(Begin(cfg, req, now)) && !Opening(Begin(cfg, req, now)) && !Carries(Begin(cfg, req, now))
  {
    BeginArrives(cfg, req, now);
    ArrivedIsIdle(Begin(cfg, req, now));
  }

  lemma InvokeKeepsAccount(cfg: Config, sys: System, tid: nat, req: Request, now: int64)
    requires AccountInv(sys) && tid !in sys.calls
    ensures AccountInv(Next(cfg, sys, Invoke(tid, req, now)))
  {
    var sys' := Next(cfg, sys, Invoke(tid, req, now));
    BeginIsIdle(cfg, req, now);
    assert forall t | t in sys.calls :: sys'.calls[t] == sys.calls[t];
    forall t | t in sys'.calls ensures OpeningOk(sys', t) {
      if t != tid { assert OpeningOk(sys, t); }
    }
    forall u | u in sys.store.uploads ensures Backed(sys'.store, u) || Guarded(sys', u) {
      if !Backed(sys.store, u) {
        var t :| t in sys.calls && Guards(sys.calls[t], u);
        assert Guards(sys'.calls[t], u);
      }
    }
    forall id | id in sys.store.rows && PendingMultipart(sys.store.rows[id])
      ensures UploadOf(sys.store.rows[id]) in sys.store.uploads || FinishedBy(sys', id)
    {
      if UploadOf(sys.store.rows[id]) !in sys.store.uploads {
        var t :| t in sys.calls && Finishing(sys.calls[t]) && sys.calls[t].req.id == id;
        assert Finishing(sys'.calls[t]);
      }
    }
  }

  lemma EnvironmentKeepsAccount(sys: System, e: Effect)
    requires AccountInv(sys) && (e.DropCache? || e.PutObject?)
    ensures AccountInv(sys.(store := Apply(sys.store, e)))
  {
    var sys' := sys.(store := Apply(sys.store, e));
    forall t | t in sys'.calls ensures OpeningOk(sys', t) {
      assert OpeningOk(sys, t);
    }
    forall u | u in sys'.store.uploads ensures Backed(sys'.store, u) || Guarded(sys', u) {
      assert Backed(sys.store, u) || Guarded(sys, u);
    }
    forall id | id in sys'.store.rows && PendingMultipart(sys'.store.rows[id])
      ensures UploadOf(sys'.store.rows[id]) in sys'.store.uploads || FinishedBy(sys', id)
    {
      assert UploadOf(sys.store.rows[id]) in sys.store.uploads || FinishedBy(sys, id);
    }
  }

  lemma StepKeepsAccount(cfg: Config, sys: System, tid: nat, r: Reply)
    requires FullInv(cfg, sys) && tid in sys.calls && Careful(sys, Advance(tid, r))
    ensures AccountInv(Next(cfg, sys, Advance(tid, r)))
  {
    var sys' := Next(cfg, sys, Advance(tid, r));
    StepAccountsIff(cfg, sys, tid, r);
    forall t | t in sys'.calls ensures OpeningOk(sys', t) {
      StepKeepsOpening(cfg, sys, tid, r, t);
    }
  }

  lemma NextKeepsAccount(cfg: Config, sys: System, a: Action)
    requires FullInv(cfg, sys) && Careful(sys, a)
    ensures FullInv(cfg, Next(cfg, sys, a))
  {
    NextKeepsInv(cfg, sys, a);
    ExactlyOnce.NextKeepsOnce(cfg, sys, a);
    match a
    case Invoke(tid, req, now) =>
      if tid !in sys.calls { InvokeKeepsAccount(cfg, sys, tid, req, now); }
    case Advance(tid, r) =>
      if tid in sys.calls { StepKeepsAccount(cfg, sys, tid, r); }
    case Evict(id) => EnvironmentKeepsAccount(sys, DropCache(id));
    case ClientPut(key) => EnvironmentKeepsAccount(sys, PutObject(key));
  }

  lemma {:induction false} RunKeepsAccount(cfg: Config, actions: seq<Action>)
    requires CarefulRun(cfg, actions)
    ensures FullInv(cfg, Run(cfg, INIT, actions))
    decreases |actions|
  {
    if actions != [] {
      CarefulPrefix(cfg, actions);
      RunKeepsAccount(cfg, actions[..|actions| - 1]);
      NextKeepsAccount(cfg, Run(cfg, INIT, actions[..|actions| - 1]), actions[|actions| - 1]);
    }
  }

  // ---------- the theorem ----------

  ghost function PendingUploads(rows: map<string, FileMetadata>): set<Upload> {
    set id | id in rows && PendingMultipart(rows[id]) :: UploadOf(rows[id])
  }

  lemma QuietNeedsNobody(sys: System)
    requires ExactlyOnce.Quiet(sys)
    ensures (forall u :: !Guarded(sys, u)) && (forall id :: !FinishedBy(sys, id))
  {
  }

  lemma QuietAccounts(sys: System)
    requires NoOrphans(sys) && NoDangling(sys) && ExactlyOnce.Quiet(sys)
    ensures sys.store.uploads == PendingUploads(sys.store.rows)
  {
    QuietNeedsNobody(sys);
    forall u | u in PendingUploads(sys.store.rows) ensures u in sys.store.uploads {
      var id :| id in sys.store.rows && PendingMultipart(sys.store.rows[id]) && UploadOf(sys.store.rows[id]) == u;
      assert UploadOf(sys.store.rows[id]) in sys.store.uploads || FinishedBy(sys, id);
    }
  }

  /** Conservation: in every careful run, whatever the interleaving and whatever else failed,
      once all calls have returned the open uploads are exactly those of the pending multipart
      rows. */
  lemma OpenUploadsArePendingRows(cfg: Config, actions: seq<Action>)
    requires CarefulRun(cfg, actions) && ExactlyOnce.Quiet(Run(cfg, INIT, actions))
    ensures Run(cfg, INIT, actions).store.uploads == PendingUploads(Run(cfg, INIT, actions).store.rows)
  {
    RunKeepsAccount(cfg, actions);
    QuietAccounts(Run(cfg, INIT, actions));
  }

  // ---------- reliable runs ----------

  ghost predicate ClosedOk(s: Store, c: Call) {
    HasClosed(c) ==> UploadOf(c.file) !in s.uploads
  }

  ghost predicate AllClosed(sys: System) {
    forall t | t in sys.calls :: ClosedOk(sys.store, sys.calls[t])
  }

  ghost predicate HasCloser(sys: System, id: string) {
    exists t :: t in sys.calls && HasClosed(sys.calls[t]) && sys.calls[t].req.id == id
  }

  /** A pending row whose upload is closed is in the hands of the call that closed it. */
  ghost predicate ClosersPresent(sys: System) {
    forall id | id in sys.store.rows && PendingMultipart(sys.store.rows[id]) ::
      UploadOf(sys.store.rows[id]) in sys.store.uploads || HasCloser(sys, id)
  }

  /** A rollback or an abort in storage does not fail, an assembly fails only while its row is still
      pending, the row update of a completion or an abort does not fail, and ConfirmUpload does not
      take a pending multipart row unless a call is about to close its upload. */
  ghost predicate ReliableStep(sys: System, a: Action) {
    a.Advance? && a.tid in sys.calls ==>
      var s, c := sys.store, sys.calls[a.tid];
      && (c.pc == RollbackUpload || c.pc == AbortUpload ==> a.reply.ok)
      && (c.pc == FinishUpload && !a.reply.ok ==> c.req.id in s.rows && PendingMultipart(s.rows[c.req.id]))
      && (HasClosed(c) && (c.pc == ConfirmRow || c.pc == SoftDelete) ==> a.reply.ok)
      && (c.req.ConfirmUpload? && TakesPending(s, c, a.reply) ==> Guarded(sys, UploadOf(s.rows[c.req.id])))
  }

  ghost predicate ReliableRun(cfg: Config, actions: seq<Action>) {
    forall n | 0 <= n < |actions| :: ReliableStep(Run(cfg, INIT, actions[..n]), actions[n])
  }

  lemma ClosingStarts(cfg: Config, s: Store, c: Call, r: Reply)
    requires CallInv(cfg, s, c) && HasClosed(Step(s, c, r).call)
    requires c.pc == AbortUpload ==> r.ok
    ensures Step(s, c, r).call.file == c.file
    ensures HasClosed(c) || UploadOf(c.file) !in Step(s, c, r).store.uploads
  {
  }

  /** A closed upload is not opened again. */
  lemma ClosedStaysClosed(cfg: Config, s: Store, c: Call, r: Reply, d: Call)
    requires CallInv(cfg, s, c) && CallInv(cfg, s, d) && HasClosed(d) && UploadOf(d.file) !in s.uploads
    ensures UploadOf(d.file) !in Step(s, c, r).store.uploads
  {
    CarriedIsIssued(cfg, s, d);
    if UploadOf(d.file) in Step(s, c, r).store.uploads {
      OnlyOpenIssues(cfg, s, c, r, UploadOf(d.file));
    }
  }

  lemma StepKeepsClosed(cfg: Config, sys: System, tid: nat, r: Reply)
    requires SystemInv(cfg, sys) && AllClosed(sys) && tid in sys.calls && ReliableStep(sys, Advance(tid, r))
    ensures AllClosed(Next(cfg, sys, Advance(tid, r)))
  {
    var s, c, sys' := sys.store, sys.calls[tid], Next(cfg, sys, Advance(tid, r));
    forall t | t in sys'.calls ensures ClosedOk(sys'.store, sys'.calls[t]) {
      assert ClosedOk(s, sys.calls[t]) && CallInv(cfg, s, sys.calls[t]);
      if t == tid && HasClosed(sys'.calls[t]) { ClosingStarts(cfg, s, c, r); }
      if HasClosed(sys.calls[t]) { ClosedStaysClosed(cfg, s, c, r, sys.calls[t]); }
    }
  }

  lemma OtherKeepsClosed(cfg: Config, sys: System, a: Action)
    requires AllClosed(sys) && !(a.Advance? && a.tid in sys.calls)
    ensures AllClosed(Next(cfg, sys, a))
  {
    var sys' := Next(cfg, sys, a);
    if a.Invoke? { BeginIsIdle(cfg, a.req, a.now); }
    forall t | t in sys'.calls ensures ClosedOk(sys'.store, sys'.calls[t]) {
      if t in sys.calls { assert ClosedOk(sys.store, sys.calls[t]) && sys'.calls[t] == sys.calls[t]; }
    }
  }

  lemma NextKeepsClosed(cfg: Config, sys: System, a: Action)
    requires SystemInv(cfg, sys) && AllClosed(sys) && ReliableStep(sys, a)
    ensures AllClosed(Next(cfg, sys, a))
  {
    if a.Advance? && a.tid in sys.calls {
      StepKeepsClosed(cfg, sys, a.tid, a.reply);
    } else {
      OtherKeepsClosed(cfg, sys, a);
    }
  }

  lemma CloserGoesOn(cfg: Config, s: Store, c: Call, r: Reply)
    requires RowsOk(cfg, s) && CallInv(cfg, s, c) && HasClosed(c) && (c.pc == ConfirmRow || c.pc == SoftDelete ==> r.ok)
    requires c.req.id in Step(s, c, r).store.rows && PendingMultipart(Step(s, c, r).store.rows[c.req.id])
    ensures Step(s, c, r).call.req == c.req && HasClosed(Step(s, c, r).call)
  {
    assert c.req.id in s.rows ==> s.rows[c.req.id].id == c.req.id;
  }

  lemma CloserIn(sys: System, t: nat, id: string)
    requires t in sys.calls && HasClosed(sys.calls[t]) && sys.calls[t].req.id == id
    ensures HasCloser(sys, id)
  {
  }

  lemma CloserStays(cfg: Config, sys: System, tid: nat, r: Reply, id: string)
    requires FullInv(cfg, sys) && ClosersPresent(sys) && tid in sys.calls && ReliableStep(sys, Advance(tid, r))
    requires id in sys.store.rows && PendingMultipart(sys.store.rows[id])
    requires id in Next(cfg, sys, Advance(tid, r)).store.rows
    requires Next(cfg, sys, Advance(tid, r)).store.rows[id] == sys.store.rows[id]
    requires UploadOf(sys.store.rows[id]) !in Next(cfg, sys, Advance(tid, r)).store.uploads
    ensures HasCloser(Next(cfg, sys, Advance(tid, r)), id)
  {
    var s, c, sys' := sys.store, sys.calls[tid], Next(cfg, sys, Advance(tid, r));
    if UploadOf(s.rows[id]) in s.uploads {
      ClosingOwnRow(cfg, sys, tid, r, id);
      CloserIn(sys', tid, id);
    } else {
      var t :| t in sys.calls && HasClosed(sys.calls[t]) && sys.calls[t].req.id == id;
      if t == tid { CloserGoesOn(cfg, s, c, r); }
      CloserIn(sys', t, id);
    }
  }

  lemma StepKeepsClosers(cfg: Config, sys: System, tid: nat, r: Reply)
    requires FullInv(cfg, sys) && ClosersPresent(sys) && tid in sys.calls && ReliableStep(sys, Advance(tid, r))
    ensures ClosersPresent(Next(cfg, sys, Advance(tid, r)))
  {
    var s, sys' := sys.store, Next(cfg, sys, Advance(tid, r));
    forall id | id in sys'.store.rows && PendingMultipart(sys'.store.rows[id]) && UploadOf(sys'.store.rows[id]) !in sys'.store.uploads
      ensures HasCloser(sys', id)
    {
      if id !in s.rows {
        InsertedRowIsOpen(cfg, sys, tid, r, id);
      } else {
        PendingRowWasPending(cfg, s, sys.calls[tid], r, id);
        CloserStays(cfg, sys, tid, r, id);
      }
    }
  }

  lemma OtherKeepsClosers(cfg: Config, sys: System, a: Action)
    requires ClosersPresent(sys) && !(a.Advance? && a.tid in sys.calls)
    ensures ClosersPresent(Next(cfg, sys, a))
  {
    var sys' := Next(cfg, sys, a);
    forall id | id in sys'.store.rows && PendingMultipart(sys'.store.rows[id]) && UploadOf(sys'.store.rows[id]) !in sys'.store.uploads
      ensures HasCloser(sys', id)
    {
      var t :| t in sys.calls && HasClosed(sys.calls[t]) && sys.calls[t].req.id == id;
      assert t in sys'.calls && sys'.calls[t] == sys.calls[t];
    }
  }

  lemma NextKeepsClosers(cfg: Config, sys: System, a: Action)
    requires FullInv(cfg, sys) && ClosersPresent(sys) && ReliableStep(sys, a)
    ensures ClosersPresent(Next(cfg, sys, a))
  {
    if a.Advance? && a.tid in sys.calls {
      StepKeepsClosers(cfg, sys, a.tid, a.reply);
    } else {
      OtherKeepsClosers(cfg, sys, a);
    }
  }

  /** A row update that may fail finds the call that closed the upload, if it is closed. */
  lemma ReliableUpdateIsCovered(cfg: Config, sys: System, tid: nat, r: Reply)
    requires FullInv(cfg, sys) && ClosersPresent(sys) && tid in sys.calls && ReliableStep(sys, Advance(tid, r))
    ensures UpdateIsCovered(sys, tid, sys.calls[tid], r)
  {
    var s, c := sys.store, sys.calls[tid];
    if && (c.pc == ConfirmRow || c.pc == SoftDelete) && !r.ok && c.req.id in s.rows
       && PendingMultipart(s.rows[c.req.id]) && UploadOf(s.rows[c.req.id]) !in s.uploads
    {
      var t :| t in sys.calls && HasClosed(sys.calls[t]) && sys.calls[t].req.id == c.req.id;
      assert t != tid && Finishing(sys.calls[t]);
    }
  }

  ghost predicate ReliableInv(cfg: Config, sys: System) {
    FullInv(cfg, sys) && AllClosed(sys) && ClosersPresent(sys)
  }

  lemma ReliableCloseIsCovered(cfg: Config, sys: System, tid: nat, r: Reply)
    requires FullInv(cfg, sys) && tid in sys.calls && ReliableStep(sys, Advance(tid, r))
    ensures CloseIsCovered(sys, tid, sys.calls[tid], r)
  {
    var s, c := sys.store, sys.calls[tid];
    assert CallInv(cfg, s, c);
    if c.pc == FinishUpload && !r.ok {
      PendingCopyIsRow(cfg, s, c);
      assert Backed(s, UploadOf(s.rows[c.req.id]));
    }
  }

  lemma ReliableIsCareful(cfg: Config, sys: System, a: Action)
    requires ReliableInv(cfg, sys) && ReliableStep(sys, a)
    ensures Careful(sys, a)
  {
    if a.Advance? && a.tid in sys.calls {
      var s, c := sys.store, sys.calls[a.tid];
      assert CallInv(cfg, s, c) && ClosedOk(s, c);
      if HasClosed(c) && c.req.id in s.rows && PendingMultipart(s.rows[c.req.id]) { PendingCopyIsRow(cfg, s, c); }
      ReliableUpdateIsCovered(cfg, sys, a.tid, a.reply);
      ReliableCloseIsCovered(cfg, sys, a.tid, a.reply);
    }
  }

  lemma NextKeepsReliable(cfg: Config, sys: System, a: Action)
    requires ReliableInv(cfg, sys) && ReliableStep(sys, a)
    ensures ReliableInv(cfg, Next(cfg, sys, a))
  {
    ReliableIsCareful(cfg, sys, a);
    NextKeepsAccount(cfg, sys, a);
    NextKeepsClosed(cfg, sys, a);
    NextKeepsClosers(cfg, sys, a);
  }

  lemma {:induction false} ReliableRunAccounts(cfg: Config, actions: seq<Action>, n: nat)
    requires ReliableRun(cfg, actions) && n <= |actions|
    ensures ReliableInv(cfg, Run(cfg, INIT, actions[..n]))
  {
    if n > 0 {
      ReliableRunAccounts(cfg, actions, n - 1);
      assert actions[..n][..n - 1] == actions[..n - 1];
      NextKeepsReliable(cfg, Run(cfg, INIT, actions[..n - 1]), actions[n - 1]);
    }
  }

  /** Reliable runs are careful. */
  lemma ReliableRunsAreCareful(cfg: Config, actions: seq<Action>)
    requires ReliableRun(cfg, actions)
    ensures CarefulRun(cfg, actions)
  {
    forall n | 0 <= n < |actions| ensures Careful(Run(cfg, INIT, actions[..n]), actions[n]) {
      ReliableRunAccounts(cfg, actions, n);
      ReliableIsCareful(cfg, Run(cfg, INIT, actions[..n]), actions[n]);
    }
  }
}
