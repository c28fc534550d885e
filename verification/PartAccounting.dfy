/** Part rows under interleaving: which statements leave part rows behind for a file that is not a
    pending multipart upload. */
module PartAccounting {
  import opened Domain
  import opened Protocol
  import opened Lifecycle
  import ExactlyOnce

  /** A call that will still delete the part rows of its file. */
  predicate Cleaner(c: Call) {
    || (c.req.CompleteMultipart? && c.pc == DeleteParts)
    || (IsDelete(c.req) && (c.pc == AbortUpload || c.pc == DeleteParts))
  }

  /** An abort that has deleted the part rows and not yet the row. */
  predicate Aborting(c: Call) {
    c.req.AbortMultipart? && c.pc == SoftDelete
  }

  ghost predicate CleanedBy(sys: System, id: string) {
    exists t :: t in sys.calls && Cleaner(sys.calls[t]) && sys.calls[t].req.id == id
  }

  ghost predicate AbortedBy(sys: System, id: string) {
    exists t :: t in sys.calls && Aborting(sys.calls[t]) && sys.calls[t].req.id == id
  }

  /** Every part row belongs to a pending multipart row that no abort is about to delete, or to a
      call that will delete it. */
  ghost predicate Kept(sys: System, id: string) {
    || CleanedBy(sys, id)
    || (id in sys.store.rows && PendingMultipart(sys.store.rows[id]) && !AbortedBy(sys, id))
  }

  ghost predicate NoStrays(sys: System) {
    forall id | id in sys.store.parts :: Kept(sys, id)
  }

  // ---------- the condition ----------

  /** A statement that can leave strays does not: a report is saved only while its part is kept, and
      ConfirmUpload finds no part rows but those another call will delete. */
  ghost predicate Tidy(sys: System, a: Action) {
    a.Advance? && a.tid in sys.calls && a.reply.ok ==>
      var s, c := sys.store, sys.calls[a.tid];
      && (c.pc == SavePart && c.req.id in s.rows ==> Kept(sys, c.req.id))
      && (c.pc == ConfirmRow && c.req.ConfirmUpload? && c.req.id in s.parts && c.req.id in s.rows &&
          s.rows[c.req.id].status == Pending ==>
            CleanedBy(sys, c.req.id))
  }

  /** Deleting part rows does not fail. */
  predicate DeletesParts(sys: System, a: Action) {
    a.Advance? && a.tid in sys.calls && sys.calls[a.tid].pc == DeleteParts ==> a.reply.ok
  }

  // ---------- one statement ----------

  lemma PlainRead(s: Store, c: Call, r: Reply)
    requires Legal(c) && (c.pc == ReadRow || c.pc == ReadCache)
    ensures var m := Decide(s, c, r);
            m.effect == NoEffect && m.call.req == c.req && !Aborting(m.call)
    ensures !Aborting(c) && !Cleaner(c)
  {
  }

  /** What the statements other than row writes, saves and deletions of parts do: nothing that
      matters here. */
  lemma PlainStep(s: Store, c: Call, r: Reply)
    requires Legal(c) && !WritesRow(c.pc) && c.pc != SavePart && c.pc != DeleteParts
    ensures var st := Step(s, c, r);
            && st.store.rows == s.rows && st.store.parts == s.parts && st.call.req == c.req
            && (Cleaner(c) ==> Cleaner(st.call)) && !Aborting(st.call) && !Aborting(c)
  {
    if c.pc == ReadRow || c.pc == ReadCache {
      PlainRead(s, c, r);
    }
  }

  lemma CleanedStays(sys: System, tid: nat, s': Store, c': Call, id: string)
    requires tid in sys.calls && c'.req == sys.calls[tid].req && CleanedBy(sys, id)
    requires id == c'.req.id && Cleaner(sys.calls[tid]) ==> Cleaner(c')
    ensures CleanedBy(System(s', sys.calls[tid := c']), id)
  {
    var sys' := System(s', sys.calls[tid := c']);
    var t :| t in sys.calls && Cleaner(sys.calls[t]) && sys.calls[t].req.id == id;
    assert t in sys'.calls && Cleaner(sys'.calls[t]) && sys'.calls[t].req.id == id;
  }

  /** A call goes on without ceasing to clean or starting to abort, and the pending row stays. */
  lemma KeptStays(sys: System, tid: nat, s': Store, c': Call, id: string)
    requires tid in sys.calls && c'.req == sys.calls[tid].req && Kept(sys, id)
    requires id == c'.req.id && Cleaner(sys.calls[tid]) ==> Cleaner(c')
    requires id == c'.req.id && Aborting(c') ==> Aborting(sys.calls[tid])
    requires id in sys.store.rows && PendingMultipart(sys.store.rows[id]) && !CleanedBy(sys, id) ==>
               id in s'.rows && s'.rows[id] == sys.store.rows[id]
    ensures Kept(System(s', sys.calls[tid := c']), id)
  {
    var sys' := System(s', sys.calls[tid := c']);
    if CleanedBy(sys, id) {
      CleanedStays(sys, tid, s', c', id);
    } else {
      assert forall t | t in sys'.calls && t != tid :: t in sys.calls && sys'.calls[t] == sys.calls[t];
    }
  }

  /** A call that neither cleans nor aborts, before or after, makes no difference. */
  lemma BystanderKeeps(sys: System, tid: nat, s': Store, c': Call, id: string)
    requires tid in sys.calls && c'.req == sys.calls[tid].req
    requires !Cleaner(sys.calls[tid]) && !Cleaner(c') && !Aborting(sys.calls[tid]) && !Aborting(c')
    ensures CleanedBy(System(s', sys.calls[tid := c']), id) <==> CleanedBy(sys, id)
    ensures AbortedBy(System(s', sys.calls[tid := c']), id) <==> AbortedBy(sys, id)
  {
    var sys' := System(s', sys.calls[tid := c']);
    assert forall t | t in sys.calls && t != tid :: sys'.calls[t] == sys.calls[t];
    assert forall t | t in sys'.calls && t != tid :: t in sys.calls && sys'.calls[t] == sys.calls[t];
    assert CleanedBy(sys', id) ==> CleanedBy(sys, id) by {
      if CleanedBy(sys', id) {
        var t :| t in sys'.calls && Cleaner(sys'.calls[t]) && sys'.calls[t].req.id == id;
        assert t in sys.calls && Cleaner(sys.calls[t]);
      }
    }
    assert CleanedBy(sys, id) ==> CleanedBy(sys', id) by {
      if CleanedBy(sys, id) { CleanedStays(sys, tid, s', c', id); }
    }
    assert AbortedBy(sys', id) ==> AbortedBy(sys, id) by {
      if AbortedBy(sys', id) {
        var t :| t in sys'.calls && Aborting(sys'.calls[t]) && sys'.calls[t].req.id == id;
        assert t in sys.calls && Aborting(sys.calls[t]);
      }
    }
    assert AbortedBy(sys, id) ==> AbortedBy(sys', id) by {
      if AbortedBy(sys, id) {
        var t :| t in sys.calls && Aborting(sys.calls[t]) && sys.calls[t].req.id == id;
        assert t in sys'.calls && Aborting(sys'.calls[t]);
      }
    }
  }

  lemma PlainKeepsParts(cfg: Config, sys: System, tid: nat, r: Reply)
    requires SystemInv(cfg, sys) && NoStrays(sys) && tid in sys.calls
    requires !WritesRow(sys.calls[tid].pc) && sys.calls[tid].pc != SavePart && sys.calls[tid].pc != DeleteParts
    ensures NoStrays(Next(cfg, sys, Advance(tid, r)))
  {
    var c := sys.calls[tid];
    var st := Step(sys.store, c, r);
    assert Legal(c) by { assert CallInv(cfg, sys.store, c); }
    PlainStep(sys.store, c, r);
    forall id | id in st.store.parts ensures Kept(Next(cfg, sys, Advance(tid, r)), id) {
      KeptStays(sys, tid, st.store, st.call, id);
    }
  }

  lemma DeleteStep(s: Store, c: Call, r: Reply)
    requires Legal(c) && c.pc == DeleteParts && r.ok
    ensures var st := Step(s, c, r);
            st.store.rows == s.rows && st.store.parts == s.parts - {c.req.id} && st.call.req == c.req
  {
  }

  lemma DeleteKeepsParts(cfg: Config, sys: System, tid: nat, r: Reply)
    requires SystemInv(cfg, sys) && NoStrays(sys) && tid in sys.calls && sys.calls[tid].pc == DeleteParts && r.ok
    ensures NoStrays(Next(cfg, sys, Advance(tid, r)))
  {
    var c := sys.calls[tid];
    var st := Step(sys.store, c, r);
    assert Legal(c) by { assert CallInv(cfg, sys.store, c); }
    DeleteStep(sys.store, c, r);
    forall id | id in st.store.parts ensures Kept(Next(cfg, sys, Advance(tid, r)), id) {
      KeptStays(sys, tid, st.store, st.call, id);
    }
  }

  lemma SaveStep(s: Store, c: Call, r: Reply)
    requires Legal(c) && c.pc == SavePart
    ensures var st := Step(s, c, r);
            && st.store.rows == s.rows && st.call.req == c.req
            && !Cleaner(c) && !Aborting(c) && !Cleaner(st.call) && !Aborting(st.call)
            && (forall id :: id in st.store.parts <==> id in s.parts || (r.ok && id == c.req.id && id in s.rows))
  {
  }

  /** Saving a report leaves no stray exactly when its part is kept at that moment: the row is still
      a pending multipart upload that no abort is about to delete, or a call will still delete it. */
  lemma SaveLeavesStrayIff(cfg: Config, sys: System, tid: nat, r: Reply)
    requires SystemInv(cfg, sys) && NoStrays(sys) && tid in sys.calls && sys.calls[tid].pc == SavePart
    ensures NoStrays(Next(cfg, sys, Advance(tid, r))) <==> Tidy(sys, Advance(tid, r))
  {
    var c, sys' := sys.calls[tid], Next(cfg, sys, Advance(tid, r));
    var st := Step(sys.store, c, r);
    assert Legal(c) by { assert CallInv(cfg, sys.store, c); }
    SaveStep(sys.store, c, r);
    forall id ensures Kept(sys', id) <==> Kept(sys, id) {
      BystanderKeeps(sys, tid, st.store, st.call, id);
    }
  }

  // ---------- row writes ----------

  lemma WriteStep(s: Store, c: Call, r: Reply)
    requires Legal(c) && WritesRow(c.pc)
    ensures var m := Decide(s, c, r);
            && m.call.req == c.req && !Cleaner(c) && !Aborting(m.call) && Apply(s, m.effect).parts == s.parts
            && (m.effect.PutRow? || m.effect == NoEffect)
            && (m.effect.PutRow? && c.req.CompleteMultipart? ==> Cleaner(m.call))
            && (c.req.ConfirmUpload? ==> !Cleaner(m.call) && !Aborting(c) && c.pc == ConfirmRow)
            && (m.effect.PutRow? && c.pc == ConfirmRow ==> r.ok && c.req.id in s.rows && s.rows[c.req.id].status == Pending)
  {
  }

  /** A soft delete goes on to clean up after a pending multipart row: the copy it holds, cached
      or read, is the row. */
  lemma DeleteGoesOnCleaning(cfg: Config, s: Store, c: Call, r: Reply)
    requires CallInv(cfg, s, c) && c.pc == SoftDelete && c.req.DeleteFile? && Decide(s, c, r).effect.PutRow?
    requires c.req.id in s.rows && PendingMultipart(s.rows[c.req.id])
    ensures Cleaner(Decide(s, c, r).call)
  {
  }

  /** The row that was written: its parts go with the call, or were in another call's hands. */
  lemma OwnRowKept(cfg: Config, sys: System, tid: nat, r: Reply)
    requires SystemInv(cfg, sys) && tid in sys.calls && WritesRow(sys.calls[tid].pc)
    requires Decide(sys.store, sys.calls[tid], r).effect.PutRow? && Tidy(sys, Advance(tid, r))
    requires sys.calls[tid].req.id in sys.store.parts && Kept(sys, sys.calls[tid].req.id)
    ensures CleanedBy(Next(cfg, sys, Advance(tid, r)), sys.calls[tid].req.id)
  {
    var s, c, sys' := sys.store, sys.calls[tid], Next(cfg, sys, Advance(tid, r));
    var m, id := Decide(s, c, r), c.req.id;
    assert CallInv(cfg, s, c);
    WriteStep(s, c, r);
    WrittenRow(cfg, s, c, r);
    if CleanedBy(sys, id) {
      CleanedStays(sys, tid, Apply(s, m.effect), m.call, id);
    } else {
      assert !Aborting(c);
      if c.pc == SoftDelete { DeleteGoesOnCleaning(cfg, s, c, r); }
      assert sys'.calls[tid] == m.call && Cleaner(m.call);
    }
  }

  lemma WriteKeepsParts(cfg: Config, sys: System, tid: nat, r: Reply)
    requires SystemInv(cfg, sys) && NoStrays(sys) && tid in sys.calls && WritesRow(sys.calls[tid].pc)
    requires Tidy(sys, Advance(tid, r))
    ensures NoStrays(Next(cfg, sys, Advance(tid, r)))
  {
    var s, c := sys.store, sys.calls[tid];
    var m := Decide(s, c, r);
    assert CallInv(cfg, s, c);
    WriteStep(s, c, r);
    forall id | id in s.parts ensures Kept(Next(cfg, sys, Advance(tid, r)), id) {
      assert Kept(sys, id);
      if m.effect.PutRow? && id == c.req.id {
        OwnRowKept(cfg, sys, tid, r);
      } else {
        if m.effect.PutRow? { WrittenRow(cfg, s, c, r); }
        KeptStays(sys, tid, Apply(s, m.effect), m.call, id);
      }
    }
  }

  lemma ConfirmTakesRow(s: Store, c: Call, r: Reply)
    requires c.req.ConfirmUpload? && c.pc == ConfirmRow && r.ok && c.req.id in s.rows && s.rows[c.req.id].id == c.req.id
    requires s.rows[c.req.id].status == Pending
    ensures var s' := Step(s, c, r).store; c.req.id in s'.rows && s'.rows[c.req.id].status == Ready
  {
  }

  /** A confirmation that is not tidy leaves its part rows stray. */
  lemma UntidyConfirm(cfg: Config, sys: System, tid: nat, r: Reply)
    requires SystemInv(cfg, sys) && tid in sys.calls && sys.calls[tid].pc == ConfirmRow && !Tidy(sys, Advance(tid, r))
    ensures !NoStrays(Next(cfg, sys, Advance(tid, r)))
  {
    var s, c, sys' := sys.store, sys.calls[tid], Next(cfg, sys, Advance(tid, r));
    var m, id := Decide(s, c, r), c.req.id;
    assert CallInv(cfg, s, c) && s.rows[id].id == id;
    WriteStep(s, c, r);
    ConfirmTakesRow(s, c, r);
    BystanderKeeps(sys, tid, Apply(s, m.effect), m.call, id);
    assert id in sys'.store.parts && !Kept(sys', id);
  }

  // ---------- runs ----------

  /** From a state without strays, a statement leaves none exactly when it is tidy. */
  lemma StepKeepsPartsIff(cfg: Config, sys: System, tid: nat, r: Reply)
    requires SystemInv(cfg, sys) && NoStrays(sys) && tid in sys.calls && DeletesParts(sys, Advance(tid, r))
    ensures NoStrays(Next(cfg, sys, Advance(tid, r))) <==> Tidy(sys, Advance(tid, r))
  {
    var pc := sys.calls[tid].pc;
    if pc == SavePart {
      SaveLeavesStrayIff(cfg, sys, tid, r);
    } else if pc == DeleteParts {
      DeleteKeepsParts(cfg, sys, tid, r);
    } else if WritesRow(pc) {
      if Tidy(sys, Advance(tid, r)) { WriteKeepsParts(cfg, sys, tid, r); } else { UntidyConfirm(cfg, sys, tid, r); }
    } else {
      PlainKeepsParts(cfg, sys, tid, r);
    }
  }

  lemma ArrivalKeeps(cfg: Config, sys: System, tid: nat, req: Request, now: int64, id: string)
    requires tid !in sys.calls && Kept(sys, id)
    ensures Kept(Next(cfg, sys, Invoke(tid, req, now)), id)
  {
    var sys', c := Next(cfg, sys, Invoke(tid, req, now)), Begin(cfg, req, now);
    if IsCreate(req) { BeginCreateShape(cfg, req, now); } else { BeginShape(cfg, req, now); }
    assert !Aborting(c);
    if CleanedBy(sys, id) {
      var t :| t in sys.calls && Cleaner(sys.calls[t]) && sys.calls[t].req.id == id;
      assert Cleaner(sys'.calls[t]);
    } else {
      assert forall t | t in sys'.calls && t != tid :: t in sys.calls && sys'.calls[t] == sys.calls[t];
    }
  }

  lemma OtherKeepsParts(cfg: Config, sys: System, a: Action)
    requires NoStrays(sys) && !(a.Advance? && a.tid in sys.calls)
    ensures NoStrays(Next(cfg, sys, a))
  {
    var sys' := Next(cfg, sys, a);
    forall id | id in sys'.store.parts ensures Kept(sys', id) {
      assert Kept(sys, id);
      if a.Invoke? && a.tid !in sys.calls {
        ArrivalKeeps(cfg, sys, a.tid, a.req, a.now, id);
      } else {
        assert sys'.calls == sys.calls && sys'.store.rows == sys.store.rows;
        assert CleanedBy(sys', id) <==> CleanedBy(sys, id);
        assert AbortedBy(sys', id) <==> AbortedBy(sys, id);
      }
    }
  }

  ghost predicate TidyRun(cfg: Config, actions: seq<Action>) {
    forall n | 0 <= n < |actions| ::
      var sys := Run(cfg, INIT, actions[..n]);
      Tidy(sys, actions[n]) && DeletesParts(sys, actions[n])
  }

  lemma TidyPrefix(cfg: Config, actions: seq<Action>)
    requires TidyRun(cfg, actions) && actions != []
    ensures TidyRun(cfg, actions[..|actions| - 1])
    ensures var sys := Run(cfg, INIT, actions[..|actions| - 1]);
            Tidy(sys, actions[|actions| - 1]) && DeletesParts(sys, actions[|actions| - 1])
  {
    var front := actions[..|actions| - 1];
    assert forall n | 0 <= n < |front| :: front[..n] == actions[..n] && front[n] == actions[n];
  }

  lemma {:induction false} RunKeepsParts(cfg: Config, actions: seq<Action>)
    requires TidyRun(cfg, actions)
    ensures NoStrays(Run(cfg, INIT, actions))
    decreases |actions|
  {
    if actions != [] {
      var front, a := actions[..|actions| - 1], actions[|actions| - 1];
      TidyPrefix(cfg, actions);
      RunKeepsParts(cfg, front);
      RunKeepsInv(cfg, INIT, front);
      var sys := Run(cfg, INIT, front);
      if a.Advance? && a.tid in sys.calls {
        StepKeepsPartsIff(cfg, sys, a.tid, a.reply);
      } else {
        OtherKeepsParts(cfg, sys, a);
      }
    }
  }

  /** In every tidy run, whatever the interleaving and whatever else failed, once all calls have
      returned only pending multipart rows have part rows. */
  lemma PartsArePendingRows(cfg: Config, actions: seq<Action>, id: string)
    requires TidyRun(cfg, actions) && ExactlyOnce.Quiet(Run(cfg, INIT, actions))
    requires id in Run(cfg, INIT, actions).store.parts
    ensures var s := Run(cfg, INIT, actions).store; id in s.rows && PendingMultipart(s.rows[id])
  {
    RunKeepsParts(cfg, actions);
    assert Kept(Run(cfg, INIT, actions), id);
  }
}
