/** The cache against the repository under interleaving: every cached entry, and every copy a
    call holds, is a value its row had at some moment of the run. */
module Versions {
  import opened Domain
  import opened Protocol
  import opened Lifecycle

  ghost predicate RowAt(cfg: Config, actions: seq<Action>, id: string, f: FileMetadata) {
    var rows := Run(cfg, INIT, actions).store.rows;
    id in rows && rows[id] == f
  }

  /** The row had exactly this value after some prefix of the run. */
  ghost predicate Once(cfg: Config, actions: seq<Action>, id: string, f: FileMetadata) {
    exists k :: 0 <= k <= |actions| && RowAt(cfg, actions[..k], id, f)
  }

  lemma OnceNow(cfg: Config, actions: seq<Action>, id: string)
    requires id in Run(cfg, INIT, actions).store.rows
    ensures Once(cfg, actions, id, Run(cfg, INIT, actions).store.rows[id])
  {
    assert actions[..|actions|] == actions;
  }

  lemma OnceLater(cfg: Config, actions: seq<Action>, id: string, f: FileMetadata)
    requires actions != [] && Once(cfg, actions[..|actions| - 1], id, f)
    ensures Once(cfg, actions, id, f)
  {
    var front := actions[..|actions| - 1];
    var k :| 0 <= k <= |front| && RowAt(cfg, front[..k], id, f);
    assert front[..k] == actions[..k];
  }

  ghost predicate OnceInv(cfg: Config, actions: seq<Action>) {
    var sys := Run(cfg, INIT, actions);
    && (forall id | id in sys.store.cache :: Once(cfg, actions, id, sys.store.cache[id]))
    && (forall t | t in sys.calls && HoldsCopy(sys.calls[t]) ::
          Once(cfg, actions, sys.calls[t].req.id, sys.calls[t].file))
  }

  lemma WriteCopies(s: Store, c: Call, r: Reply)
    requires Legal(c) && WritesRow(c.pc) && HoldsCopy(Decide(s, c, r).call)
    ensures var m := Decide(s, c, r);
            && m.effect.PutRow? && m.call.req == c.req
            && if c.pc == SoftDelete then m.call.file == c.file && HoldsCopy(c) else m.call.file == m.effect.row
  {
  }

  lemma WriteSource(cfg: Config, s: Store, c: Call, r: Reply)
    requires RowsOk(cfg, s) && CallInv(cfg, s, c) && WritesRow(c.pc) && HoldsCopy(Decide(s, c, r).call)
    ensures var id, f, s' := c.req.id, Decide(s, c, r).call.file, Step(s, c, r).store;
            (HoldsCopy(c) && f == c.file) || (id in s'.rows && f == s'.rows[id])
    ensures Decide(s, c, r).call.req == c.req
  {
    var m := Decide(s, c, r);
    if m.effect.PutRow? { WrittenRow(cfg, s, c, r); }
    WriteCopies(s, c, r);
  }

  lemma CopyIsKept(s: Store, c: Call, r: Reply)
    requires Legal(c) && c.pc != ReadRow && c.pc != ReadCache && !WritesRow(c.pc) && HoldsCopy(Decide(s, c, r).call)
    ensures HoldsCopy(c) && Decide(s, c, r).call.file == c.file && Decide(s, c, r).call.req == c.req
  {
  }

  /** Where a call's copy comes from: it had it, or read it from the cache or the row, or the
      statement just wrote it. */
  lemma CopySource(cfg: Config, s: Store, c: Call, r: Reply)
    requires StoreInv(cfg, s) && CallInv(cfg, s, c) && HoldsCopy(Decide(s, c, r).call)
    ensures var id, f, s' := c.req.id, Decide(s, c, r).call.file, Step(s, c, r).store;
            || (HoldsCopy(c) && f == c.file)
            || (id in s.cache && f == s.cache[id])
            || (id in s.rows && f == s.rows[id])
            || (id in s'.rows && f == s'.rows[id])
    ensures Decide(s, c, r).call.req == c.req
  {
    if c.pc == ReadRow || c.pc == ReadCache {
      ReadSource(cfg, s, c, r);
    } else if WritesRow(c.pc) {
      WriteSource(cfg, s, c, r);
    } else {
      CopyIsKept(s, c, r);
    }
  }

  lemma StepKeepsOnce(cfg: Config, actions: seq<Action>, tid: nat, r: Reply)
    requires OnceInv(cfg, actions) && tid in Run(cfg, INIT, actions).calls
    ensures OnceInv(cfg, actions + [Advance(tid, r)])
  {
    var all := actions + [Advance(tid, r)];
    assert all[..|all| - 1] == actions;
    var sys, sys' := Run(cfg, INIT, actions), Run(cfg, INIT, all);
    var s, c := sys.store, sys.calls[tid];
    RunKeepsInv(cfg, INIT, actions);
    forall id | id in sys'.store.cache ensures Once(cfg, all, id, sys'.store.cache[id]) {
      CacheSource(cfg, s, c, r, id);
      OnceLater(cfg, all, id, sys'.store.cache[id]);
    }
    forall t | t in sys'.calls && HoldsCopy(sys'.calls[t])
      ensures Once(cfg, all, sys'.calls[t].req.id, sys'.calls[t].file)
    {
      var id, f := sys'.calls[t].req.id, sys'.calls[t].file;
      if t == tid {
        CopySource(cfg, s, c, r);
        if id in sys'.store.rows && f == sys'.store.rows[id] {
          OnceNow(cfg, all, id);
        } else {
          if id in s.rows && f == s.rows[id] { OnceNow(cfg, actions, id); }
          OnceLater(cfg, all, id, f);
        }
      } else {
        OnceLater(cfg, all, id, f);
      }
    }
  }

  lemma ArrivedHoldsNoCopy(c: Call)
    requires Arrived(c)
    ensures !HoldsCopy(c)
  {
  }

  lemma BeginHoldsNoCopy(cfg: Config, req: Request, now: int64)
    ensures !HoldsCopy(Begin(cfg, req, now))
  {
    BeginArrives(cfg, req, now);
    ArrivedHoldsNoCopy(Begin(cfg, req, now));
  }

  /** An arrival, an expiry and a client's upload bring no new copy of a row. */
  lemma OtherAddsNoCopy(cfg: Config, sys: System, a: Action)
    requires !(a.Advance? && a.tid in sys.calls)
    ensures var sys' := Next(cfg, sys, a);
            && (forall id | id in sys'.store.cache :: id in sys.store.cache && sys'.store.cache[id] == sys.store.cache[id])
            && (forall t | t in sys'.calls && HoldsCopy(sys'.calls[t]) ::
                  t in sys.calls && sys'.calls[t] == sys.calls[t])
  {
    if a.Invoke? { BeginHoldsNoCopy(cfg, a.req, a.now); }
  }

  lemma OtherKeepsOnce(cfg: Config, actions: seq<Action>, a: Action)
    requires OnceInv(cfg, actions) && !(a.Advance? && a.tid in Run(cfg, INIT, actions).calls)
    ensures OnceInv(cfg, actions + [a])
  {
    var all := actions + [a];
    assert all[..|all| - 1] == actions;
    var sys, sys' := Run(cfg, INIT, actions), Run(cfg, INIT, all);
    OtherAddsNoCopy(cfg, sys, a);
    forall id | id in sys'.store.cache ensures Once(cfg, all, id, sys'.store.cache[id]) {
      OnceLater(cfg, all, id, sys'.store.cache[id]);
    }
    forall t | t in sys'.calls && HoldsCopy(sys'.calls[t])
      ensures Once(cfg, all, sys'.calls[t].req.id, sys'.calls[t].file)
    {
      OnceLater(cfg, all, sys'.calls[t].req.id, sys'.calls[t].file);
    }
  }

  lemma {:induction false} RunKeepsOnce(cfg: Config, actions: seq<Action>)
    ensures OnceInv(cfg, actions)
    decreases |actions|
  {
    if actions != [] {
      var front, a := actions[..|actions| - 1], actions[|actions| - 1];
      assert actions == front + [a];
      RunKeepsOnce(cfg, front);
      if a.Advance? && a.tid in Run(cfg, INIT, front).calls {
        StepKeepsOnce(cfg, front, a.tid, a.reply);
      } else {
        OtherKeepsOnce(cfg, front, a);
      }
    }
  }

  /** Under every interleaving, with failed or ignored cache statements and evictions at any
      moment, a cached entry is a value its row once had: same identity, a status no later than
      the row's, and an ownership decision that matches the repository's. */
  lemma CacheHoldsEarlierVersions(cfg: Config, actions: seq<Action>, id: string)
    requires id in Run(cfg, INIT, actions).store.cache
    ensures Once(cfg, actions, id, Run(cfg, INIT, actions).store.cache[id])
    ensures var s := Run(cfg, INIT, actions).store;
            && id in s.rows && SameFile(s.cache[id], s.rows[id])
            && Rank(s.cache[id].status) <= Rank(s.rows[id].status)
            && (s.cache[id].status == s.rows[id].status ==> s.cache[id] == s.rows[id])
            && forall o :: s.cache[id].IsOwnedBy(o) <==> s.rows[id].IsOwnedBy(o)
  {
    RunKeepsOnce(cfg, actions);
    RunKeepsInv(cfg, INIT, actions);
    var s := Run(cfg, INIT, actions).store;
    assert Version(cfg, s, id, s.cache[id]);
  }

  /** A download URL is issued only to the owner, for the key of a file that has been ready. */
  lemma DownloadNeedsReady(cfg: Config, actions: seq<Action>, t: nat)
    requires t in Run(cfg, INIT, actions).calls
    requires Run(cfg, INIT, actions).calls[t].pc == Returned && Run(cfg, INIT, actions).calls[t].req.GetDownloadUrl?
    requires Run(cfg, INIT, actions).calls[t].outcome.OkUrl?
    ensures var c := Run(cfg, INIT, actions).calls[t];
            && Once(cfg, actions, c.req.id, c.file)
            && c.file.status == Ready && c.file.owner == c.req.owner && c.outcome.key == c.file.objectKey
  {
    RunKeepsOnce(cfg, actions);
    RunKeepsInv(cfg, INIT, actions);
    var sys := Run(cfg, INIT, actions);
    assert CallInv(cfg, sys.store, sys.calls[t]);
  }

  /** GetFile answers with a value the row once had, and only to its owner. */
  lemma GetFileReturnsOwnVersions(cfg: Config, actions: seq<Action>, t: nat)
    requires t in Run(cfg, INIT, actions).calls
    requires Run(cfg, INIT, actions).calls[t].pc == Returned && Run(cfg, INIT, actions).calls[t].req.GetFile?
    requires !Run(cfg, INIT, actions).calls[t].outcome.Failed?
    ensures var c := Run(cfg, INIT, actions).calls[t];
            && c.outcome.OkFile? && Once(cfg, actions, c.req.id, c.outcome.file)
            && c.outcome.file.owner == c.req.owner && c.outcome.file.status != Deleted
  {
    RunKeepsOnce(cfg, actions);
    RunKeepsInv(cfg, INIT, actions);
    var sys := Run(cfg, INIT, actions);
    assert CallInv(cfg, sys.store, sys.calls[t]);
  }

  lemma FillAgreesIff(cfg: Config, s: Store, c: Call, r: Reply)
    requires CallInv(cfg, s, c) && c.pc == FillCache && r.ok
    ensures var s' := Step(s, c, r).store;
            && c.req.id in s'.cache && c.req.id in s'.rows && s'.rows == s.rows && s'.cache[c.req.id].status != Deleted
            && (s'.cache[c.req.id] == s'.rows[c.req.id] <==> s.rows[c.req.id].status == c.file.status)
  {
    assert CopyOk(cfg, s, c);
  }

  /** Why agreement is out of reach under interleaving: a call that caches its copy leaves the
      entry equal to the row exactly when the row still has the status it had in the copy. A fill
      that comes after another call's delete leaves a live entry for a deleted file. */
  lemma LateFillAgreesIff(cfg: Config, actions: seq<Action>, t: nat, r: Reply)
    requires t in Run(cfg, INIT, actions).calls && Run(cfg, INIT, actions).calls[t].pc == FillCache && r.ok
    ensures var sys, c := Run(cfg, INIT, actions), Run(cfg, INIT, actions).calls[t];
            var s' := Next(cfg, sys, Advance(t, r)).store;
            && c.req.id in s'.cache && c.req.id in s'.rows && s'.cache[c.req.id].status != Deleted
            && (s'.cache[c.req.id] == s'.rows[c.req.id] <==> sys.store.rows[c.req.id].status == c.file.status)
  {
    RunKeepsInv(cfg, INIT, actions);
    var sys := Run(cfg, INIT, actions);
    FillAgreesIff(cfg, sys.store, sys.calls[t], r);
  }
}
