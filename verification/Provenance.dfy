/** Where the contents of a row come from, under every interleaving: its identity from a creation
    that arrived, its checksum from the confirmation that took it. */
module Provenance {
  import opened Domain
  import opened Protocol
  import opened Lifecycle
  import opened ExactlyOnce
  import opened OwnerFrame
  import opened Records
  import Uuids

  // ---------- identity ----------

  /** Action n is the arrival of a call. */
  ghost predicate Arrival(cfg: Config, actions: seq<Action>, n: nat) {
    n < |actions| && actions[n].Invoke? && actions[n].tid !in Run(cfg, INIT, actions[..n]).calls
  }

  /** Action n is the arrival of the creation that describes f. */
  ghost predicate Describes(cfg: Config, actions: seq<Action>, n: nat, f: FileMetadata) {
    Arrival(cfg, actions, n) && IsCreate(actions[n].req) && HasIdentity(cfg, actions[n].req, actions[n].now, f)
  }

  ghost predicate Created(cfg: Config, actions: seq<Action>, f: FileMetadata) {
    exists n: nat :: Describes(cfg, actions, n, f)
  }

  lemma ArrivalStays(cfg: Config, front: seq<Action>, a: Action, n: nat)
    requires n < |front|
    ensures Arrival(cfg, front + [a], n) <==> Arrival(cfg, front, n)
  {
    assert (front + [a])[..n] == front[..n];
  }

  lemma CreatedStays(cfg: Config, front: seq<Action>, a: Action, f: FileMetadata)
    requires Created(cfg, front, f)
    ensures Created(cfg, front + [a], f)
  {
    var n: nat :| Describes(cfg, front, n, f);
    ArrivalStays(cfg, front, a, n);
    assert Describes(cfg, front + [a], n, f);
  }

  lemma EverywhereCreatedStays(cfg: Config, front: seq<Action>, a: Action, sys: System)
    requires Everywhere(sys, f => Created(cfg, front, f))
    ensures Everywhere(sys, f => Created(cfg, front + [a], f))
  {
    forall id | id in sys.store.rows ensures Created(cfg, front + [a], sys.store.rows[id]) {
      CreatedStays(cfg, front, a, sys.store.rows[id]);
    }
    forall t | t in sys.calls && Building(sys.calls[t]) ensures Created(cfg, front + [a], sys.calls[t].file) {
      CreatedStays(cfg, front, a, sys.calls[t].file);
    }
  }

  lemma BeginDescribed(cfg: Config, req: Request, now: int64)
    requires Building(Begin(cfg, req, now))
    ensures IsCreate(req) && HasIdentity(cfg, req, now, Begin(cfg, req, now).file)
  {
    if IsCreate(req) { NewFileIsNew(cfg, req, now, ""); } else { BeginShape(cfg, req, now); }
  }

  lemma ArrivedIsCreated(cfg: Config, front: seq<Action>, tid: nat, req: Request, now: int64)
    requires tid !in Run(cfg, INIT, front).calls && Building(Begin(cfg, req, now))
    ensures Created(cfg, front + [Invoke(tid, req, now)], Begin(cfg, req, now).file)
  {
    BeginDescribed(cfg, req, now);
    var actions, n := front + [Invoke(tid, req, now)], |front|;
    assert actions[..n] == front;
    assert Describes(cfg, actions, n, Begin(cfg, req, now).file);
  }

  lemma SameFileIsCreated(cfg: Config, actions: seq<Action>, a: FileMetadata, b: FileMetadata)
    requires SameFile(a, b)
    ensures Created(cfg, actions, a) <==> Created(cfg, actions, b)
  {
    forall n: nat ensures Describes(cfg, actions, n, a) <==> Describes(cfg, actions, n, b) {
    }
  }

  lemma InvokeKeepsProperty(cfg: Config, front: seq<Action>, tid: nat, req: Request, now: int64, p: FileMetadata -> bool)
    requires forall f :: p(f) <==> Created(cfg, front + [Invoke(tid, req, now)], f)
    requires Everywhere(Run(cfg, INIT, front), p) && tid !in Run(cfg, INIT, front).calls
    ensures Everywhere(Next(cfg, Run(cfg, INIT, front), Invoke(tid, req, now)), p)
  {
    if Building(Begin(cfg, req, now)) { ArrivedIsCreated(cfg, front, tid, req, now); }
    EverywhereWith(Run(cfg, INIT, front), tid, Begin(cfg, req, now), p);
  }

  lemma EnvironmentKeepsProperty(cfg: Config, sys: System, a: Action, p: FileMetadata -> bool)
    requires Everywhere(sys, p) && (a.Evict? || a.ClientPut?)
    ensures Everywhere(Next(cfg, sys, a), p)
  {
    assert Next(cfg, sys, a).store.rows == sys.store.rows && Next(cfg, sys, a).calls == sys.calls;
  }

  /** One action, for the property of having been created in the run it ends. */
  lemma NextKeepsProperty(cfg: Config, front: seq<Action>, a: Action, p: FileMetadata -> bool)
    requires (forall f :: p(f) <==> Created(cfg, front + [a], f)) && Everywhere(Run(cfg, INIT, front), p)
    requires SystemInv(cfg, Run(cfg, INIT, front)) && OfIdentity(p)
    ensures Everywhere(Next(cfg, Run(cfg, INIT, front), a), p)
  {
    var sys := Run(cfg, INIT, front);
    if a.Invoke? {
      if a.tid !in sys.calls { InvokeKeepsProperty(cfg, front, a.tid, a.req, a.now, p); }
    } else if a.Advance? {
      if a.tid in sys.calls { StepKeepsEverywhere(cfg, sys, a.tid, a.reply, p); }
    } else {
      EnvironmentKeepsProperty(cfg, sys, a, p);
    }
  }

  lemma NextKeepsCreated(cfg: Config, front: seq<Action>, a: Action)
    requires Everywhere(Run(cfg, INIT, front), f => Created(cfg, front, f))
    ensures Everywhere(Next(cfg, Run(cfg, INIT, front), a), f => Created(cfg, front + [a], f))
  {
    var p := (f: FileMetadata) => Created(cfg, front + [a], f);
    RunKeepsInv(cfg, INIT, front);
    EverywhereCreatedStays(cfg, front, a, Run(cfg, INIT, front));
    forall x, y | SameFile(x, y) ensures p(x) == p(y) {
      SameFileIsCreated(cfg, front + [a], x, y);
    }
    NextKeepsProperty(cfg, front, a, p);
  }

  lemma {:induction false} RunKeepsCreated(cfg: Config, actions: seq<Action>)
    ensures Everywhere(Run(cfg, INIT, actions), f => Created(cfg, actions, f))
    decreases |actions|
  {
    if actions != [] {
      var front, a := actions[..|actions| - 1], actions[|actions| - 1];
      assert front + [a] == actions;
      RunKeepsCreated(cfg, front);
      NextKeepsCreated(cfg, front, a);
    }
  }

  /** Under every interleaving the identity of a row, its owner, bucket, key, name, content type,
      size and creation time, is that of a creation that arrived for its id. */
  lemma RowsComeFromCreations(cfg: Config, actions: seq<Action>, id: string)
    requires id in Run(cfg, INIT, actions).store.rows
    ensures exists n: nat ::
              && Describes(cfg, actions, n, Run(cfg, INIT, actions).store.rows[id])
              && actions[n].req.id == id
  {
    var f := Run(cfg, INIT, actions).store.rows[id];
    RunKeepsCreated(cfg, actions);
    RunKeepsInv(cfg, INIT, actions);
    assert Created(cfg, actions, f) && f.id == id;
    var n: nat :| Describes(cfg, actions, n, f);
  }

  // ---------- checksum ----------

  /** Action n is the row update of a confirmation or a completion, and takes the pending row. */
  ghost predicate Takes(cfg: Config, actions: seq<Action>, n: nat, id: string) {
    && n < |actions| && actions[n].Advance? && actions[n].reply.ok
    && var sys := Run(cfg, INIT, actions[..n]);
    && actions[n].tid in sys.calls && sys.calls[actions[n].tid].pc == ConfirmRow
    && IsConfirm(sys.calls[actions[n].tid].req) && sys.calls[actions[n].tid].req.id == id
    && id in sys.store.rows && sys.store.rows[id].status == Pending
  }

  /** The row carries the checksum of the call that took it, and while it is ready its time. */
  ghost predicate Carries(cfg: Config, actions: seq<Action>, n: nat, id: string, f: FileMetadata) {
    && Takes(cfg, actions, n, id)
    && f.checksum == Run(cfg, INIT, actions[..n]).calls[actions[n].tid].req.checksum
    && (f.status == Ready ==> f.updatedAt == actions[n].reply.now)
  }

  ghost predicate Explained(cfg: Config, actions: seq<Action>, id: string) {
    id in Run(cfg, INIT, actions).store.rows ==>
      var f := Run(cfg, INIT, actions).store.rows[id];
      if WasReady(cfg, actions, id) then exists n: nat :: Carries(cfg, actions, n, id, f) else f.checksum == ""
  }

  lemma CarriesStays(cfg: Config, front: seq<Action>, a: Action, n: nat, id: string, f: FileMetadata)
    requires Carries(cfg, front, n, id, f)
    ensures Carries(cfg, front + [a], n, id, f)
  {
    assert (front + [a])[..n] == front[..n];
  }

  lemma ExistsCarries(cfg: Config, front: seq<Action>, a: Action, id: string, f: FileMetadata, f': FileMetadata)
    requires (exists n: nat :: Carries(cfg, front, n, id, f)) && f'.checksum == f.checksum
    requires f'.status == Ready ==> f' == f
    ensures exists n: nat :: Carries(cfg, front + [a], n, id, f')
  {
    var n: nat :| Carries(cfg, front, n, id, f);
    CarriesStays(cfg, front, a, n, id, f);
    assert Carries(cfg, front + [a], n, id, f');
  }

  lemma WasReadyHasRow(cfg: Config, actions: seq<Action>, id: string)
    requires WasReady(cfg, actions, id)
    ensures id in Run(cfg, INIT, actions).store.rows
  {
    var k :| 0 <= k <= |actions| && ReadyAt(cfg, actions[..k], id);
    assert actions[..k] + actions[k..] == actions;
    RowsOnlyMoveForward(cfg, actions[..k], actions[k..], id);
  }

  /** What each row write does to the checksum. */
  lemma WriteOfChecksum(cfg: Config, s: Store, c: Call, r: Reply)
    requires CallInv(cfg, s, c) && WritesRow(c.pc) && Decide(s, c, r).effect.PutRow?
    ensures var row := Decide(s, c, r).effect.row;
            && (c.pc == InsertRow ==> row.checksum == "" && row.status == Pending)
            && (c.pc == ConfirmRow ==>
                  && IsConfirm(c.req) && r.ok && c.req.id in s.rows && s.rows[c.req.id].status == Pending
                  && row.checksum == c.req.checksum && row.updatedAt == r.now)
            && (c.pc == SoftDelete ==>
                  c.req.id in s.rows && row.checksum == s.rows[c.req.id].checksum && row.status == Deleted)
  {
  }

  lemma WriteIsExplained(cfg: Config, front: seq<Action>, tid: nat, r: Reply)
    requires var sys := Run(cfg, INIT, front);
             && tid in sys.calls && Explained(cfg, front, sys.calls[tid].req.id)
             && Decide(sys.store, sys.calls[tid], r).effect.PutRow?
    ensures Explained(cfg, front + [Advance(tid, r)], Run(cfg, INIT, front).calls[tid].req.id)
  {
    var sys, actions, n := Run(cfg, INIT, front), front + [Advance(tid, r)], |front|;
    var s, c := sys.store, sys.calls[tid];
    var row, id := Decide(s, c, r).effect.row, c.req.id;
    RunKeepsInv(cfg, INIT, front);
    assert actions[..n] == front;
    WrittenRow(cfg, s, c, r);
    WriteOfChecksum(cfg, s, c, r);
    assert Run(cfg, INIT, actions).store.rows[id] == row;
    WasReadyAfter(cfg, actions, id);
    if c.pc == ConfirmRow {
      assert Carries(cfg, actions, n, id, row);
    } else if WasReady(cfg, front, id) {
      WasReadyHasRow(cfg, front, id);
      ExistsCarries(cfg, front, Advance(tid, r), id, s.rows[id], row);
    }
  }

  lemma UnchangedIsExplained(cfg: Config, front: seq<Action>, a: Action, id: string)
    requires Explained(cfg, front, id) && id in Run(cfg, INIT, front).store.rows
    requires id in Run(cfg, INIT, front + [a]).store.rows
    requires Run(cfg, INIT, front + [a]).store.rows[id] == Run(cfg, INIT, front).store.rows[id]
    ensures Explained(cfg, front + [a], id)
  {
    var actions, f := front + [a], Run(cfg, INIT, front).store.rows[id];
    assert actions[..|actions| - 1] == front;
    WasReadyAfter(cfg, actions, id);
    if ReadyAt(cfg, actions, id) {
      assert front[..|front|] == front && ReadyAt(cfg, front[..|front|], id);
    }
    if WasReady(cfg, front, id) { ExistsCarries(cfg, front, a, id, f, f); }
  }

  lemma WritingIsExplained(cfg: Config, front: seq<Action>, tid: nat, r: Reply, id: string)
    requires tid in Run(cfg, INIT, front).calls && Explained(cfg, front, id)
    requires Decide(Run(cfg, INIT, front).store, Run(cfg, INIT, front).calls[tid], r).effect.PutRow?
    requires id in Run(cfg, INIT, front + [Advance(tid, r)]).store.rows
    ensures Explained(cfg, front + [Advance(tid, r)], id)
  {
    var sys, actions := Run(cfg, INIT, front), front + [Advance(tid, r)];
    var c := sys.calls[tid];
    assert actions[..|front|] == front;
    RunKeepsInv(cfg, INIT, front);
    WrittenRow(cfg, sys.store, c, r);
    if id == c.req.id {
      WriteIsExplained(cfg, front, tid, r);
    } else {
      UnchangedIsExplained(cfg, front, Advance(tid, r), id);
    }
  }

  lemma NoWriteNoChange(cfg: Config, sys: System, a: Action)
    requires a.Advance? && a.tid in sys.calls ==> !Decide(sys.store, sys.calls[a.tid], a.reply).effect.PutRow?
    ensures Next(cfg, sys, a).store.rows == sys.store.rows
  {
  }

  lemma NextIsExplained(cfg: Config, front: seq<Action>, a: Action, id: string)
    requires Explained(cfg, front, id)
    ensures Explained(cfg, front + [a], id)
  {
    var sys, actions := Run(cfg, INIT, front), front + [a];
    assert actions[..|actions| - 1] == front;
    if id in Run(cfg, INIT, actions).store.rows {
      if a.Advance? && a.tid in sys.calls && Decide(sys.store, sys.calls[a.tid], a.reply).effect.PutRow? {
        WritingIsExplained(cfg, front, a.tid, a.reply, id);
      } else {
        NoWriteNoChange(cfg, sys, a);
        UnchangedIsExplained(cfg, front, a, id);
      }
    }
  }

  lemma {:induction false} RunIsExplained(cfg: Config, actions: seq<Action>, id: string)
    ensures Explained(cfg, actions, id)
    decreases |actions|
  {
    if actions != [] {
      var front, a := actions[..|actions| - 1], actions[|actions| - 1];
      assert front + [a] == actions;
      RunIsExplained(cfg, front, id);
      NextIsExplained(cfg, front, a, id);
    }
  }

  lemma TakenIsReady(s: Store, c: Call, r: Reply)
    requires c.pc == ConfirmRow && IsConfirm(c.req) && r.ok && c.req.id in s.rows
    requires s.rows[c.req.id].id == c.req.id && s.rows[c.req.id].status == Pending
    ensures c.req.id in Step(s, c, r).store.rows && Step(s, c, r).store.rows[c.req.id].status == Ready
  {
  }

  lemma TakenRow(cfg: Config, actions: seq<Action>, n: nat, id: string)
    requires Takes(cfg, actions, n, id)
    ensures id in Run(cfg, INIT, actions[..n + 1]).store.rows
    ensures Run(cfg, INIT, actions[..n + 1]).store.rows[id].status == Ready
  {
    var sys := Run(cfg, INIT, actions[..n]);
    assert actions[..n + 1][..n] == actions[..n];
    RunKeepsInv(cfg, INIT, actions[..n]);
    assert sys.store.rows[id].id == id;
    TakenIsReady(sys.store, sys.calls[actions[n].tid], actions[n].reply);
  }

  lemma NotTakenAgain(cfg: Config, actions: seq<Action>, m: nat, n: nat, id: string)
    requires m < n && Takes(cfg, actions, m, id)
    ensures !Takes(cfg, actions, n, id)
  {
    if n < |actions| {
      TakenRow(cfg, actions, m, id);
      assert actions[..m + 1] + actions[m + 1..n] == actions[..n];
      RowsOnlyMoveForward(cfg, actions[..m + 1], actions[m + 1..n], id);
    }
  }

  /** A row is taken once. */
  lemma TakenOnce(cfg: Config, actions: seq<Action>, m: nat, n: nat, id: string)
    requires Takes(cfg, actions, m, id) && Takes(cfg, actions, n, id)
    ensures m == n
  {
    if m < n { NotTakenAgain(cfg, actions, m, n, id); }
    if n < m { NotTakenAgain(cfg, actions, n, m, id); }
  }

  // ---------- requests ----------

  /** The call's request arrived earlier, with the id as its caller spelled it. */
  ghost predicate Asked(cfg: Config, actions: seq<Action>, m: nat, tid: nat, req: Request) {
    Arrival(cfg, actions, m) && actions[m].tid == tid && Resolved(actions[m].req) == req
  }

  lemma {:induction false} CallsWereAsked(cfg: Config, actions: seq<Action>, tid: nat)
    requires tid in Run(cfg, INIT, actions).calls
    ensures exists m: nat :: Asked(cfg, actions, m, tid, Run(cfg, INIT, actions).calls[tid].req)
    decreases |actions|
  {
    if actions != [] {
      var front, a := actions[..|actions| - 1], actions[|actions| - 1];
      var sys := Run(cfg, INIT, front);
      assert front + [a] == actions && actions[..|front|] == front;
      if tid in sys.calls {
        CallsWereAsked(cfg, front, tid);
        var m: nat :| Asked(cfg, front, m, tid, sys.calls[tid].req);
        ArrivalStays(cfg, front, a, m);
        if a.Advance? && a.tid == tid { RequestIsKept(sys.store, sys.calls[tid], a.reply); }
        assert Asked(cfg, actions, m, tid, Run(cfg, INIT, actions).calls[tid].req);
      } else {
        BeginArrives(cfg, a.req, a.now);
        assert Asked(cfg, actions, |front|, tid, Run(cfg, INIT, actions).calls[tid].req);
      }
    }
  }

  /** The confirmation or completion that arrived as action m takes the row by action n. */
  ghost predicate Confirms(cfg: Config, actions: seq<Action>, m: nat, n: nat, id: string) {
    && m < n && Takes(cfg, actions, n, id) && Arrival(cfg, actions, m) && actions[m].tid == actions[n].tid
    && IsConfirm(actions[m].req) && Uuids.Canon(actions[m].req.id) == id
  }

  lemma AskedBefore(cfg: Config, actions: seq<Action>, n: nat, m: nat, tid: nat, req: Request)
    requires n <= |actions| && Asked(cfg, actions[..n], m, tid, req)
    ensures m < n && Asked(cfg, actions, m, tid, req)
  {
    assert actions[..n][..m] == actions[..m] && actions[..n][m] == actions[m];
  }

  lemma ResolvedConfirm(req: Request)
    requires IsConfirm(Resolved(req))
    ensures IsConfirm(req) && Resolved(req).id == Uuids.Canon(req.id) && Resolved(req).checksum == req.checksum
  {
  }

  lemma TakerWasAsked(cfg: Config, actions: seq<Action>, n: nat, id: string, f: FileMetadata)
    requires Carries(cfg, actions, n, id, f)
    ensures exists m: nat :: Confirms(cfg, actions, m, n, id) && actions[m].req.checksum == f.checksum
  {
    var front, tid := actions[..n], actions[n].tid;
    CallsWereAsked(cfg, front, tid);
    var m: nat :| Asked(cfg, front, m, tid, Run(cfg, INIT, front).calls[tid].req);
    AskedBefore(cfg, actions, n, m, tid, Run(cfg, INIT, front).calls[tid].req);
    ResolvedConfirm(actions[m].req);
    assert Confirms(cfg, actions, m, n, id);
  }

  /** Under every interleaving a row that has been ready carries the checksum of the request whose
      confirmation took it, and until it is deleted the time of that row update; there is exactly
      one such update (TakenOnce). A row that has never been ready has no checksum. */
  lemma ChecksumOrigin(cfg: Config, actions: seq<Action>, id: string)
    requires id in Run(cfg, INIT, actions).store.rows
    ensures var f := Run(cfg, INIT, actions).store.rows[id];
            if WasReady(cfg, actions, id) then
              exists m: nat, n: nat :: Confirms(cfg, actions, m, n, id) && f.checksum == actions[m].req.checksum &&
                                       (f.status == Ready ==> f.updatedAt == actions[n].reply.now)
            else f.checksum == ""
  {
    var f := Run(cfg, INIT, actions).store.rows[id];
    RunIsExplained(cfg, actions, id);
    if WasReady(cfg, actions, id) {
      var n: nat :| Carries(cfg, actions, n, id, f);
      TakerWasAsked(cfg, actions, n, id, f);
      var m: nat :| Confirms(cfg, actions, m, n, id) && actions[m].req.checksum == f.checksum;
    }
  }
}
