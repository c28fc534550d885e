/** Runs that show why the accounting laws need their conditions: each ends with all calls
    returned and a store in disorder. */
module Races {
  import opened Domain
  import opened Protocol
  import opened Lifecycle
  import opened Sequential
  import opened Calls
  import opened Outcomes
  import opened Deletions
  import opened Records
  import ExactlyOnce
  import CacheRefinement
  import PageTokens
  import PartSizes
  import Reports
  import Uuids

  // ---------- disorder ----------

  /** The cache holds a live entry for a deleted row. */
  ghost predicate StaleEntry(sys: System, id: string) {
    && ExactlyOnce.Quiet(sys) && id in sys.store.rows && sys.store.rows[id].status == Deleted
    && id in sys.store.cache && sys.store.cache[id].status != Deleted
  }

  /** A deleted row has part rows. */
  ghost predicate StrayPart(sys: System, id: string) {
    && ExactlyOnce.Quiet(sys) && id in sys.store.rows && sys.store.rows[id].status == Deleted
    && id in sys.store.parts && sys.store.parts[id] != map[]
  }

  /** The object of a deleted row is still stored. */
  ghost predicate LeftoverObject(sys: System, id: string) {
    && ExactlyOnce.Quiet(sys) && id in sys.store.rows && sys.store.rows[id].status == Deleted
    && sys.store.rows[id].objectKey in sys.store.objects
  }

  /** A run that ends with a client's upload under the key of a deleted single-mode file. */
  ghost predicate LateUpload(cfg: Config, actions: seq<Action>, id: string) {
    && LeftoverObject(Run(cfg, INIT, actions), id) && Run(cfg, INIT, actions).store.rows[id].mode == Single
    && actions != [] && actions[|actions| - 1] == ClientPut(Run(cfg, INIT, actions).store.rows[id].objectKey)
  }

  // ---------- building runs ----------

  /** Nothing fails. */
  predicate Calm(env: Env) {
    env.faults == {} && env.uploadId != ""
  }

  lemma RunOne(cfg: Config, actions: seq<Action>, a: Action)
    ensures Run(cfg, INIT, actions + [a]) == Next(cfg, Run(cfg, INIT, actions), a)
  {
    assert (actions + [a])[..|actions|] == actions;
  }

  predicate Accepts(cfg: Config, create: Request) {
    AcceptsCreate(cfg, create) || AcceptsUpload(cfg, create)
  }

  /** The row of a file that was just created. */
  predicate TheFile(cfg: Config, s: Store, create: Request)
    requires create.id in s.rows
  {
    && (create.CreateMultipart? || create.CreateUpload?)
    && var f := s.rows[create.id];
    && f.id == create.id && f.owner == create.owner && f.owner != "" && f.status == Pending && f.size == create.size
    && (create.CreateUpload? ==> f.mode == Single)
    && (create.CreateMultipart? ==>
          f.mode == Multipart && f.uploadId != "" && f.partSize == cfg.partSize && UploadOf(f) in s.uploads)
  }

  /** One file, just created, and nothing else. */
  ghost predicate OneFile(cfg: Config, s: Store, create: Request) {
    && StoreInv(cfg, s) && s.rows.Keys == {create.id} && TheFile(cfg, s, create)
    && PageTokens.IsCanonical(create.id) && Uuids.Canon(create.id) == create.id && create.id != ""
  }

  lemma CreatedFile(cfg: Config, s: Store, end: State, create: Request, env: Env)
    requires Accepts(cfg, create) && IsCreated(cfg, s, end, create, env) && s.rows == map[]
    requires create.CreateMultipart? ==> env.uploadId != "" && NewUpload(create, env) in s.uploads
    ensures create.id in end.store.rows && end.store.rows == map[create.id := end.store.rows[create.id]]
    ensures TheFile(cfg, end.store, create)
  {
  }

  lemma OnlyFile(cfg: Config, s: Store, create: Request)
    requires StoreInv(cfg, s) && create.id in s.rows && s.rows == map[create.id := s.rows[create.id]]
    requires PageTokens.IsCanonical(create.id) && Uuids.Canon(create.id) == create.id && TheFile(cfg, s, create)
    ensures OneFile(cfg, s, create)
  {
  }

  lemma Created(cfg: Config, create: Request, env: Env)
    requires Accepts(cfg, create) && Calm(env)
    ensures var end := Perform(cfg, EMPTY, create, env);
            end.call.pc == Returned && OneFile(cfg, end.store, create)
  {
    PerformKeepsInv(cfg, EMPTY, create, env);
    Uuids.CanonicalParses(create.id);
    if create.CreateMultipart? {
      assert OpensUpload(cfg, EMPTY, create, env);
      CreateMultipartSucceedsIff(cfg, EMPTY, create, env);
      CreatedFile(cfg, Opened(EMPTY, NewUpload(create, env)), Perform(cfg, EMPTY, create, env), create, env);
    } else {
      CreateUploadSucceedsIff(cfg, EMPTY, create, env);
      CreatedFile(cfg, EMPTY, Perform(cfg, EMPTY, create, env), create, env);
    }
    OnlyFile(cfg, Perform(cfg, EMPTY, create, env).store, create);
  }

  /** The first call of every run below. */
  lemma Start(cfg: Config, create: Request, env: Env) returns (actions: seq<Action>)
    requires Accepts(cfg, create) && Calm(env)
    ensures var sys := Run(cfg, INIT, actions);
            sys.calls.Keys == {0} && sys.calls[0].pc == Returned && OneFile(cfg, sys.store, create)
  {
    Created(cfg, create, env);
    actions := PerformIsARun(cfg, [], 0, create, env);
  }

  /** One more statement of one call, the other calls as they were. */
  lemma Proceed(
    cfg: Config, before: seq<Action>, s: Store, calls: map<nat, Call>, tid: nat, r: Reply, c: Call, st: State)
    returns (actions: seq<Action>)
    requires Run(cfg, INIT, before) == System(s, calls[tid := c]) && Step(s, c, r) == st
    ensures Run(cfg, INIT, actions) == System(st.store, calls[tid := st.call])
  {
    RunOne(cfg, before, Advance(tid, r));
    actions := before + [Advance(tid, r)];
    assert calls[tid := c][tid := st.call] == calls[tid := st.call];
  }

  /** A call arrives and executes one statement. */
  lemma Arrive(cfg: Config, before: seq<Action>, tid: nat, req: Request, r: Reply) returns (actions: seq<Action>)
    requires tid !in Run(cfg, INIT, before).calls
    ensures var sys := Run(cfg, INIT, before);
            var st := Step(sys.store, Begin(cfg, req, 0), r);
            Run(cfg, INIT, actions) == System(st.store, sys.calls[tid := st.call])
  {
    var sys, c := Run(cfg, INIT, before), Begin(cfg, req, 0);
    Arrives(cfg, before, tid, req, 0);
    actions := Proceed(cfg, before + [Invoke(tid, req, 0)], sys.store, sys.calls, tid, r, c, Step(sys.store, c, r));
  }

  /** A call runs to its end, and the calls before it stay where they were. */
  lemma Interpose(cfg: Config, before: seq<Action>, tid: nat, req: Request, env: Env) returns (actions: seq<Action>)
    requires tid !in Run(cfg, INIT, before).calls && StoreInv(cfg, Run(cfg, INIT, before).store)
    ensures var sys, sys' := Run(cfg, INIT, before), Run(cfg, INIT, actions);
            && sys'.store == Perform(cfg, sys.store, req, env).store && sys'.calls.Keys == sys.calls.Keys + {tid}
            && sys'.calls[tid].pc == Returned && forall t | t in sys.calls :: sys'.calls[t] == sys.calls[t]
  {
    PerformKeepsInv(cfg, Run(cfg, INIT, before).store, req, env);
    actions := PerformIsARun(cfg, before, tid, req, env);
  }

  /** Of three calls the second is left unfinished. */
  lemma SecondIsLeft(calls: map<nat, Call>, calls1: map<nat, Call>, calls2: map<nat, Call>, c: Call)
    requires calls.Keys == {0} && calls[0].pc == Returned && calls1 == calls[1 := c]
    requires calls2.Keys == calls1.Keys + {2} && calls2[2].pc == Returned && forall t | t in calls1 :: calls2[t] == calls1[t]
    ensures 1 in calls2 && calls2[1] == c && forall t | t in calls2 && t != 1 :: calls2[t].pc == Returned
  {
    assert 0 in calls1 && 1 in calls1;
    assert forall t | t in calls2 :: t == 0 || t == 1 || t == 2;
  }

  // ---------- deleting the file ----------

  lemma DeleteTakesRow(cfg: Config, s: Store, create: Request, env: Env)
    requires OneFile(cfg, s, create) && Calm(env)
    ensures var s' := Perform(cfg, s, DeleteFile(create.id, create.owner), env).store;
            && create.id in s'.rows && s'.rows == s.rows[create.id := s'.rows[create.id]]
            && BecameDeleted(s.rows[create.id], s'.rows[create.id], env.now)
  {
    var req := DeleteFile(create.id, create.owner);
    assert Visible(s, req, env);
    DeleteSucceedsIff(cfg, s, req, env);
  }

  lemma AbortTakesRow(cfg: Config, s: Store, create: Request, env: Env)
    requires OneFile(cfg, s, create) && create.CreateMultipart? && Calm(env)
    ensures var s' := Perform(cfg, s, AbortMultipart(create.id, create.owner), env).store;
            && create.id in s'.rows && s'.rows == s.rows[create.id := s'.rows[create.id]]
            && BecameDeleted(s.rows[create.id], s'.rows[create.id], env.now)
  {
    var req := AbortMultipart(create.id, create.owner);
    assert PendingFor(s.rows, req.id, req.owner, true) == Ok(s.rows[create.id]);
    AbortSucceedsIff(cfg, s, req, env);
  }

  // ---------- deleted between read and fill ----------

  lemma LiveRowStep(s: Store, c: Call, r: Reply)
    requires c.req.GetFile? && c.pc == ReadRow && r.ok && PageTokens.IsCanonical(c.req.id) && c.req.id in s.rows
    requires s.rows[c.req.id].owner == c.req.owner && s.rows[c.req.id].status != Deleted
    ensures Step(s, c, r) == State(s, c.(pc := FillCache, file := s.rows[c.req.id]))
  {
  }

  lemma MissedRead(cfg: Config, s: Store, create: Request, no: Reply, yes: Reply)
    requires OneFile(cfg, s, create) && !no.ok && yes.ok
    ensures var get := GetFile(create.id, create.owner);
            var st := Step(s, Begin(cfg, get, 0), no);
            && st.store == s
            && Step(s, st.call, yes) == State(s, Call(get, create.id, FillCache, s.rows[create.id], [], OkDone))
  {
    var c := Call(GetFile(create.id, create.owner), create.id, ReadCache, NO_FILE, [], OkDone);
    BeginRead(cfg, c.req, 0);
    assert Step(s, c, no) == State(s, c.Goto(ReadRow));
    LiveRowStep(s, c.Goto(ReadRow), yes);
  }

  lemma FillStep(s: Store, c: Call, r: Reply)
    requires c.req.GetFile? && c.pc == FillCache && r.ok
    ensures Step(s, c, r) == State(s.(cache := s.cache[c.file.id := c.file]), c.Return(OkFile(c.file)))
  {
  }

  lemma ReadArrives(cfg: Config, before: seq<Action>, tid: nat, create: Request) returns (actions: seq<Action>)
    requires tid !in Run(cfg, INIT, before).calls && OneFile(cfg, Run(cfg, INIT, before).store, create)
    ensures var sys := Run(cfg, INIT, before);
            var c := Call(GetFile(create.id, create.owner), create.id, FillCache, sys.store.rows[create.id], [], OkDone);
            Run(cfg, INIT, actions) == System(sys.store, sys.calls[tid := c])
  {
    var no, yes, get := Reply(false, 0, ""), Reply(true, 0, ""), GetFile(create.id, create.owner);
    var sys := Run(cfg, INIT, before);
    MissedRead(cfg, sys.store, create, no, yes);
    var st := Step(sys.store, Begin(cfg, get, 0), no);
    actions := Arrive(cfg, before, tid, get, no);
    actions := Proceed(cfg, actions, sys.store, sys.calls, tid, yes, st.call, Step(sys.store, st.call, yes));
  }

  /** A read has its copy of the row, and a delete of the file has come and gone. */
  lemma ReadOvertaken(cfg: Config, create: Request, env: Env) returns (actions: seq<Action>)
    requires Accepts(cfg, create) && Calm(env)
    ensures var sys := Run(cfg, INIT, actions);
            && 1 in sys.calls && sys.calls[1].req.GetFile? && sys.calls[1].pc == FillCache
            && sys.calls[1].file.id == create.id && sys.calls[1].file.status != Deleted
            && (forall t | t in sys.calls && t != 1 :: sys.calls[t].pc == Returned)
            && create.id in sys.store.rows && sys.store.rows[create.id].status == Deleted
  {
    var a := Start(cfg, create, env);
    var sys := Run(cfg, INIT, a);
    var b := ReadArrives(cfg, a, 1, create);
    DeleteTakesRow(cfg, sys.store, create, env);
    actions := Interpose(cfg, b, 2, DeleteFile(create.id, create.owner), env);
    var c := Call(GetFile(create.id, create.owner), create.id, FillCache, sys.store.rows[create.id], [], OkDone);
    SecondIsLeft(sys.calls, Run(cfg, INIT, b).calls, Run(cfg, INIT, actions).calls, c);
  }

  lemma FillLeaves(cfg: Config, sys: System, tid: nat, r: Reply)
    requires tid in sys.calls && sys.calls[tid].req.GetFile? && sys.calls[tid].pc == FillCache && r.ok
    requires sys.calls[tid].file.id in sys.store.rows && sys.store.rows[sys.calls[tid].file.id].status == Deleted
    requires sys.calls[tid].file.status != Deleted
    requires forall t | t in sys.calls && t != tid :: sys.calls[t].pc == Returned
    ensures StaleEntry(Next(cfg, sys, Advance(tid, r)), sys.calls[tid].file.id)
  {
    FillStep(sys.store, sys.calls[tid], r);
  }

  /** A GetFile that fills the cache after a concurrent delete leaves a live entry for a deleted
      file. */
  lemma LateFillRun(cfg: Config, create: Request, env: Env) returns (actions: seq<Action>)
    requires Accepts(cfg, create) && Calm(env)
    ensures StaleEntry(Run(cfg, INIT, actions), create.id)
  {
    var yes := Reply(true, 0, "");
    var c := ReadOvertaken(cfg, create, env);
    RunOne(cfg, c, Advance(1, yes));
    FillLeaves(cfg, Run(cfg, INIT, c), 1, yes);
    actions := c + [Advance(1, yes)];
  }

  // ---------- aborted between check and save ----------

  lemma BeginReport(cfg: Config, report: Request, now: int64)
    requires report.ReportPart? && report.id != "" && report.owner != "" && Uuids.Canon(report.id) == report.id
    ensures Begin(cfg, report, now) == Call(report, report.id, ReadRow, NO_FILE, [], OkDone)
  {
  }

  lemma ReportStep(s: Store, c: Call, r: Reply)
    requires c.req.ReportPart? && c.pc == ReadRow && r.ok && PageTokens.IsCanonical(c.req.id) && c.req.id in s.rows
    requires var f := s.rows[c.req.id];
             && f.owner == c.req.owner && PendingMultipart(f) && f.uploadId != ""
             && PartSizes.ValidPartNumber(c.req.number, f.TotalParts()) && NormalizeETag(c.req.etag) != ""
    ensures Step(s, c, r) == State(s, c.(pc := SavePart, file := s.rows[c.req.id]))
  {
  }

  /** A report of one part of the file, by its owner. */
  ghost predicate IsReportOf(cfg: Config, create: Request, report: Request) {
    && create.CreateMultipart? && report.ReportPart? && report.id == create.id && report.owner == create.owner
    && PartSizes.ValidPartNumber(report.number, MachineParts(create.size, cfg.partSize))
    && !Reports.Blank(report.etag)
  }

  lemma ReportChecked(cfg: Config, s: Store, create: Request, report: Request, r: Reply)
    requires OneFile(cfg, s, create) && r.ok && IsReportOf(cfg, create, report)
    ensures Step(s, Begin(cfg, report, 0), r) == State(s, Call(report, create.id, SavePart, s.rows[create.id], [], OkDone))
  {
    BeginReport(cfg, report, 0);
    Reports.BlankIff(report.etag);
    ReportStep(s, Call(report, create.id, ReadRow, NO_FILE, [], OkDone), r);
  }

  lemma SaveStep(s: Store, c: Call, r: Reply)
    requires c.req.ReportPart? && c.pc == SavePart && c.req.id in s.rows && r.ok
    ensures var st := Step(s, c, r);
            && st.store.rows == s.rows && c.req.id in st.store.parts && c.req.number in st.store.parts[c.req.id]
            && st.call.pc == Returned
  {
  }

  lemma ReportArrives(cfg: Config, before: seq<Action>, tid: nat, create: Request, report: Request)
    returns (actions: seq<Action>)
    requires tid !in Run(cfg, INIT, before).calls
    requires OneFile(cfg, Run(cfg, INIT, before).store, create) && IsReportOf(cfg, create, report)
    ensures var sys := Run(cfg, INIT, before);
            var c := Call(report, create.id, SavePart, sys.store.rows[create.id], [], OkDone);
            Run(cfg, INIT, actions) == System(sys.store, sys.calls[tid := c])
  {
    var yes := Reply(true, 0, "");
    ReportChecked(cfg, Run(cfg, INIT, before).store, create, report, yes);
    actions := Arrive(cfg, before, tid, report, yes);
  }

  /** A report has been checked, and an abort of its file has come and gone. */
  lemma ReportOvertaken(cfg: Config, create: Request, report: Request, env: Env) returns (actions: seq<Action>)
    requires AcceptsCreate(cfg, create) && Calm(env) && IsReportOf(cfg, create, report)
    ensures var sys := Run(cfg, INIT, actions);
            && 1 in sys.calls && sys.calls[1].req == report && sys.calls[1].pc == SavePart
            && (forall t | t in sys.calls && t != 1 :: sys.calls[t].pc == Returned)
            && create.id in sys.store.rows && sys.store.rows[create.id].status == Deleted
  {
    var a := Start(cfg, create, env);
    var sys := Run(cfg, INIT, a);
    var b := ReportArrives(cfg, a, 1, create, report);
    AbortTakesRow(cfg, sys.store, create, env);
    actions := Interpose(cfg, b, 2, AbortMultipart(create.id, create.owner), env);
    var c := Call(report, create.id, SavePart, sys.store.rows[create.id], [], OkDone);
    SecondIsLeft(sys.calls, Run(cfg, INIT, b).calls, Run(cfg, INIT, actions).calls, c);
  }

  lemma SaveLeaves(cfg: Config, sys: System, tid: nat, r: Reply)
    requires tid in sys.calls && sys.calls[tid].req.ReportPart? && sys.calls[tid].pc == SavePart && r.ok
    requires sys.calls[tid].req.id in sys.store.rows && sys.store.rows[sys.calls[tid].req.id].status == Deleted
    requires forall t | t in sys.calls && t != tid :: sys.calls[t].pc == Returned
    ensures StrayPart(Next(cfg, sys, Advance(tid, r)), sys.calls[tid].req.id)
  {
    SaveStep(sys.store, sys.calls[tid], r);
  }

  /** A report that was checked before an abort and is saved after it leaves a part row behind for
      a deleted file. */
  lemma StrayPartRun(cfg: Config, create: Request, report: Request, env: Env) returns (actions: seq<Action>)
    requires AcceptsCreate(cfg, create) && Calm(env) && IsReportOf(cfg, create, report)
    ensures StrayPart(Run(cfg, INIT, actions), create.id)
  {
    var yes := Reply(true, 0, "");
    var c := ReportOvertaken(cfg, create, report, env);
    RunOne(cfg, c, Advance(1, yes));
    SaveLeaves(cfg, Run(cfg, INIT, c), 1, yes);
    actions := c + [Advance(1, yes)];
  }

  // ---------- uploaded after the delete ----------

  lemma BothReturned(calls: map<nat, Call>, calls1: map<nat, Call>)
    requires calls.Keys == {0} && calls[0].pc == Returned && calls1.Keys == calls.Keys + {1}
    requires calls1[1].pc == Returned && forall t | t in calls :: calls1[t] == calls[t]
    ensures forall t | t in calls1 :: calls1[t].pc == Returned
  {
    assert forall t | t in calls1 :: t == 0 || t == 1;
  }

  lemma PutLeaves(cfg: Config, before: seq<Action>, id: string) returns (actions: seq<Action>)
    requires var sys := Run(cfg, INIT, before);
             && ExactlyOnce.Quiet(sys) && id in sys.store.rows && sys.store.rows[id].status == Deleted
             && sys.store.rows[id].mode == Single
    ensures LateUpload(cfg, actions, id)
  {
    var key := Run(cfg, INIT, before).store.rows[id].objectKey;
    RunOne(cfg, before, ClientPut(key));
    actions := before + [ClientPut(key)];
  }

  /** A client that uses the URL CreateUpload gave it after the delete leaves an object without a
      live row. */
  lemma LateUploadRun(cfg: Config, create: Request, env: Env) returns (actions: seq<Action>)
    requires AcceptsUpload(cfg, create) && Calm(env)
    ensures LateUpload(cfg, actions, create.id)
  {
    var a := Start(cfg, create, env);
    var s := Run(cfg, INIT, a).store;
    DeleteTakesRow(cfg, s, create, env);
    var b := Interpose(cfg, a, 1, DeleteFile(create.id, create.owner), env);
    BothReturned(Run(cfg, INIT, a).calls, Run(cfg, INIT, b).calls);
    actions := PutLeaves(cfg, b, create.id);
  }

  // ---------- completed between read and delete ----------

  /** DeleteFile up to the moment it has its copy of the row. */
  lemma DeleteReads(cfg: Config, before: seq<Action>, tid: nat, id: string, owner: string) returns (actions: seq<Action>)
    requires var sys := Run(cfg, INIT, before);
             && tid !in sys.calls && id in sys.store.rows && PageTokens.IsCanonical(id) && Uuids.Canon(id) == id && id != ""
             && owner != "" && sys.store.rows[id].owner == owner && sys.store.rows[id].status != Deleted
    ensures var sys := Run(cfg, INIT, before);
            var d := Call(DeleteFile(id, owner), id, SoftDelete, sys.store.rows[id], [], OkDone);
            Run(cfg, INIT, actions) == System(sys.store, sys.calls[tid := d])
  {
    var no, yes, sys := Reply(false, 0, ""), Reply(true, 0, ""), Run(cfg, INIT, before);
    var c := Call(DeleteFile(id, owner), id, ReadCache, NO_FILE, [], OkDone);
    var s, f := sys.store, sys.store.rows[id];
    BeginRead(cfg, c.req, 0);
    CacheRefinement.HitReadsRow(s, c, no);
    var row := c.(pc := FillCache, file := f);
    actions := Arrive(cfg, before, tid, c.req, no);
    actions := Proceed(cfg, actions, s, sys.calls, tid, yes, c.Goto(ReadRow), State(s, row));
    actions := Proceed(cfg, actions, s, sys.calls, tid, no, row, State(s, AfterRead(c.(file := f))));
  }

  /** What a delete with a pending copy leaves of a row that was completed in the meantime. */
  lemma StaleDelete(cfg: Config, s: Store, d: Call, env: Env)
    requires d.req.DeleteFile? && d.pc == SoftDelete && PendingMultipart(d.file) && d.file.uploadId != "" && Calm(env)
    requires d.req.id in s.rows && s.rows[d.req.id].id == d.req.id && s.rows[d.req.id].status == Ready
    ensures var end := Finish(s, d, env);
            && end.store.objects == s.objects && d.req.id in end.store.rows
            && BecameDeleted(s.rows[d.req.id], end.store.rows[d.req.id], env.now) && end.call.pc == Returned
  {
    DeletingTail(s, d, env);
    FinishReturns(s, d, env);
  }

  /** A pending multipart row of the caller, and the same row ready with its object stored. */
  predicate PendingFile(s: Store, id: string, owner: string) {
    && PageTokens.IsCanonical(id) && Uuids.Canon(id) == id && id != "" && owner != ""
    && id in s.rows && s.rows[id].id == id && s.rows[id].owner == owner
    && PendingMultipart(s.rows[id]) && s.rows[id].uploadId != ""
  }

  predicate ReadyFile(s: Store, id: string) {
    id in s.rows && s.rows[id].id == id && s.rows[id].status == Ready && s.rows[id].objectKey in s.objects
  }

  lemma CompletedIsReady(cfg: Config, s: Store, complete: Request, env: Env)
    requires complete.CompleteMultipart? && Calm(env) && CanAssemble(s, complete, env)
    requires s.rows[RowId(complete)].id == RowId(complete)
    ensures ReadyFile(Perform(cfg, s, complete, env).store, RowId(complete))
  {
    CompleteSucceedsIff(cfg, s, complete, env);
  }

  lemma CompletionGoesThrough(cfg: Config, s: Store, complete: Request, env: Env)
    requires StoreInv(cfg, s) && complete.CompleteMultipart? && PageTokens.IsCanonical(complete.id) && Calm(env)
    requires CanAssemble(s, complete, env)
    ensures PendingFile(s, complete.id, complete.owner)
    ensures ReadyFile(Perform(cfg, s, complete, env).store, complete.id)
  {
    Uuids.CanonicalParses(complete.id);
    assert s.rows[RowId(complete)].id == RowId(complete);
    CompletedIsReady(cfg, s, complete, env);
  }

  /** A delete has its copy of a pending row, and a completion of the file has come and gone. */
  ghost predicate Overtaken(sys: System, t: nat, id: string) {
    && ReadyFile(sys.store, id)
    && t in sys.calls && sys.calls[t].req.DeleteFile? && sys.calls[t].req.id == id && sys.calls[t].pc == SoftDelete
    && PendingMultipart(sys.calls[t].file) && sys.calls[t].file.uploadId != ""
    && forall v | v in sys.calls && v != t :: sys.calls[v].pc == Returned
  }

  lemma OvertakenBy(sys: System, sys': System, t: nat, u: nat, d: Call)
    requires ExactlyOnce.Quiet(sys) && t != u && sys'.calls.Keys == sys.calls[t := d].Keys + {u}
    requires sys'.calls[u].pc == Returned && forall v | v in sys.calls[t := d] :: sys'.calls[v] == sys.calls[t := d][v]
    requires d.req.DeleteFile? && d.pc == SoftDelete && PendingMultipart(d.file) && d.file.uploadId != ""
    requires ReadyFile(sys'.store, d.req.id)
    ensures Overtaken(sys', t, d.req.id)
  {
    assert t in sys.calls[t := d];
    forall v | v in sys'.calls && v != t ensures sys'.calls[v].pc == Returned {
      if v != u { assert v in sys.calls[t := d]; }
    }
  }

  lemma DeleteOvertaken(cfg: Config, before: seq<Action>, t: nat, u: nat, req: Request, env: Env)
    returns (actions: seq<Action>)
    requires var sys := Run(cfg, INIT, before);
             && StoreInv(cfg, sys.store) && ExactlyOnce.Quiet(sys) && t != u && t !in sys.calls && u !in sys.calls
             && PendingFile(sys.store, req.id, req.owner) && ReadyFile(Perform(cfg, sys.store, req, env).store, req.id)
    ensures Overtaken(Run(cfg, INIT, actions), t, req.id)
  {
    var sys := Run(cfg, INIT, before);
    var d := Call(DeleteFile(req.id, req.owner), req.id, SoftDelete, sys.store.rows[req.id], [], OkDone);
    var a := DeleteReads(cfg, before, t, req.id, req.owner);
    actions := Interpose(cfg, a, u, req, env);
    OvertakenBy(sys, Run(cfg, INIT, actions), t, u, d);
  }

  /** Wherever a completion can succeed, a DeleteFile that read the pending row before it and goes
      on after it succeeds too, and leaves the assembled object without a live row: with its
      pending copy it closes the upload and does not remove the object. */
  lemma CompletionOvertakesDelete(cfg: Config, before: seq<Action>, t: nat, u: nat, complete: Request, env: Env)
    returns (actions: seq<Action>)
    requires complete.CompleteMultipart? && PageTokens.IsCanonical(complete.id) && Calm(env)
    requires ExactlyOnce.Quiet(Run(cfg, INIT, before)) && CanAssemble(Run(cfg, INIT, before).store, complete, env)
    requires t != u && t !in Run(cfg, INIT, before).calls && u !in Run(cfg, INIT, before).calls
    ensures LeftoverObject(Run(cfg, INIT, actions), complete.id)
  {
    RunKeepsInv(cfg, INIT, before);
    CompletionGoesThrough(cfg, Run(cfg, INIT, before).store, complete, env);
    var a := DeleteOvertaken(cfg, before, t, u, complete, env);
    var sys := Run(cfg, INIT, a);
    StaleDelete(cfg, sys.store, sys.calls[t], env);
    actions := Concluded(cfg, a, t, env);
  }

  /** A creation leaves the one record there can be. */
  lemma SameRecord(cfg: Config, create: Request, now: int64, uploadId: string, f: FileMetadata, g: FileMetadata)
    requires IsCreate(create) && IsNewRecord(cfg, create, now, uploadId, f) && IsNewRecord(cfg, create, now, uploadId, g)
    ensures f == g
  {
  }

  lemma ReportedCanAssemble(
    cfg: Config, s: Store, create: Request, f: FileMetadata, reports: seq<Op>, complete: Request, env: Env)
    requires AcceptsCreate(cfg, create) && Calm(env) && s == Perform(cfg, EMPTY, create, env).store
    requires OneFile(cfg, s, create) && IsNewRecord(cfg, create, env.now, env.uploadId, f)
    requires complete.CompleteMultipart? && complete.id == create.id && complete.owner == create.owner && ChecksumOk(complete)
    requires f.TotalParts() >= 0 && Reports.AreReports(reports, create.id) && Reports.Covers(reports, f)
    ensures CanAssemble(Play(cfg, s, reports), complete, env)
  {
    assert OpensUpload(cfg, EMPTY, create, env);
    CreateMultipartSucceedsIff(cfg, EMPTY, create, env);
    SameRecord(cfg, create, env.now, env.uploadId, f, s.rows[create.id]);
    Reports.PartsAfterReports(cfg, s, reports, create.id);
    Reports.CoveredParts(cfg, s, reports, create.id);
  }

  /** A creation, reports of all parts of its file f, and the race of a completion with a delete. */
  lemma CompletionRace(
    cfg: Config, create: Request, f: FileMetadata, reports: seq<Op>, complete: Request, env: Env)
    returns (actions: seq<Action>)
    requires AcceptsCreate(cfg, create) && Calm(env) && complete.CompleteMultipart?
    requires complete.id == create.id && complete.owner == create.owner && ChecksumOk(complete)
    requires IsNewRecord(cfg, create, env.now, env.uploadId, f) && f.TotalParts() >= 0
    requires Reports.AreReports(reports, create.id) && Reports.Covers(reports, f)
    ensures LeftoverObject(Run(cfg, INIT, actions), create.id)
  {
    var id, n, s := create.id, |reports|, Perform(cfg, EMPTY, create, env).store;
    Created(cfg, create, env);
    var a := PerformIsARun(cfg, [], 0, create, env);
    var b := PlayContinues(cfg, a, 1, reports);
    ReportedCanAssemble(cfg, s, create, f, reports, complete, env);
    assert 1 + n !in Run(cfg, INIT, b).calls && 2 + n !in Run(cfg, INIT, b).calls;
    actions := CompletionOvertakesDelete(cfg, b, 1 + n, 2 + n, complete, env);
  }

  // ---------- deleted in another spelling ----------

  lemma BracedIsServed(cfg: Config, s: Store, create: Request, env: Env)
    requires OneFile(cfg, s, create) && Calm(env)
    ensures var get := GetFile(create.id, create.owner);
            var s' := Perform(cfg, s, DeleteFile("{" + create.id + "}", create.owner), env).store;
            && create.id in s'.rows && s'.rows[create.id].status == Deleted
            && Perform(cfg, s', get, env).call.outcome.OkFile?
            && Perform(cfg, CacheRefinement.WithoutCache(s'), get, env).call.outcome == Failed(NotFound)
  {
    var delete := DeleteFile("{" + create.id + "}", create.owner);
    Uuids.BracedParses(create.id);
    assert Visible(s, delete, env);
    DeletedFileIsServed(cfg, s, delete, env);
  }

  /** Two sequential calls with nothing failing: a creation, and a delete that spells the id in
      braces. GetFile then still returns the file, where the service without a cache does not. */
  lemma BracedDeleteRun(cfg: Config, create: Request, env: Env)
    requires Accepts(cfg, create) && Calm(env)
    ensures var get := GetFile(create.id, create.owner);
            var s := Play(cfg, EMPTY, [Do(create, env), Do(DeleteFile("{" + create.id + "}", create.owner), env)]);
            && create.id in s.rows && s.rows[create.id].status == Deleted
            && Perform(cfg, s, get, env).call.outcome.OkFile?
            && Perform(cfg, CacheRefinement.WithoutCache(s), get, env).call.outcome == Failed(NotFound)
  {
    PlayTwo(cfg, Do(create, env), Do(DeleteFile("{" + create.id + "}", create.owner), env));
    Created(cfg, create, env);
    BracedIsServed(cfg, Perform(cfg, EMPTY, create, env).store, create, env);
  }

  // ---------- concrete inputs ----------

  lemma TwoParts(partSize: int64)
    requires PartSizes.MIN_PART_SIZE <= partSize && 2 * partSize <= MAX_INT64
    ensures MachineParts(partSize + 1, partSize) == 2
  {
    PartSizes.DivUnique(2 * partSize, partSize, 2);
    PartSizes.TotalPartsExactIff(partSize + 1, partSize);
  }

  lemma PlainTag()
    ensures !Reports.Blank("e")
  {
    Reports.BlankIff("e");
    assert NormalizeETag("e") == "e";
  }

  lemma LastIsAccepted(ops: seq<Op>, req: Request, f: FileMetadata, env: Env)
    requires Reports.Accepted(f, req, env)
    ensures Reports.LastReport(ops + [Do(req, env)], f, req.number).Some?
  {
  }

  lemma LastIsSkipped(ops: seq<Op>, req: Request, f: FileMetadata, env: Env, n: int32)
    requires req.ReportPart? && req.number != n
    ensures Reports.LastReport(ops + [Do(req, env)], f, n) == Reports.LastReport(ops, f, n)
  {
    assert (ops + [Do(req, env)])[..|ops|] == ops;
  }

  lemma CoversTwo(ops: seq<Op>, f: FileMetadata)
    requires f.TotalParts() == 2 && Reports.LastReport(ops, f, 1).Some? && Reports.LastReport(ops, f, 2).Some?
    ensures Reports.Covers(ops, f)
  {
    forall n: int32 | PartSizes.ValidPartNumber(n, f.TotalParts()) ensures Reports.LastReport(ops, f, n).Some? {
      assert n == 1 || n == 2;
    }
  }

  /** Reports of both parts of a file of two. */
  lemma TwoReportsCover(f: FileMetadata, id: string, tag: string, env: Env)
    requires PendingMultipart(f) && f.uploadId != "" && f.owner != "" && f.TotalParts() == 2 && env.faults == {}
    requires Uuids.Canon(id) == id && !Reports.Blank(tag)
    ensures var ops := [Do(ReportPart(id, f.owner, 1, tag), env), Do(ReportPart(id, f.owner, 2, tag), env)];
            Reports.AreReports(ops, id) && Reports.Covers(ops, f)
  {
    var one, two := ReportPart(id, f.owner, 1, tag), ReportPart(id, f.owner, 2, tag);
    var ops := [Do(one, env), Do(two, env)];
    LastIsAccepted([Do(one, env)], two, f, env);
    LastIsAccepted([], one, f, env);
    LastIsSkipped([Do(one, env)], two, f, env, 1);
    assert [] + [Do(one, env)] == [Do(one, env)] && [Do(one, env)] + [Do(two, env)] == ops;
    CoversTwo(ops, f);
  }

  lemma RaceIsReachable(cfg: Config, create: Request, tag: string, env: Env)
    requires AcceptsCreate(cfg, create) && Calm(env) && MachineParts(create.size, cfg.partSize) == 2
    requires !Reports.Blank(tag)
    ensures exists actions :: LeftoverObject(Run(cfg, INIT, actions), create.id)
  {
    var f := NewFile(cfg, create, env.now).(uploadId := env.uploadId);
    NewFileIsNew(cfg, create, env.now, env.uploadId);
    Uuids.CanonicalParses(create.id);
    TwoReportsCover(f, create.id, tag, env);
    var ops := [Do(ReportPart(create.id, f.owner, 1, tag), env), Do(ReportPart(create.id, f.owner, 2, tag), env)];
    var actions := CompletionRace(cfg, create, f, ops, CompleteMultipart(create.id, create.owner, ""), env);
  }

  lemma Disorder(cfg: Config, create: Request, report: Request, env: Env)
    requires AcceptsCreate(cfg, create) && Calm(env) && IsReportOf(cfg, create, report)
    ensures exists actions :: StaleEntry(Run(cfg, INIT, actions), create.id)
    ensures exists actions :: StrayPart(Run(cfg, INIT, actions), create.id)
  {
    var a := LateFillRun(cfg, create, env);
    var b := StrayPartRun(cfg, create, report, env);
  }

  /** All of this happens under every usable configuration: a stale cache entry and a stray part row
      by races, a leftover object by a race of a completion with a delete, and one by a late upload
      through the URL of a single-mode creation. */
  lemma DisorderIsReachable(cfg: Config)
    requires ValidConfig(cfg) && 2 * cfg.partSize <= MAX_INT64 && (cfg.maxSize <= 0 || cfg.maxSize > cfg.partSize)
    ensures var id := PageTokens.Repdigit('0');
            && (exists actions :: StaleEntry(Run(cfg, INIT, actions), id))
            && (exists actions :: StrayPart(Run(cfg, INIT, actions), id))
            && (exists actions :: LeftoverObject(Run(cfg, INIT, actions), id))
            && (exists actions :: LateUpload(cfg, actions, id))
  {
    var id, env := PageTokens.Repdigit('0'), Env({}, 0, "u");
    var create := CreateMultipart(id, "owner", "name", "a/b", cfg.partSize + 1);
    var upload := CreateUpload(id, "owner", "name", "a/b", cfg.partSize + 1);
    ExampleIsAccepted(cfg, cfg.partSize + 1);
    assert AcceptsUpload(cfg, upload);
    TwoParts(cfg.partSize);
    PlainTag();
    Disorder(cfg, create, ReportPart(id, "owner", 1, "e"), env);
    RaceIsReachable(cfg, create, "e", env);
    var actions := LateUploadRun(cfg, upload, env);
  }
}
