/** Exactly when a sequential confirmation or completion succeeds, and what it leaves behind. */
module Outcomes {
  import opened Domain
  import opened Protocol
  import opened Lifecycle
  import opened Sequential
  import opened Calls
  import opened UploadAccounting
  import opened SequentialUploads
  import opened Deletions
  import opened Records
  import Completion
  import ObjectKeys
  import PageTokens
  import Uuids
  import Validation

  /** The last statements of a creation or a confirmation: the cache gets the record and the log
      its event, as far as they do not fail. */
  function Told(s: Store, kind: EventKind, f: FileMetadata, env: Env): Store {
    s.(cache := if FillCache in env.faults then s.cache else s.cache[f.id := f],
       events := if Publish in env.faults then s.events else s.events + [Event(kind, f.id, f.owner, f.objectKey)])
  }

  lemma TailSucceeds(s: Store, c: Call, env: Env)
    requires c.pc == FillCache && (IsCreate(c.req) || IsConfirm(c.req))
    ensures Finish(s, c, env).call.outcome == OkFile(c.file)
    ensures Finish(s, c, env).store == Told(s, if IsCreate(c.req) then FileCreated else FileReady, c.file, env)
  {
    OneStep(s, c, env);
    var st := Step(s, c, ReplyAt(env, FillCache));
    OneStep(st.store, st.call, env);
  }

  // ---------- confirmation ----------

  /** The row a confirmation or a completion is about: pending, and the caller's own. */
  predicate Addressed(s: Store, req: Request, env: Env) {
    && (req.ConfirmUpload? || req.CompleteMultipart?)
    && req.id != "" && req.owner != "" && Validation.ValidChecksum(req.checksum) && PageTokens.IsCanonical(RowId(req))
    && RowId(req) in s.rows && s.rows[RowId(req)].owner == req.owner && s.rows[RowId(req)].status == Pending
    && ReadRow !in env.faults
  }

  predicate Confirmable(s: Store, req: Request, env: Env) {
    Addressed(s, req, env) && ConfirmRow !in env.faults
  }

  /** The caller gets the row confirmed with its checksum, and nothing else changes but part rows,
      cache and log. */
  ghost predicate IsConfirmed(s: Store, end: State, req: Request, env: Env) {
    && Addressed(s, req, env) && end.call.outcome.OkFile?
    && var id, row := RowId(req), end.call.outcome.file;
    && BecameReady(s.rows[id], row, req.checksum, env.now)
    && end.store == Told(s.(rows := s.rows[id := row], parts := end.store.parts), FileReady, row, env)
  }

  /** Why a confirmation is refused. */
  function ConfirmRefusal(s: Store, req: Request, env: Env): Error
    requires req.ConfirmUpload?
  {
    var id := RowId(req);
    if req.id == "" || req.owner == "" || !Validation.ValidChecksum(req.checksum) then InvalidInput
    else if ReadRow in env.faults || !PageTokens.IsCanonical(id) then Internal
    else if id !in s.rows then NotFound
    else if s.rows[id].owner != req.owner then AccessDenied
    else if s.rows[id].status == Ready then AlreadyExists
    else if s.rows[id].status == Deleted then NotFound
    else Internal
  }

  lemma BeginConfirm(cfg: Config, req: Request, now: int64)
    requires req.ConfirmUpload?
    ensures var c := Begin(cfg, req, now);
            && c.req == ConfirmUpload(RowId(req), req.owner, req.checksum)
            && if req.id == "" || req.owner == "" || !Validation.ValidChecksum(req.checksum)
               then c.pc == Returned && c.outcome == Failed(InvalidInput) else c.pc == ReadRow
  {
  }

  lemma ConfirmRead(s: Store, c: Call, env: Env)
    requires c.req.ConfirmUpload? && c.pc == ReadRow
    ensures var end, id := Finish(s, c, env), c.req.id;
            if ReadRow in env.faults || !PageTokens.IsCanonical(id) then end == State(s, c.Fail(Internal))
            else if id !in s.rows then end == State(s, c.Fail(NotFound))
            else if s.rows[id].owner != c.req.owner then end == State(s, c.Fail(AccessDenied))
            else if s.rows[id].status == Ready then end == State(s, c.Fail(AlreadyExists))
            else if s.rows[id].status == Deleted then end == State(s, c.Fail(NotFound))
            else end == Finish(s, c.(pc := ConfirmRow, file := s.rows[id]), env)
  {
    OneStep(s, c, env);
  }

  /** The statements after the row has been found pending. */
  lemma ConfirmPending(s: Store, c: Call, env: Env)
    requires c.req.ConfirmUpload? && c.pc == ConfirmRow
    requires c.req.id in s.rows && s.rows[c.req.id].id == c.req.id && s.rows[c.req.id].status == Pending
    ensures var end, id := Finish(s, c, env), c.req.id;
            if ConfirmRow in env.faults then end.call.outcome == Failed(Internal) && end.store == s
            else
              && end.call.outcome.OkFile? && var row := end.call.outcome.file;
              && BecameReady(s.rows[id], row, c.req.checksum, env.now)
              && end.store == Told(s.(rows := s.rows[id := row]), FileReady, row, env)
  {
    var row := Confirmed(s.rows[c.req.id], c.req.checksum, env.now);
    AtConfirm(s, c, env);
    ConfirmedIsReady(s.rows[c.req.id], c.req.checksum, env.now);
    if ConfirmRow !in env.faults { TailSucceeds(Apply(s, PutRow(row)), c.(file := row, pc := FillCache), env); }
  }

  /** ConfirmUpload succeeds exactly for the owner of a pending file, of either mode: the row becomes
      ready with the caller's checksum and the time of the call, single-mode and without an upload.
      It touches neither uploads nor parts nor objects, and an unsuccessful call changes nothing. */
  lemma ConfirmSucceedsIff(cfg: Config, s: Store, req: Request, env: Env)
    requires req.ConfirmUpload? && (RowId(req) in s.rows ==> s.rows[RowId(req)].id == RowId(req))
    ensures var end := Perform(cfg, s, req, env);
            if Confirmable(s, req, env) then IsConfirmed(s, end, req, env) && end.store.parts == s.parts
            else end.call.outcome == Failed(ConfirmRefusal(s, req, env)) && end.store == s
  {
    var c := Begin(cfg, req, env.now);
    BeginIsLegal(cfg, req, env.now);
    BeginConfirm(cfg, req, env.now);
    if c.pc == ReadRow {
      ConfirmRead(s, c, env);
      if Addressed(s, req, env) { ConfirmPending(s, c.(pc := ConfirmRow, file := s.rows[c.req.id]), env); }
    }
  }

  // ---------- completion ----------

  /** The owner's pending multipart file has its upload open and exactly the parts 1..N. */
  ghost predicate CanAssemble(s: Store, req: Request, env: Env) {
    && Addressed(s, req, env) && SelectParts !in env.faults && FinishUpload !in env.faults
    && var f := s.rows[RowId(req)];
    && f.IsMultipart() && f.uploadId != "" && UploadOf(f) in s.uploads && f.TotalParts() >= 0
    && PartsOf(s, RowId(req)).Keys == Completion.AllNumbers(f.TotalParts())
  }

  /** Storage has closed the upload and put the object together. */
  function WithObject(s: Store, f: FileMetadata, list: seq<CompletedPart>): Store {
    s.(uploads := s.uploads - {UploadOf(f)}, objects := s.objects[f.objectKey := list])
  }

  function PartsAfter(s: Store, id: string, env: Env): map<string, map<int32, UploadPart>> {
    if DeleteParts in env.faults then s.parts else s.parts - {id}
  }

  lemma DropsParts(s: Store, c: Call, env: Env)
    requires c.req.CompleteMultipart? && c.pc == DeleteParts
    ensures Finish(s, c, env) == Finish(s.(parts := PartsAfter(s, c.req.id, env)), c.Goto(FillCache), env)
  {
    OneStep(s, c, env);
  }

  /** From the moment storage has assembled the object. */
  lemma ConfirmingSucceedsIff(s: Store, c: Call, env: Env)
    requires c.req.CompleteMultipart? && c.pc == ConfirmRow
    requires c.req.id in s.rows && s.rows[c.req.id].id == c.req.id && s.rows[c.req.id].status == Pending
    ensures var end, id := Finish(s, c, env), c.req.id;
            if ConfirmRow in env.faults then end.call.outcome == Failed(Internal) && end.store == s
            else
              && end.call.outcome.OkFile? && var row := end.call.outcome.file;
              && BecameReady(s.rows[id], row, c.req.checksum, env.now)
              && end.store == Told(s.(rows := s.rows[id := row], parts := PartsAfter(s, id, env)), FileReady, row, env)
  {
    AtConfirm(s, c, env);
    if ConfirmRow !in env.faults {
      var row := Confirmed(s.rows[c.req.id], c.req.checksum, env.now);
      ConfirmedIsReady(s.rows[c.req.id], c.req.checksum, env.now);
      var s', d := Apply(s, PutRow(row)), c.(file := row, pc := DeleteParts);
      DropsParts(s', d, env);
      TailSucceeds(s'.(parts := PartsAfter(s', c.req.id, env)), d.Goto(FillCache), env);
    }
  }

  /** How a completion ends that handed this list to storage. */
  ghost predicate EndsWith(s: Store, end: State, f: FileMetadata, list: seq<CompletedPart>, checksum: string, env: Env) {
    var s' := WithObject(s, f, list);
    if ConfirmRow in env.faults then end.call.outcome == Failed(Internal) && end.store == s'
    else
      && end.call.outcome.OkFile? && var row := end.call.outcome.file;
      && BecameReady(f, row, checksum, env.now)
      && end.store == Told(s'.(rows := s.rows[f.id := row], parts := PartsAfter(s, f.id, env)), FileReady, row, env)
  }

  lemma ConfirmingEnds(s: Store, c: Call, list: seq<CompletedPart>, env: Env)
    requires c.req.CompleteMultipart? && c.pc == ConfirmRow && c.req.id in s.rows && c.file == s.rows[c.req.id]
    requires c.file.id == c.req.id && c.file.status == Pending
    ensures EndsWith(s, Finish(WithObject(s, c.file, list), c, env), c.file, list, c.req.checksum, env)
  {
    ConfirmingSucceedsIff(WithObject(s, c.file, list), c, env);
  }

  lemma AssemblingSucceedsIff(s: Store, c: Call, env: Env)
    requires c.req.CompleteMultipart? && c.pc == FinishUpload
    requires c.req.id in s.rows && s.rows[c.req.id].id == c.req.id && PendingMultipart(s.rows[c.req.id])
    requires c.file == s.rows[c.req.id]
    ensures var end := Finish(s, c, env);
            if FinishUpload in env.faults || UploadOf(c.file) !in s.uploads
            then end.call.outcome == Failed(Internal) && end.store == s
            else EndsWith(s, end, c.file, c.handed, c.req.checksum, env)
  {
    AtFinish(s, c, env);
    if FinishUpload !in env.faults && UploadOf(c.file) in s.uploads {
      ConfirmingEnds(s, c.Goto(ConfirmRow), c.handed, env);
    }
  }

  lemma SelectedSucceedsIff(s: Store, c: Call, env: Env)
    requires c.req.CompleteMultipart? && c.pc == SelectParts
    requires c.req.id in s.rows && s.rows[c.req.id].id == c.req.id && PendingMultipart(s.rows[c.req.id])
    requires c.file == s.rows[c.req.id]
    ensures var end, parts, total := Finish(s, c, env), PartsOf(s, c.req.id), c.file.TotalParts();
            if SelectParts in env.faults then end.call.outcome == Failed(Internal) && end.store == s
            else if total < 0 || parts.Keys != Completion.AllNumbers(total)
            then end.call.outcome == Failed(InvalidInput) && end.store == s
            else if FinishUpload in env.faults || UploadOf(c.file) !in s.uploads
            then end.call.outcome == Failed(Internal) && end.store == s
            else EndsWith(s, end, c.file, Completion.InOrder(parts, total), c.req.checksum, env)
  {
    var parts, total := PartsOf(s, c.req.id), c.file.TotalParts();
    AtSelect(s, c, env);
    Completion.CompletionIff(parts, total);
    if SelectParts !in env.faults && total >= 0 && parts.Keys == Completion.AllNumbers(total) {
      AssemblingSucceedsIff(s, c.(handed := Completion.Handed(Completion.Listing(parts)), pc := FinishUpload), env);
    }
  }

  /** Why a completion is refused before storage assembles anything. */
  ghost function CompleteRefusal(s: Store, req: Request, env: Env): Error
    requires req.CompleteMultipart?
  {
    var got := PendingFor(s.rows, req.id, req.owner, ReadRow !in env.faults);
    if !Validation.ValidChecksum(req.checksum) then InvalidInput
    else if got.Err? then got.error
    else if SelectParts in env.faults then Internal
    else if got.value.TotalParts() < 0 || PartsOf(s, RowId(req)).Keys != Completion.AllNumbers(got.value.TotalParts())
    then InvalidInput
    else Internal
  }

  lemma BadChecksumFails(cfg: Config, s: Store, req: Request, env: Env)
    requires req.CompleteMultipart? && !Validation.ValidChecksum(req.checksum)
    ensures Perform(cfg, s, req, env).call.outcome == Failed(InvalidInput) && Perform(cfg, s, req, env).store == s
  {
  }

  /** A completion that has found its pending row. */
  lemma CompletesFound(cfg: Config, s: Store, req: Request, f: FileMetadata, env: Env)
    requires req.CompleteMultipart? && ChecksumOk(req)
    requires PendingFor(s.rows, req.id, req.owner, ReadRow !in env.faults) == Ok(f) && f.id == RowId(req)
    ensures var end, parts, total := Perform(cfg, s, req, env), PartsOf(s, RowId(req)), f.TotalParts();
            if SelectParts in env.faults then end.call.outcome == Failed(Internal) && end.store == s
            else if total < 0 || parts.Keys != Completion.AllNumbers(total)
            then end.call.outcome == Failed(InvalidInput) && end.store == s
            else if FinishUpload in env.faults || UploadOf(f) !in s.uploads
            then end.call.outcome == Failed(Internal) && end.store == s
            else EndsWith(s, end, f, Completion.InOrder(parts, total), req.checksum, env)
  {
    PendingComplete(cfg, s, req, env);
    SelectedSucceedsIff(s, Call(Resolved(req), req.id, SelectParts, f, [], OkDone), env);
  }

  /** CompleteMultipartUpload gets as far as storage exactly for the owner of a pending multipart
      file whose upload is open and whose reported parts are 1..N. Storage then closes the upload
      and assembles the object from (1,e1), ..., (N,eN); the row becomes ready with the caller's
      checksum and the time of the call, and the part rows go. A failure changes nothing, but for
      one: a repository failure after storage has assembled the object leaves a pending row whose
      upload is closed. */
  lemma CompleteSucceedsIff(cfg: Config, s: Store, req: Request, env: Env)
    requires req.CompleteMultipart? && (RowId(req) in s.rows ==> s.rows[RowId(req)].id == RowId(req))
    ensures var end := Perform(cfg, s, req, env);
            if CanAssemble(s, req, env) then
              var f := s.rows[RowId(req)];
              EndsWith(s, end, f, Completion.InOrder(PartsOf(s, RowId(req)), f.TotalParts()), req.checksum, env)
            else end.call.outcome == Failed(CompleteRefusal(s, req, env)) && end.store == s
  {
    if ChecksumOk(req) {
      var got := PendingFor(s.rows, req.id, req.owner, ReadRow !in env.faults);
      if got.Ok? { CompletesFound(cfg, s, req, got.value, env); } else { PendingComplete(cfg, s, req, env); }
    } else {
      BadChecksumFails(cfg, s, req, env);
    }
  }

  // ---------- creation ----------

  /** The key the file of a creation is stored under. */
  function NewKey(req: Request): string
    requires IsCreate(req)
  {
    ObjectKeys.ObjectKey(req.owner, req.id, req.name)
  }

  /** No row has the id, and none has the key. */
  predicate IsFree(rows: map<string, FileMetadata>, req: Request)
    requires IsCreate(req)
  {
    req.id !in rows && forall id | id in rows :: rows[id].objectKey != NewKey(req)
  }

  /** The caller gets the record of its creation, and the record is the new row. */
  ghost predicate IsCreated(cfg: Config, s: Store, end: State, req: Request, env: Env) {
    && IsCreate(req) && end.call.outcome.OkFile?
    && var f := end.call.outcome.file;
    && IsNewRecord(cfg, req, env.now, env.uploadId, f)
    && end.store == Told(s.(rows := s.rows[req.id := f]), FileCreated, f, env)
  }

  predicate AcceptsUpload(cfg: Config, req: Request) {
    && req.CreateUpload?
    && Validation.ValidCreate(req.owner, req.name, req.contentType, req.size, cfg.maxSize)
    && PageTokens.IsCanonical(req.id)
  }

  lemma BeginUpload(cfg: Config, req: Request, now: int64)
    requires req.CreateUpload?
    ensures var c := Begin(cfg, req, now);
            if AcceptsUpload(cfg, req) then c.req == req && c.pc == PresignUpload && c.file == NewFile(cfg, req, now)
            else
              && c.pc == Returned
              && c.outcome == Failed(if Validation.ValidCreate(req.owner, req.name, req.contentType, req.size, cfg.maxSize)
                                     then Internal else InvalidInput)
  {
  }

  /** CreateUpload succeeds exactly for an accepted request whose URL is signed and whose id and key
      are free. It stores and returns a pending single-mode record that carries what the request
      says, the configured bucket and the time of the call; a failure changes nothing. */
  lemma CreateUploadSucceedsIff(cfg: Config, s: Store, req: Request, env: Env)
    requires req.CreateUpload?
    ensures var end := Perform(cfg, s, req, env);
            if AcceptsUpload(cfg, req) && PresignUpload !in env.faults && InsertRow !in env.faults && IsFree(s.rows, req)
            then IsCreated(cfg, s, end, req, env)
            else
              && end.store == s
              && end.call.outcome ==
                 Failed(if Validation.ValidCreate(req.owner, req.name, req.contentType, req.size, cfg.maxSize)
                        then Internal else InvalidInput)
  {
    var c, f := Begin(cfg, req, env.now), NewFile(cfg, req, env.now);
    BeginUpload(cfg, req, env.now);
    NewFileIsNew(cfg, req, env.now, env.uploadId);
    if AcceptsUpload(cfg, req) {
      OneStep(s, c, env);
      if PresignUpload !in env.faults {
        AtInsert(s, c.Goto(InsertRow), env);
        if InsertRow !in env.faults && Insertable(s.rows, f) {
          TailSucceeds(Apply(s, PutRow(f)), c.Goto(FillCache), env);
        }
      }
    }
  }

  predicate AcceptsCreate(cfg: Config, req: Request) {
    && req.CreateMultipart?
    && Validation.ValidCreate(req.owner, req.name, req.contentType, req.size, cfg.maxSize)
    && req.size > cfg.partSize && PageTokens.IsCanonical(req.id)
  }

  /** Why a multipart creation is refused. */
  function CreateRefusal(cfg: Config, req: Request): Error
    requires req.CreateMultipart?
  {
    if Validation.ValidCreate(req.owner, req.name, req.contentType, req.size, cfg.maxSize) && req.size > cfg.partSize
    then Internal else InvalidInput
  }

  lemma BeginMultipart(cfg: Config, req: Request, now: int64)
    requires req.CreateMultipart?
    ensures var c := Begin(cfg, req, now);
            if AcceptsCreate(cfg, req) then c.req == req && c.pc == OpenUpload && c.file == NewFile(cfg, req, now)
            else c.pc == Returned && c.outcome == Failed(CreateRefusal(cfg, req))
  {
  }

  /** The upload a multipart creation opens. */
  function NewUpload(req: Request, env: Env): Upload
    requires req.CreateMultipart?
  {
    Upload(NewKey(req), env.uploadId)
  }

  predicate OpensUpload(cfg: Config, s: Store, req: Request, env: Env) {
    && AcceptsCreate(cfg, req)
    && OpenUpload !in env.faults && env.uploadId != "" && NewUpload(req, env) !in s.issued
  }

  lemma InsertingSucceedsIff(s: Store, c: Call, env: Env)
    requires c.req.CreateMultipart? && c.pc == InsertRow && UploadOf(c.file) in s.uploads
    ensures var end, u := Finish(s, c, env), UploadOf(c.file);
            if InsertRow !in env.faults && Insertable(s.rows, c.file) then
              && end.call.outcome == OkFile(c.file)
              && end.store == Told(s.(rows := s.rows[c.file.id := c.file]), FileCreated, c.file, env)
            else
              && end.call.outcome == Failed(Internal)
              && end.store == s.(uploads := if RollbackUpload in env.faults then s.uploads else s.uploads - {u})
  {
    AtInsert(s, c, env);
    if InsertRow !in env.faults && Insertable(s.rows, c.file) {
      TailSucceeds(Apply(s, PutRow(c.file)), c.Goto(FillCache), env);
    } else {
      OneStep(s, c.Goto(RollbackUpload), env);
    }
  }

  /** Storage has opened the upload. */
  function Opened(s: Store, u: Upload): Store {
    s.(uploads := s.uploads + {u}, issued := s.issued + {u})
  }

  lemma OpeningSucceedsIff(s: Store, c: Call, env: Env)
    requires c.req.CreateMultipart? && c.pc == OpenUpload && s.uploads <= s.issued
    ensures var end, f := Finish(s, c, env), c.file.(uploadId := env.uploadId);
            var u := UploadOf(f);
            if OpenUpload in env.faults || env.uploadId == "" || u in s.issued
            then end.call.outcome == Failed(Internal) && end.store == s
            else if InsertRow !in env.faults && Insertable(s.rows, f) then
              && end.call.outcome == OkFile(f)
              && end.store == Told(Opened(s, u).(rows := s.rows[f.id := f]), FileCreated, f, env)
            else
              && end.call.outcome == Failed(Internal)
              && end.store == if RollbackUpload in env.faults then Opened(s, u) else Opened(s, u).(uploads := s.uploads)
  {
    var f := c.file.(uploadId := env.uploadId);
    var u := UploadOf(f);
    AtOpen(s, c, env);
    if OpenUpload !in env.faults && env.uploadId != "" && u !in s.issued {
      assert (s.uploads + {u}) - {u} == s.uploads;
      InsertingSucceedsIff(Apply(s, Open(u)), c.(file := f, pc := InsertRow), env);
    }
  }

  /** A multipart creation either adds a row and its open upload together or, unless the rollback
      fails too, adds neither. The record it stores and returns is pending and multipart, with what
      the request says, the configured bucket and part size, the upload storage opened and the time
      of the call. */
  lemma CreateMultipartSucceedsIff(cfg: Config, s: Store, req: Request, env: Env)
    requires req.CreateMultipart? && s.uploads <= s.issued
    ensures var end := Perform(cfg, s, req, env);
            if !OpensUpload(cfg, s, req, env) then
              end.call.outcome == Failed(CreateRefusal(cfg, req)) && end.store == s
            else
              var s' := Opened(s, NewUpload(req, env));
              if InsertRow !in env.faults && IsFree(s.rows, req) then IsCreated(cfg, s', end, req, env)
              else
                && end.call.outcome == Failed(Internal)
                && end.store == if RollbackUpload in env.faults then s' else s'.(uploads := s.uploads)
  {
    var c := Begin(cfg, req, env.now);
    BeginMultipart(cfg, req, env.now);
    NewFileIsNew(cfg, req, env.now, env.uploadId);
    if AcceptsCreate(cfg, req) { OpeningSucceedsIff(s, c, env); }
  }

  // ---------- accounting, call by call ----------

  /** Storage holds open exactly the uploads of the pending multipart rows. */
  ghost predicate Balanced(s: Store) {
    s.uploads == PendingUploads(s.rows)
  }

  lemma BalancedStore(cfg: Config, s: Store)
    requires InBalance(cfg, s)
    ensures Balanced(s) && RowsOk(cfg, s)
  {
    QuietAccounts(System(s, map[]));
  }

  /** A row that leaves pending takes its upload out of the account. */
  lemma PendingWithout(cfg: Config, s: Store, id: string, row: FileMetadata)
    requires RowsOk(cfg, s) && id in s.rows && !PendingMultipart(row)
    ensures PendingUploads(s.rows[id := row]) ==
            PendingUploads(s.rows) - if PendingMultipart(s.rows[id]) then {UploadOf(s.rows[id])} else {}
  {
    var rows' := s.rows[id := row];
    UploadNamesRow(cfg, s, id);
    forall u | u in PendingUploads(rows')
      ensures u in PendingUploads(s.rows) && (PendingMultipart(s.rows[id]) ==> u != UploadOf(s.rows[id]))
    {
      var k :| k in rows' && PendingMultipart(rows'[k]) && UploadOf(rows'[k]) == u;
      assert k != id && rows'[k] == s.rows[k];
    }
    forall u | u in PendingUploads(s.rows) && !(PendingMultipart(s.rows[id]) && u == UploadOf(s.rows[id]))
      ensures u in PendingUploads(rows')
    {
      var k :| k in s.rows && PendingMultipart(s.rows[k]) && UploadOf(s.rows[k]) == u;
      assert k != id && rows'[k] == s.rows[k];
    }
  }

  lemma PendingWith(rows: map<string, FileMetadata>, f: FileMetadata)
    requires f.id !in rows && PendingMultipart(f)
    ensures PendingUploads(rows[f.id := f]) == PendingUploads(rows) + {UploadOf(f)}
  {
    var rows' := rows[f.id := f];
    assert rows'[f.id] == f && PendingMultipart(rows'[f.id]);
    forall u | u in PendingUploads(rows) ensures u in PendingUploads(rows') {
      var k :| k in rows && PendingMultipart(rows[k]) && UploadOf(rows[k]) == u;
      assert rows'[k] == rows[k];
    }
  }

  /** From a balanced store, a successful ConfirmUpload leaves the uploads accounted for exactly
      when the file is not a multipart upload. */
  lemma ConfirmBalancesIff(cfg: Config, s: Store, req: Request, env: Env)
    requires InBalance(cfg, s) && req.ConfirmUpload? && Confirmable(s, req, env)
    ensures Balanced(Perform(cfg, s, req, env).store) <==> !s.rows[RowId(req)].IsMultipart()
  {
    var id := RowId(req);
    BalancedStore(cfg, s);
    assert s.rows[id].id == id;
    ConfirmSucceedsIff(cfg, s, req, env);
    PendingWithout(cfg, s, id, Perform(cfg, s, req, env).call.outcome.file);
    if s.rows[id].IsMultipart() { assert UploadOf(s.rows[id]) in s.uploads; }
  }

  lemma CompletedUploads(cfg: Config, s: Store, req: Request, env: Env)
    requires req.CompleteMultipart? && (RowId(req) in s.rows ==> s.rows[RowId(req)].id == RowId(req))
    ensures var s', id := Perform(cfg, s, req, env).store, RowId(req);
            if !CanAssemble(s, req, env) then s' == s
            else
              && s'.uploads == s.uploads - {UploadOf(s.rows[id])}
              && if ConfirmRow in env.faults then s'.rows == s.rows
                 else id in s'.rows && s'.rows == s.rows[id := s'.rows[id]] && s'.rows[id].status == Ready
  {
    CompleteSucceedsIff(cfg, s, req, env);
  }

  /** A completion leaves the uploads accounted for, unless the row update fails after the upload
      was closed. */
  lemma CompleteBalancesIff(cfg: Config, s: Store, req: Request, env: Env)
    requires InBalance(cfg, s) && req.CompleteMultipart?
    ensures Balanced(Perform(cfg, s, req, env).store) <==> !(CanAssemble(s, req, env) && ConfirmRow in env.faults)
  {
    var id := RowId(req);
    BalancedStore(cfg, s);
    assert id in s.rows ==> s.rows[id].id == id;
    CompletedUploads(cfg, s, req, env);
    if CanAssemble(s, req, env) {
      if ConfirmRow !in env.faults { PendingWithout(cfg, s, id, Perform(cfg, s, req, env).store.rows[id]); }
      assert UploadOf(s.rows[id]) in PendingUploads(s.rows);
    }
  }

  /** An abort leaves the uploads accounted for exactly when its close and its row update both
      succeed or both fail. */
  lemma AbortBalancesIff(cfg: Config, s: Store, req: Request, env: Env)
    requires InBalance(cfg, s) && req.AbortMultipart?
    ensures Balanced(Perform(cfg, s, req, env).store) <==>
            PendingFor(s.rows, req.id, req.owner, ReadRow !in env.faults).Err? ||
            (AbortUpload in env.faults <==> SoftDelete in env.faults)
  {
    var id, got := RowId(req), PendingFor(s.rows, req.id, req.owner, ReadRow !in env.faults);
    BalancedStore(cfg, s);
    assert id in s.rows ==> s.rows[id].id == id;
    AbortSucceedsIff(cfg, s, req, env);
    if got.Ok? {
      if SoftDelete !in env.faults { PendingWithout(cfg, s, id, Perform(cfg, s, req, env).store.rows[id]); }
      assert UploadOf(s.rows[id]) in PendingUploads(s.rows);
    }
  }

  /** The upload of a copy that is no longer pending is in nobody's account. */
  lemma StaleUploadIsClosed(cfg: Config, s: Store, id: string, f: FileMetadata)
    requires RowsOk(cfg, s) && Balanced(s) && Version(cfg, s, id, f) && !PendingMultipart(s.rows[id])
    ensures UploadOf(f) !in s.uploads
  {
    forall k | k in s.rows && PendingMultipart(s.rows[k]) ensures UploadOf(s.rows[k]) != UploadOf(f) {
      assert s.rows[k].objectKey == s.rows[id].objectKey ==> k == id;
    }
  }

  /** A delete closes the upload of its copy: of a pending multipart row, that of the row; of any
      other, one that is not open. */
  lemma DeletedUploads(cfg: Config, s: Store, req: Request, env: Env)
    requires StoreInv(cfg, s) && Balanced(s) && req.DeleteFile? && Deletable(s, req, env)
    requires ReadThrough(s, req.id, req.owner, env).Ok?
    ensures var s', id := Perform(cfg, s, req, env).store, RowId(req);
            && id in s'.rows && s'.rows == s.rows[id := s'.rows[id]] && s'.rows[id].status == Deleted
            && s'.uploads == if PendingMultipart(s.rows[id]) && AbortUpload !in env.faults
                             then s.uploads - {UploadOf(s.rows[id])} else s.uploads
  {
    var id, f := RowId(req), ReadThrough(s, req.id, req.owner, env).value;
    DeleteSucceedsIff(cfg, s, req, env);
    ReadsVersion(cfg, s, req, env);
    assert s.rows[id].status == Pending ==> f == s.rows[id];
    if PendingMultipart(f) && !PendingMultipart(s.rows[id]) { StaleUploadIsClosed(cfg, s, id, f); }
  }

  /** DeleteFile leaves the uploads accounted for, unless it deletes a pending multipart row and
      fails to close its upload. */
  lemma DeleteBalancesIff(cfg: Config, s: Store, req: Request, env: Env)
    requires InBalance(cfg, s) && req.DeleteFile?
    ensures Balanced(Perform(cfg, s, req, env).store) <==>
            !(Deletable(s, req, env) && PendingMultipart(s.rows[RowId(req)]) && AbortUpload in env.faults)
  {
    var id := RowId(req);
    BalancedStore(cfg, s);
    DeleteSucceedsIff(cfg, s, req, env);
    if Deletable(s, req, env) {
      DeletedUploads(cfg, s, req, env);
      PendingWithout(cfg, s, id, Perform(cfg, s, req, env).store.rows[id]);
      if PendingMultipart(s.rows[id]) { assert UploadOf(s.rows[id]) in PendingUploads(s.rows); }
    }
  }

  /** A multipart creation leaves the uploads accounted for, unless its insertion and its rollback
      both fail. */
  lemma CreateBalancesIff(cfg: Config, s: Store, req: Request, env: Env)
    requires InBalance(cfg, s) && req.CreateMultipart?
    ensures Balanced(Perform(cfg, s, req, env).store) <==>
            !(&& OpensUpload(cfg, s, req, env) && RollbackUpload in env.faults
              && (InsertRow in env.faults || !IsFree(s.rows, req)))
  {
    BalancedStore(cfg, s);
    CreateMultipartSucceedsIff(cfg, s, req, env);
    if OpensUpload(cfg, s, req, env) {
      if InsertRow !in env.faults && IsFree(s.rows, req) {
        PendingWith(s.rows, Perform(cfg, s, req, env).call.outcome.file);
      }
      assert NewUpload(req, env) !in s.uploads;
    }
  }

  /** A multipart creation and a ConfirmUpload of its file orphan the upload, on any input. */
  lemma CreateThenConfirmOrphans(cfg: Config, create: Request, confirm: Request, env: Env)
    requires OpensUpload(cfg, EMPTY, create, env) && env.faults == {}
    requires confirm.ConfirmUpload? && RowId(confirm) == create.id && confirm.owner == create.owner
    requires confirm.id != "" && Validation.ValidChecksum(confirm.checksum)
    ensures var s := Play(cfg, EMPTY, [Do(create, env), Do(confirm, env)]);
            s.uploads == {NewUpload(create, env)} && PendingUploads(s.rows) == {}
  {
    var s := Perform(cfg, EMPTY, create, env).store;
    PlayTwo(cfg, Do(create, env), Do(confirm, env));
    assert PageTokens.IsCanonical(create.id);
    CreateMultipartSucceedsIff(cfg, EMPTY, create, env);
    ConfirmSucceedsIff(cfg, s, confirm, env);
  }

  lemma ExampleIsAccepted(cfg: Config, size: int64)
    requires size > 0 && size > cfg.partSize && (cfg.maxSize <= 0 || size <= cfg.maxSize)
    ensures AcceptsCreate(cfg, CreateMultipart(PageTokens.Repdigit('0'), "owner", "name", "a/b", size))
  {
    Validation.PlainContentType();
    PageTokens.RepdigitIsCanonical('0');
  }

  /** Such a run exists: the accounting law does not hold without its condition on ConfirmUpload. */
  lemma ConfirmOrphansUpload(cfg: Config)
    requires ValidConfig(cfg) && cfg.partSize < MAX_INT64 && (cfg.maxSize <= 0 || cfg.maxSize > cfg.partSize)
    ensures var id, env := PageTokens.Repdigit('0'), Env({}, 0, "upload");
            var create := CreateMultipart(id, "owner", "name", "a/b", cfg.partSize + 1);
            var s := Play(cfg, EMPTY, [Do(create, env), Do(ConfirmUpload(id, "owner", ""), env)]);
            s.uploads != {} && PendingUploads(s.rows) == {}
  {
    var id, env := PageTokens.Repdigit('0'), Env({}, 0, "upload");
    var create := CreateMultipart(id, "owner", "name", "a/b", cfg.partSize + 1);
    ExampleIsAccepted(cfg, cfg.partSize + 1);
    assert OpensUpload(cfg, EMPTY, create, env);
    Uuids.CanonicalParses(id);
    CreateThenConfirmOrphans(cfg, create, ConfirmUpload(id, "owner", ""), env);
  }
}
