/** Laws that let one call be followed through the statements of another. */
module Calls {
  import opened Domain
  import opened Protocol
  import opened Lifecycle
  import opened Sequential
  import Completion
  import PageTokens
  import Uuids
  import Validation

  /** One statement of a call in progress: the call still comes to the same end. */
  lemma Took(s: Store, c: Call, env: Env, s': Store, c': Call, end: State)
    requires Legal(c) && c.pc != Returned && Finish(s, c, env) == end
    requires Step(s, c, ReplyAt(env, c.pc)) == State(s', c')
    ensures Legal(c') && Finish(s', c', env) == end
  {
    OneStep(s, c, env);
  }

  // ---------- GetFile inside GetDownloadURL and DeleteFile ----------

  /** Two reads of the same file for the same caller. */
  predicate SameRead(c: Call, d: Call) {
    && IsRead(c.req) && d.req.GetFile? && c.req.id == d.req.id && c.req.owner == d.req.owner
    && c == d.(req := c.req)
  }

  /** How a read ends whose GetFile ended in st. */
  ghost predicate ReadsAs(st: State, c: Call, whole: State, env: Env) {
    match st.call.outcome
    case OkFile(f) =>
      Legal(AfterRead(c.(file := f))) && whole == Finish(st.store, AfterRead(c.(file := f)), env)
    case Failed(e) => whole.store == st.store && whole.call.outcome == Failed(e)
    case _ => false
  }

  /** AfterRead does not look at the program counter. */
  lemma AfterReadForgetsPc(c: Call, c1: Call, f: FileMetadata)
    requires IsRead(c.req) && c1 == c.(pc := c1.pc, file := c1.file)
    ensures AfterRead(c1.(file := f)) == AfterRead(c.(file := f)) && Legal(AfterRead(c.(file := f)))
  {
  }

  lemma FillsAlike(s: Store, c: Call, d: Call, env: Env)
    requires SameRead(c, d) && c.pc == FillCache
    ensures ReadsAs(Finish(s, d, env), c, Finish(s, c, env), env)
    ensures Finish(s, d, env).call.outcome == OkFile(d.file)
  {
    OneStep(s, c, env);
    OneStep(s, d, env);
    AfterReadForgetsPc(c, c, c.file);
  }

  lemma RowReadsAlike(s: Store, c: Call, d: Call, env: Env)
    requires SameRead(c, d) && c.pc == ReadRow
    ensures ReadsAs(Finish(s, d, env), c, Finish(s, c, env), env)
  {
    var r := ReplyAt(env, ReadRow);
    OneStep(s, c, env);
    OneStep(s, d, env);
    if && r.ok && PageTokens.IsCanonical(c.req.id) && c.req.id in s.rows
       && s.rows[c.req.id].owner == c.req.owner && s.rows[c.req.id].status != Deleted
    {
      var f := s.rows[c.req.id];
      var c1, d1 := c.(pc := FillCache, file := f), d.(pc := FillCache, file := f);
      assert Step(s, c, r) == State(s, c1) && Step(s, d, r) == State(s, d1);
      FillsAlike(s, c1, d1, env);
      AfterReadForgetsPc(c, c1, f);
    }
  }

  lemma ReadsAsForgetsPc(st: State, c: Call, c1: Call, whole: State, env: Env)
    requires IsRead(c.req) && c1 == c.(pc := c1.pc) && ReadsAs(st, c1, whole, env)
    ensures ReadsAs(st, c, whole, env)
  {
    if st.call.outcome.OkFile? { AfterReadForgetsPc(c, c1, st.call.outcome.file); }
  }

  lemma CacheReadsAlike(s: Store, c: Call, d: Call, env: Env)
    requires SameRead(c, d) && c.pc == ReadCache
    ensures ReadsAs(Finish(s, d, env), c, Finish(s, c, env), env)
  {
    var r, id := ReplyAt(env, ReadCache), c.spelled;
    OneStep(s, c, env);
    OneStep(s, d, env);
    if r.ok && id in s.cache && (s.cache[id].owner != c.req.owner || s.cache[id].status != Deleted) {
      AfterReadForgetsPc(c, c, s.cache[id]);
    } else {
      var c1, d1 := c.Goto(ReadRow), d.Goto(ReadRow);
      assert Step(s, c, r) == State(s, c1) && Step(s, d, r) == State(s, d1);
      RowReadsAlike(s, c1, d1, env);
      ReadsAsForgetsPc(Finish(s, d1, env), c, c1, Finish(s, c1, env), env);
    }
  }

  /** GetDownloadURL and DeleteFile are GetFile followed by their own statements. */
  lemma ReadsThroughGetFile(cfg: Config, s: Store, req: Request, env: Env)
    requires IsRead(req)
    ensures ReadsAs(Perform(cfg, s, GetFile(req.id, req.owner), env), Begin(cfg, req, env.now), Perform(cfg, s, req, env), env)
  {
    var c, d := Begin(cfg, req, env.now), Begin(cfg, GetFile(req.id, req.owner), env.now);
    BeginIsLegal(cfg, req, env.now);
    if c.pc == ReadCache { CacheReadsAlike(s, c, d, env); }
  }

  // ---------- getPendingMultipart ----------

  predicate NeedsPending(req: Request) {
    req.GetPartUrl? || req.ReportPart? || req.ListParts? || req.CompleteMultipart? || req.AbortMultipart?
  }

  /** The row a request names. */
  function RowId(req: Request): string {
    Uuids.Canon(req.id)
  }

  /** The row with an id; a text that is no UUID is an error of the statement. */
  function RowWith(rows: map<string, FileMetadata>, id: string, ok: bool): Result<FileMetadata> {
    if !ok || !PageTokens.IsCanonical(id) then Err(Internal) else if id !in rows then Err(NotFound) else Ok(rows[id])
  }

  /** SELECT ... WHERE id = $1: the column reads the text as a UUID. */
  function Lookup(rows: map<string, FileMetadata>, text: string, ok: bool): Result<FileMetadata> {
    RowWith(rows, Uuids.Canon(text), ok)
  }

  function PendingRow(file: Result<FileMetadata>, owner: string): Result<FileMetadata> {
    if file.Err? then file
    else if !file.value.IsOwnedBy(owner) then Err(AccessDenied)
    else if file.value.status != Pending then Err(NotFound)
    else if !file.value.IsMultipart() || file.value.uploadId == "" then Err(InvalidInput)
    else file
  }

  /** getPendingMultipart: the row, or why the caller does not get it. */
  function PendingFor(rows: map<string, FileMetadata>, text: string, owner: string, ok: bool): Result<FileMetadata> {
    if text == "" || owner == "" then Err(InvalidInput) else PendingRow(Lookup(rows, text, ok), owner)
  }

  /** It finds exactly the caller's own pending multipart row, and tells the reasons apart. */
  lemma PendingForIff(rows: map<string, FileMetadata>, text: string, owner: string, ok: bool)
    ensures var got, id := PendingFor(rows, text, owner, ok), Uuids.Canon(text);
            var asked, found := text != "" && owner != "", ok && PageTokens.IsCanonical(id) && id in rows;
            && (got.Ok? <==> asked && found && rows[id].owner == owner && rows[id].status == Pending &&
                             rows[id].mode == Multipart && rows[id].uploadId != "")
            && (got.Ok? ==> got.value == rows[id])
            && (got == Err(Internal) <==> asked && !(ok && PageTokens.IsCanonical(id)))
            && (got == Err(AccessDenied) <==> asked && found && rows[id].owner != owner)
            && (got == Err(NotFound) <==>
                  asked && ok && PageTokens.IsCanonical(id) &&
                  (id !in rows || (rows[id].owner == owner && rows[id].status != Pending)))
            && (got == Err(InvalidInput) <==>
                  !asked || (found && rows[id].owner == owner && rows[id].status == Pending &&
                             (rows[id].mode != Multipart || rows[id].uploadId == "")))
  {
  }

  /** The checks of Begin that are not part of getPendingMultipart. */
  predicate ChecksumOk(req: Request) {
    req.CompleteMultipart? ==> Validation.ValidChecksum(req.checksum)
  }

  lemma BeginReadsRow(cfg: Config, req: Request, now: int64)
    requires NeedsPending(req) && ChecksumOk(req)
    ensures var c := Begin(cfg, req, now);
            if req.id == "" || req.owner == "" then c.pc == Returned && c.outcome == Failed(InvalidInput)
            else c.pc == ReadRow
  {
  }

  lemma PendingStep(s: Store, c: Call, env: Env)
    requires NeedsPending(c.req) && c.pc == ReadRow
    ensures var got := PendingRow(RowWith(s.rows, c.req.id, ReadRow !in env.faults), c.req.owner);
            var end := Finish(s, c, env);
            if got.Ok? then Legal(OnPending(c, got.value)) && end == Finish(s, OnPending(c, got.value), env)
            else end.store == s && end.call.outcome == Failed(got.error)
  {
    OneStep(s, c, env);
  }

  lemma PendingRead(cfg: Config, s: Store, req: Request, env: Env)
    requires NeedsPending(req) && ChecksumOk(req)
    ensures var got := PendingFor(s.rows, req.id, req.owner, ReadRow !in env.faults);
            var c, end := Begin(cfg, req, env.now), Perform(cfg, s, req, env);
            if got.Ok? then
              c.pc == ReadRow && Legal(OnPending(c, got.value)) && end == Finish(s, OnPending(c, got.value), env)
            else end.store == s && end.call.outcome == Failed(got.error)
  {
    var c := Begin(cfg, req, env.now);
    BeginIsLegal(cfg, req, env.now);
    BeginShape(cfg, req, env.now);
    BeginReadsRow(cfg, req, env.now);
    if c.pc == ReadRow { PendingStep(s, c, env); }
  }

  lemma PendingAbort(cfg: Config, s: Store, req: Request, env: Env)
    requires req.AbortMultipart?
    ensures var got, end := PendingFor(s.rows, req.id, req.owner, ReadRow !in env.faults), Perform(cfg, s, req, env);
            if got.Ok? then end == Finish(s, Call(Resolved(req), req.id, AbortUpload, got.value, [], OkDone), env)
            else end.store == s && end.call.outcome == Failed(got.error)
  {
    PendingRead(cfg, s, req, env);
  }

  lemma PendingList(cfg: Config, s: Store, req: Request, env: Env)
    requires req.ListParts?
    ensures var got, end := PendingFor(s.rows, req.id, req.owner, ReadRow !in env.faults), Perform(cfg, s, req, env);
            if got.Ok? then end == Finish(s, Call(Resolved(req), req.id, SelectParts, got.value, [], OkDone), env)
            else end.store == s && end.call.outcome == Failed(got.error)
  {
    PendingRead(cfg, s, req, env);
  }

  lemma PendingComplete(cfg: Config, s: Store, req: Request, env: Env)
    requires req.CompleteMultipart? && ChecksumOk(req)
    ensures var got, end := PendingFor(s.rows, req.id, req.owner, ReadRow !in env.faults), Perform(cfg, s, req, env);
            if got.Ok? then end == Finish(s, Call(Resolved(req), req.id, SelectParts, got.value, [], OkDone), env)
            else end.store == s && end.call.outcome == Failed(got.error)
  {
    PendingRead(cfg, s, req, env);
  }

  /** The row a text names is stored under the id it carries. */
  lemma RowIsNamed(cfg: Config, s: Store, text: string)
    requires StoreInv(cfg, s)
    ensures var id := Uuids.Canon(text); id in s.rows ==> s.rows[id].id == id
  {
  }

  lemma PendingIsNamed(cfg: Config, s: Store, text: string, owner: string, ok: bool)
    requires StoreInv(cfg, s) && PendingFor(s.rows, text, owner, ok).Ok?
    ensures var id, f := Uuids.Canon(text), PendingFor(s.rows, text, owner, ok).value;
            id in s.rows && f == s.rows[id] && f.id == id && Uuids.Canon(id) == id
  {
    RowIsNamed(cfg, s, text);
    Uuids.CanonIsCanonicalIff(text);
  }

  // ---------- statements with several ends ----------

  lemma BeginRead(cfg: Config, req: Request, now: int64)
    requires IsRead(req)
    ensures Begin(cfg, req, now) ==
            if req.id == "" || req.owner == "" then Call(Resolved(req), req.id, Returned, NO_FILE, [], Failed(InvalidInput))
            else Call(Resolved(req), req.id, ReadCache, NO_FILE, [], OkDone)
  {
  }

  lemma DeleteHasCopy(cfg: Config, req: Request, now: int64, f: FileMetadata)
    requires req.DeleteFile? && req.id != "" && req.owner != ""
    ensures AfterRead(Begin(cfg, req, now).(file := f)) == Call(Resolved(req), req.id, SoftDelete, f, [], OkDone)
  {
    BeginRead(cfg, req, now);
  }

  lemma AtReadCache(s: Store, c: Call, env: Env)
    requires c.req.GetFile? && c.pc == ReadCache
    ensures Finish(s, c, env) ==
            if ReadCache in env.faults || c.spelled !in s.cache then Finish(s, c.Goto(ReadRow), env)
            else
              var cached := s.cache[c.spelled];
              if !cached.IsOwnedBy(c.req.owner) then State(s, c.Fail(AccessDenied))
              else if cached.status != Deleted then State(s, c.(file := cached).Return(OkFile(cached)))
              else Finish(s, c.Goto(ReadRow), env)
  {
    OneStep(s, c, env);
  }

  lemma AtReadRow(s: Store, c: Call, env: Env)
    requires c.req.GetFile? && c.pc == ReadRow
    ensures var file := RowWith(s.rows, c.req.id, ReadRow !in env.faults);
            Finish(s, c, env) ==
            if file.Err? then State(s, c.Fail(file.error))
            else if !file.value.IsOwnedBy(c.req.owner) then State(s, c.Fail(AccessDenied))
            else if file.value.status == Deleted then State(s, c.Fail(NotFound))
            else Finish(s, c.(pc := FillCache, file := file.value), env)
  {
    OneStep(s, c, env);
  }

  /** How a call ends that is about to confirm its row. */
  lemma AtConfirm(s: Store, c: Call, env: Env)
    requires IsConfirm(c.req) && c.pc == ConfirmRow
    ensures var end, id := Finish(s, c, env), c.req.id;
            if ConfirmRow in env.faults then end == State(s, c.Fail(Internal))
            else if id !in s.rows || s.rows[id].status != Pending then end == State(s, c.Fail(NotFound))
            else
              var row := Confirmed(s.rows[id], c.req.checksum, env.now);
              var next := if c.req.CompleteMultipart? then DeleteParts else FillCache;
              end == Finish(Apply(s, PutRow(row)), c.(file := row, pc := next), env)
  {
    OneStep(s, c, env);
  }

  lemma AtSoftDelete(s: Store, c: Call, env: Env)
    requires IsDelete(c.req) && c.pc == SoftDelete
    ensures var end, id := Finish(s, c, env), c.req.id;
            if SoftDelete in env.faults then end == State(s, c.Fail(Internal))
            else if id !in s.rows || s.rows[id].status == Deleted then end == State(s, c.Fail(NotFound))
            else
              var next := if c.req.AbortMultipart? then Invalidate
                          else if c.file.IsMultipart() && c.file.uploadId != "" && c.file.status == Pending then AbortUpload
                          else RemoveObject;
              end == Finish(Apply(s, PutRow(SoftDeleted(s.rows[id], env.now))), c.Goto(next), env)
  {
    OneStep(s, c, env);
  }

  lemma AtOpen(s: Store, c: Call, env: Env)
    requires c.req.CreateMultipart? && c.pc == OpenUpload
    ensures var f := c.file.(uploadId := env.uploadId);
            Finish(s, c, env) ==
            if OpenUpload in env.faults || env.uploadId == "" || UploadOf(f) in s.issued then State(s, c.Fail(Internal))
            else Finish(Apply(s, Open(UploadOf(f))), c.(file := f, pc := InsertRow), env)
  {
    OneStep(s, c, env);
  }

  lemma AtInsert(s: Store, c: Call, env: Env)
    requires IsCreate(c.req) && c.pc == InsertRow
    ensures Finish(s, c, env) ==
            if InsertRow !in env.faults && Insertable(s.rows, c.file)
            then Finish(Apply(s, PutRow(c.file)), c.Goto(FillCache), env)
            else if c.req.CreateMultipart? then Finish(s, c.Goto(RollbackUpload), env)
            else State(s, c.Fail(Internal))
  {
    OneStep(s, c, env);
  }

  lemma AtPresign(s: Store, c: Call, env: Env)
    requires c.req.GetDownloadUrl? && c.pc == PresignDownload
    ensures Finish(s, c, env) ==
            State(s, if PresignDownload in env.faults then c.Fail(Internal) else c.Return(OkUrl(c.file.objectKey)))
  {
    OneStep(s, c, env);
  }

  lemma AtSelect(s: Store, c: Call, env: Env)
    requires c.req.CompleteMultipart? && c.pc == SelectParts
    ensures var end, listed := Finish(s, c, env), Completion.Listing(PartsOf(s, c.req.id));
            if SelectParts in env.faults then end == State(s, c.Fail(Internal))
            else if !Completion.PassesChecks(listed, c.file.TotalParts()) then end == State(s, c.Fail(InvalidInput))
            else end == Finish(s, c.(handed := Completion.Handed(listed), pc := FinishUpload), env)
  {
    OneStep(s, c, env);
  }

  lemma AtList(s: Store, c: Call, env: Env)
    requires c.req.ListParts? && c.pc == SelectParts
    ensures var listed := Completion.Listing(PartsOf(s, c.req.id));
            Finish(s, c, env) ==
            State(s, if SelectParts in env.faults then c.Fail(Internal)
                     else c.Return(OkParts(UploadOf(c.file), c.file.partSize, c.file.TotalParts(), listed)))
  {
    OneStep(s, c, env);
  }

  lemma ListsFound(cfg: Config, s: Store, req: Request, f: FileMetadata, env: Env)
    requires req.ListParts? && PendingFor(s.rows, req.id, req.owner, ReadRow !in env.faults) == Ok(f)
    ensures var end, listed := Perform(cfg, s, req, env), Completion.Listing(PartsOf(s, RowId(req)));
            && end.store == s
            && end.call.outcome == if SelectParts in env.faults then Failed(Internal)
                                   else OkParts(Upload(f.objectKey, f.uploadId), f.partSize, f.TotalParts(), listed)
  {
    var c := Call(Resolved(req), req.id, SelectParts, f, [], OkDone);
    PendingList(cfg, s, req, env);
    AtList(s, c, env);
  }

  /** ListUploadParts from beginning to end. */
  lemma ListsParts(cfg: Config, s: Store, req: Request, env: Env)
    requires StoreInv(cfg, s) && req.ListParts?
    ensures var end, got := Perform(cfg, s, req, env), PendingFor(s.rows, req.id, req.owner, ReadRow !in env.faults);
            && end.store == s
            && end.call.outcome ==
               if got.Err? then Failed(got.error)
               else if SelectParts in env.faults then Failed(Internal)
               else
                 var f := got.value;
                 OkParts(Upload(f.objectKey, f.uploadId), f.partSize, f.TotalParts(), Completion.Listing(PartsOf(s, f.id)))
  {
    var got := PendingFor(s.rows, req.id, req.owner, ReadRow !in env.faults);
    if got.Ok? {
      PendingIsNamed(cfg, s, req.id, req.owner, ReadRow !in env.faults);
      ListsFound(cfg, s, req, got.value, env);
    } else {
      PendingList(cfg, s, req, env);
    }
  }

  lemma AtFinish(s: Store, c: Call, env: Env)
    requires c.req.CompleteMultipart? && c.pc == FinishUpload
    ensures var end, u := Finish(s, c, env), UploadOf(c.file);
            if FinishUpload in env.faults || u !in s.uploads then end == State(s, c.Fail(Internal))
            else end == Finish(Apply(s, Assemble(u, c.handed)), c.Goto(ConfirmRow), env)
  {
    OneStep(s, c, env);
  }

  lemma AtSavePart(s: Store, c: Call, env: Env)
    requires c.req.ReportPart? && c.pc == SavePart
    ensures var end, id, part := Finish(s, c, env), c.req.id, UploadPart(NormalizeETag(c.req.etag), env.now);
            if SavePart in env.faults || id !in s.rows then end == State(s, c.Fail(Internal))
            else end == State(Apply(s, PutPart(id, c.req.number, part)), c.Return(OkPart(c.req.number, part)))
  {
    OneStep(s, c, env);
  }
}
