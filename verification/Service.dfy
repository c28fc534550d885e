/** The service and its stores as the code runs them: each call is a method that executes its
    statements in order, and is proved to be one uninterrupted run of the step machine. */
module Service {
  import opened Domain
  import opened Protocol
  import opened Lifecycle
  import opened Sequential
  import opened Calls
  import Completion
  import PageTokens
  import Pagination
  import PartSizes
  import Uuids
  import Validation

  class FileService {
    const cfg: Config
    var rows: map<string, FileMetadata>
    var parts: map<string, map<int32, UploadPart>>
    var cache: map<string, FileMetadata>
    var uploads: set<Upload>
    var issued: set<Upload>
    var objects: map<string, seq<CompletedPart>>
    var events: seq<Event>

    ghost function Contents(): Store
      reads this
    {
      Store(rows, parts, cache, uploads, issued, objects, events)
    }

    ghost predicate Valid()
      reads this
    {
      StoreInv(cfg, Contents())
    }

    constructor (cfg: Config)
      ensures Valid() && Contents() == EMPTY && this.cfg == cfg
    {
      this.cfg := cfg;
      rows, parts, cache, uploads, issued, objects, events := map[], map[], map[], {}, {}, map[], [];
    }

    // ---------- statements of the repository ----------

    method Create(f: FileMetadata, ok: bool) returns (done: bool)
      modifies this`rows
      ensures done <==> ok && Insertable(old(rows), f)
      ensures Contents() == if done then Apply(old(Contents()), PutRow(f)) else old(Contents())
    {
      done := ok && Insertable(rows, f);
      if done {
        rows := rows[f.id := f];
      }
    }

    /** UPDATE ... WHERE id = $1 AND status = 'pending' RETURNING ... */
    method Confirm(text: string, checksum: string, now: int64, ok: bool) returns (r: Result<FileMetadata>)
      requires Uuids.Canon(text) in rows ==> rows[Uuids.Canon(text)].id == Uuids.Canon(text)
      modifies this`rows
      ensures var id := Uuids.Canon(text);
              r == if !ok then Err(Internal)
                   else if id in old(rows) && old(rows)[id].status == Pending
                   then Ok(Confirmed(old(rows)[id], checksum, now))
                   else Err(NotFound)
      ensures Contents() == if r.Ok? then Apply(old(Contents()), PutRow(r.value)) else old(Contents())
    {
      var id := Uuids.Canon(text);
      if !ok {
        return Err(Internal);
      }
      if id !in rows || rows[id].status != Pending {
        return Err(NotFound);
      }
      rows := rows[id := Confirmed(rows[id], checksum, now)];
      return Ok(rows[id]);
    }

    /** UPDATE ... WHERE id = $1 AND status != 'deleted'; None stands for no error. */
    method SoftDelete(text: string, now: int64, ok: bool) returns (err: Option<Error>)
      requires Uuids.Canon(text) in rows ==> rows[Uuids.Canon(text)].id == Uuids.Canon(text)
      modifies this`rows
      ensures var id := Uuids.Canon(text);
              err == if !ok then Some(Internal)
                     else if id in old(rows) && old(rows)[id].status != Deleted then None
                     else Some(NotFound)
      ensures Contents() == if err.None? then Apply(old(Contents()), PutRow(SoftDeleted(old(rows)[Uuids.Canon(text)], now)))
                            else old(Contents())
    {
      var id := Uuids.Canon(text);
      if !ok {
        return Some(Internal);
      }
      if id !in rows || rows[id].status == Deleted {
        return Some(NotFound);
      }
      rows := rows[id := SoftDeleted(rows[id], now)];
      return None;
    }

    /** INSERT ... ON CONFLICT DO UPDATE */
    method SaveUploadPart(id: string, number: int32, part: UploadPart, ok: bool) returns (done: bool)
      modifies this`parts
      ensures done <==> ok && id in rows
      ensures Contents() == if done then Apply(old(Contents()), PutPart(id, number, part)) else old(Contents())
    {
      done := ok && id in rows;
      if done {
        var stored := if id in parts then parts[id] else map[];
        parts := parts[id := stored[number := part]];
      }
    }

    function SelectUploadParts(id: string, ok: bool): Result<seq<Completion.ListedPart>>
      reads this
    {
      if ok then Ok(Completion.Listing(if id in parts then parts[id] else map[])) else Err(Internal)
    }

    method DeleteUploadParts(text: string, ok: bool)
      modifies this`parts
      ensures Contents() == if ok then Apply(old(Contents()), DropParts(Uuids.Canon(text))) else old(Contents())
    {
      if ok {
        parts := parts - {Uuids.Canon(text)};
      }
    }

    // ---------- statements of the cache, storage and the event log ----------

    method SetFile(f: FileMetadata, ok: bool)
      modifies this`cache
      ensures Contents() == if ok then Apply(old(Contents()), PutCache(f)) else old(Contents())
    {
      if ok {
        cache := cache[f.id := f];
      }
    }

    /** The cache key is the text the caller gave. */
    method InvalidateFile(id: string, ok: bool)
      modifies this`cache
      ensures Contents() == if ok then Apply(old(Contents()), DropCache(id)) else old(Contents())
    {
      if ok {
        cache := cache - {id};
      }
    }

    method OpenUpload(key: string, uploadId: string, ok: bool) returns (done: bool)
      modifies this`uploads, this`issued
      ensures done <==> ok && uploadId != "" && Upload(key, uploadId) !in old(issued)
      ensures Contents() == if done then Apply(old(Contents()), Open(Upload(key, uploadId))) else old(Contents())
    {
      var u := Upload(key, uploadId);
      done := ok && uploadId != "" && u !in issued;
      if done {
        uploads, issued := uploads + {u}, issued + {u};
      }
    }

    method CloseUpload(u: Upload, ok: bool)
      modifies this`uploads
      ensures Contents() == if ok then Apply(old(Contents()), Close(u)) else old(Contents())
    {
      if ok {
        uploads := uploads - {u};
      }
    }

    /** Storage assembles the object from the list it is handed. */
    method AssembleUpload(u: Upload, completed: seq<CompletedPart>, ok: bool) returns (done: bool)
      modifies this`uploads, this`objects
      ensures done <==> ok && u in old(uploads)
      ensures Contents() == if done then Apply(old(Contents()), Assemble(u, completed)) else old(Contents())
    {
      done := ok && u in uploads;
      if done {
        uploads, objects := uploads - {u}, objects[u.key := completed];
      }
    }

    method RemoveObject(key: string, ok: bool)
      modifies this`objects
      ensures Contents() == if ok then Apply(old(Contents()), Remove(key)) else old(Contents())
    {
      if ok {
        objects := objects - {key};
      }
    }

    method Publish(kind: EventKind, f: FileMetadata, ok: bool)
      modifies this`events
      ensures Contents() == if ok then Apply(old(Contents()), Emit(EventOf(kind, f))) else old(Contents())
    {
      if ok {
        events := events + [EventOf(kind, f)];
      }
    }

    // ---------- the ends of the calls ----------

    /** The last statements of a creation or a confirmation. */
    method CacheAndPublish(kind: EventKind, file: FileMetadata, env: Env, ghost c: Call, ghost end: State)
      requires c.pc == FillCache && (IsCreate(c.req) || IsConfirm(c.req)) && c.file == file
      requires kind == KindPublished(c.req) && Finish(Contents(), c, env) == end
      modifies this`cache, this`events
      ensures end.store == Contents() && end.call.outcome == OkFile(file)
    {
      ghost var s := Contents();
      SetFile(file, FillCache !in env.faults);
      Took(s, c, env, Contents(), c.Goto(Pc.Publish), end);
      s := Contents();
      Publish(kind, file, Pc.Publish !in env.faults);
      Took(s, c.Goto(Pc.Publish), env, Contents(), c.Return(OkFile(file)), end);
    }

    /** The last statements of a deletion or an abort. */
    method InvalidateAndPublish(id: string, file: FileMetadata, env: Env, ghost c: Call, ghost end: State)
      requires c.pc == Invalidate && IsDelete(c.req) && c.file == file && c.spelled == id
      requires Finish(Contents(), c, env) == end
      modifies this`cache, this`events
      ensures end.store == Contents() && end.call.outcome == OkDone
    {
      ghost var s := Contents();
      InvalidateFile(id, Invalidate !in env.faults);
      Took(s, c, env, Contents(), c.Goto(Pc.Publish), end);
      s := Contents();
      Publish(FileDeleted, SoftDeleted(file, env.now), Pc.Publish !in env.faults);
      Took(s, c.Goto(Pc.Publish), env, Contents(), c.Return(OkDone), end);
    }

    /** Storage closes the upload and the part rows go. */
    method CloseAndDropParts(id: string, file: FileMetadata, env: Env, ghost c: Call, ghost end: State)
      requires IsDelete(c.req) && c.file == file && c.req.id == Uuids.Canon(id) && c.pc == AbortUpload
      requires Finish(Contents(), c, env) == end
      modifies this`uploads, this`parts
      ensures Finish(Contents(), c.Goto(if c.req.AbortMultipart? then Pc.SoftDelete else Invalidate), env) == end
    {
      ghost var s := Contents();
      CloseUpload(UploadOf(file), AbortUpload !in env.faults);
      Took(s, c, env, Contents(), c.Goto(DeleteParts), end);
      s := Contents();
      DeleteUploadParts(id, DeleteParts !in env.faults);
      Took(s, c.Goto(DeleteParts), env, Contents(),
           c.Goto(if c.req.AbortMultipart? then Pc.SoftDelete else Invalidate), end);
    }

    /** After the soft delete of DeleteFile, storage and the part rows are cleaned up. */
    method CleanUp(id: string, file: FileMetadata, env: Env, ghost c: Call, ghost end: State)
      requires c.req.DeleteFile? && c.file == file && c.req.id == Uuids.Canon(id)
      requires c.pc == if file.IsMultipart() && file.uploadId != "" && file.status == Pending then AbortUpload
                       else Pc.RemoveObject
      requires Finish(Contents(), c, env) == end
      modifies this`uploads, this`parts, this`objects
      ensures Finish(Contents(), c.Goto(Invalidate), env) == end
    {
      if file.IsMultipart() && file.uploadId != "" && file.status == Pending {
        CloseAndDropParts(id, file, env, c, end);
      } else {
        ghost var s := Contents();
        RemoveObject(file.objectKey, Pc.RemoveObject !in env.faults);
        Took(s, c, env, Contents(), c.Goto(Invalidate), end);
      }
    }

    /** The statements of a completion whose object is assembled. */
    method ConfirmAssembled(id: string, checksum: string, env: Env, ghost c: Call, ghost end: State)
      returns (outcome: Outcome)
      requires c.req.CompleteMultipart? && c.req.id == Uuids.Canon(id) && c.req.checksum == checksum && c.pc == ConfirmRow
      requires (c.req.id in rows ==> rows[c.req.id].id == c.req.id) && Finish(Contents(), c, env) == end
      modifies this
      ensures end.store == Contents() && end.call.outcome == outcome
    {
      AtConfirm(Contents(), c, env);
      var confirmed := Confirm(id, checksum, env.now, ConfirmRow !in env.faults);
      if confirmed.Err? {
        return Failed(confirmed.error);
      }
      ghost var s, d := Contents(), c.(pc := DeleteParts, file := confirmed.value);
      DeleteUploadParts(id, DeleteParts !in env.faults);
      Took(s, d, env, Contents(), d.Goto(FillCache), end);
      CacheAndPublish(FileReady, confirmed.value, env, d.Goto(FillCache), end);
      return OkFile(confirmed.value);
    }

    /** The statements of a completion whose parts have passed the checks. */
    method AssembleAndConfirm(
      id: string, checksum: string, file: FileMetadata, completed: seq<CompletedPart>, env: Env,
      ghost c: Call, ghost end: State) returns (outcome: Outcome)
      requires c.req.CompleteMultipart? && c.req.id == Uuids.Canon(id) && c.req.checksum == checksum && c.pc == FinishUpload
      requires c.file == file && c.handed == completed && (c.req.id in rows ==> rows[c.req.id].id == c.req.id)
      requires Finish(Contents(), c, env) == end
      modifies this
      ensures end.store == Contents() && end.call.outcome == outcome
    {
      AtFinish(Contents(), c, env);
      var assembled := AssembleUpload(UploadOf(file), completed, FinishUpload !in env.faults);
      if !assembled {
        return Failed(Internal);
      }
      outcome := ConfirmAssembled(id, checksum, env, c.Goto(ConfirmRow), end);
    }

    /** The statements of a completion that has found its pending row. */
    method CheckAndComplete(
      id: string, checksum: string, file: FileMetadata, env: Env, ghost c: Call, ghost end: State)
      returns (outcome: Outcome)
      requires c.req.CompleteMultipart? && c.req.id == Uuids.Canon(id) && c.req.checksum == checksum && c.pc == SelectParts
      requires c.file == file && c.req.id == file.id && (c.req.id in rows ==> rows[c.req.id].id == c.req.id)
      requires Finish(Contents(), c, env) == end
      modifies this
      ensures end.store == Contents() && end.call.outcome == outcome
    {
      AtSelect(Contents(), c, env);
      var listed := SelectUploadParts(file.id, SelectParts !in env.faults);
      if listed.Err? {
        return Failed(listed.error);
      }
      Completion.CheckedIff(listed.value, file.TotalParts());
      var completed := Completion.CheckParts(listed.value, file.TotalParts());
      if completed.Err? {
        return Failed(completed.error);
      }
      outcome := AssembleAndConfirm(id, checksum, file, completed.value, env,
                                    c.(pc := FinishUpload, handed := completed.value), end);
    }

    /** The statements of a delete that has its copy of the row. */
    method DeleteAndCleanUp(id: string, file: FileMetadata, env: Env, ghost c: Call, ghost end: State)
      returns (outcome: Outcome)
      requires c.req.DeleteFile? && c.spelled == id && c.file == file && c.pc == Pc.SoftDelete
      requires c.req.id == Uuids.Canon(id) && (c.req.id in rows ==> rows[c.req.id].id == c.req.id)
      requires Finish(Contents(), c, env) == end
      modifies this
      ensures end.store == Contents() && end.call.outcome == outcome
    {
      AtSoftDelete(Contents(), c, env);
      var err := SoftDelete(id, env.now, Pc.SoftDelete !in env.faults);
      if err.Some? {
        return Failed(err.value);
      }
      ghost var multipart := file.IsMultipart() && file.uploadId != "" && file.status == Pending;
      ghost var d := c.Goto(if multipart then AbortUpload else Pc.RemoveObject);
      CleanUp(id, file, env, d, end);
      InvalidateAndPublish(id, file, env, d.Goto(Invalidate), end);
      return OkDone;
    }

    /** The statements of an abort that has found its pending row. */
    method CloseAndDelete(id: string, file: FileMetadata, env: Env, ghost c: Call, ghost end: State)
      returns (outcome: Outcome)
      requires c.req.AbortMultipart? && c.spelled == id && c.file == file && c.pc == AbortUpload
      requires c.req.id == Uuids.Canon(id) == Uuids.Canon(file.id) && (c.req.id in rows ==> rows[c.req.id].id == c.req.id)
      requires Finish(Contents(), c, env) == end
      modifies this
      ensures end.store == Contents() && end.call.outcome == outcome
    {
      CloseAndDropParts(file.id, file, env, c, end);
      AtSoftDelete(Contents(), c.Goto(Pc.SoftDelete), env);
      var err := SoftDelete(id, env.now, Pc.SoftDelete !in env.faults);
      if err.Some? {
        return Failed(err.value);
      }
      InvalidateAndPublish(id, file, env, c.Goto(Invalidate), end);
      return OkDone;
    }

    // ---------- calls ----------

    /** The call ended as the uninterrupted run of the step machine does. */
    ghost predicate Did(before: Store, req: Request, env: Env, outcome: Outcome)
      reads this
    {
      var end := Perform(cfg, before, req, env);
      end.store == Contents() && end.call.outcome == outcome
    }

    method CreateUpload(id: string, owner: string, name: string, contentType: string, size: int64, env: Env)
      returns (outcome: Outcome)
      requires Valid() && PageTokens.IsCanonical(id)
      modifies this
      ensures Valid() && Did(old(Contents()), Request.CreateUpload(id, owner, name, contentType, size), env, outcome)
    {
      ghost var before, req := Contents(), Request.CreateUpload(id, owner, name, contentType, size);
      PerformKeepsInv(cfg, before, req, env);
      ghost var c, end := Begin(cfg, req, env.now), Perform(cfg, before, req, env);
      if !Validation.ValidCreate(owner, name, contentType, size, cfg.maxSize) {
        return Failed(InvalidInput);
      }
      var file := NewFile(cfg, Request.CreateUpload(id, owner, name, contentType, size), env.now);
      OneStep(before, c, env);
      if PresignUpload in env.faults {
        return Failed(Internal);
      }
      c := c.Goto(InsertRow);
      AtInsert(before, c, env);
      var done := Create(file, InsertRow !in env.faults);
      if !done {
        return Failed(Internal);
      }
      c := c.Goto(FillCache);
      CacheAndPublish(FileCreated, file, env, c, end);
      return OkFile(file);
    }

    method CreateMultipartUpload(id: string, owner: string, name: string, contentType: string, size: int64, env: Env)
      returns (outcome: Outcome)
      requires Valid() && PageTokens.IsCanonical(id)
      modifies this
      ensures Valid() && Did(old(Contents()), CreateMultipart(id, owner, name, contentType, size), env, outcome)
    {
      ghost var before, req := Contents(), CreateMultipart(id, owner, name, contentType, size);
      PerformKeepsInv(cfg, before, req, env);
      ghost var c, end := Begin(cfg, req, env.now), Perform(cfg, before, req, env);
      if !Validation.ValidCreate(owner, name, contentType, size, cfg.maxSize) {
        return Failed(InvalidInput);
      }
      if size <= cfg.partSize {
        return Failed(InvalidInput);
      }
      var file := NewFile(cfg, CreateMultipart(id, owner, name, contentType, size), env.now);
      AtOpen(before, c, env);
      var started := OpenUpload(file.objectKey, env.uploadId, Pc.OpenUpload !in env.faults);
      if !started {
        return Failed(Internal);
      }
      file := file.(uploadId := env.uploadId);
      c := c.(pc := InsertRow, file := file);
      ghost var s := Contents();
      AtInsert(s, c, env);
      var done := Create(file, InsertRow !in env.faults);
      if !done {
        c := c.Goto(RollbackUpload);
        CloseUpload(UploadOf(file), RollbackUpload !in env.faults);
        Took(s, c, env, Contents(), c.Fail(Internal), end);
        return Failed(Internal);
      }
      c := c.Goto(FillCache);
      CacheAndPublish(FileCreated, file, env, c, end);
      return OkFile(file);
    }

    method ConfirmUpload(id: string, owner: string, checksum: string, env: Env) returns (outcome: Outcome)
      requires Valid()
      modifies this
      ensures Valid() && Did(old(Contents()), Request.ConfirmUpload(id, owner, checksum), env, outcome)
    {
      ghost var before, req := Contents(), Request.ConfirmUpload(id, owner, checksum);
      PerformKeepsInv(cfg, before, req, env);
      ghost var c, end := Begin(cfg, req, env.now), Perform(cfg, before, req, env);
      if id == "" || owner == "" {
        return Failed(InvalidInput);
      }
      if !Validation.ValidChecksum(checksum) {
        return Failed(InvalidInput);
      }
      OneStep(before, c, env);
      var existing := Lookup(rows, id, ReadRow !in env.faults);
      if existing.Err? {
        return Failed(existing.error);
      }
      if !existing.value.IsOwnedBy(owner) {
        return Failed(AccessDenied);
      }
      if existing.value.status == Ready {
        return Failed(AlreadyExists);
      }
      if existing.value.status == Deleted {
        return Failed(NotFound);
      }
      c := c.(pc := ConfirmRow, file := existing.value);
      AtConfirm(before, c, env);
      var confirmed := Confirm(id, checksum, env.now, ConfirmRow !in env.faults);
      if confirmed.Err? {
        return Failed(confirmed.error);
      }
      c := c.(pc := FillCache, file := confirmed.value);
      CacheAndPublish(FileReady, confirmed.value, env, c, end);
      return OkFile(confirmed.value);
    }

    method GetFile(id: string, owner: string, env: Env) returns (outcome: Outcome)
      requires Valid()
      modifies this`cache
      ensures Valid() && Did(old(Contents()), Request.GetFile(id, owner), env, outcome)
      ensures outcome.OkFile? || outcome.Failed?
    {
      ghost var before, req := Contents(), Request.GetFile(id, owner);
      PerformKeepsInv(cfg, before, req, env);
      ghost var c, end := Begin(cfg, req, env.now), Perform(cfg, before, req, env);
      if id == "" || owner == "" {
        return Failed(InvalidInput);
      }
      BeginRead(cfg, req, env.now);
      AtReadCache(before, c, env);
      if ReadCache !in env.faults && id in cache {
        var cached := cache[id];
        if !cached.IsOwnedBy(owner) {
          return Failed(AccessDenied);
        }
        if cached.status != Deleted {
          return OkFile(cached);
        }
      }
      c := c.Goto(ReadRow);
      AtReadRow(before, c, env);
      var file := Lookup(rows, id, ReadRow !in env.faults);
      if file.Err? {
        return Failed(file.error);
      }
      if !file.value.IsOwnedBy(owner) {
        return Failed(AccessDenied);
      }
      if file.value.status == Deleted {
        return Failed(NotFound);
      }
      c := c.(pc := FillCache, file := file.value);
      SetFile(file.value, FillCache !in env.faults);
      Took(before, c, env, Contents(), c.Return(OkFile(file.value)), end);
      return OkFile(file.value);
    }

    /** ListFiles checks the owner and lists the rows as they are. */
    method ListFiles(owner: string, pageSize: int32, token: string, failure: Option<nat>)
      returns (r: Result<Pagination.ListResult>)
      requires Valid()
      ensures !Validation.ValidOwner(owner) ==> r == Err(InvalidInput)
      ensures Validation.ValidOwner(owner) ==>
                var page := Pagination.Page(rows, owner, pageSize, token);
                if page.Ok? && failure.Some? && failure.value <= Pagination.Fetched(rows, owner, pageSize, token)
                then r == Err(Internal) else r == page
      ensures r.Ok? ==>
                && Pagination.CursorOf(token).Ok?
                && Pagination.Serves(r.value, Pagination.Matching(rows, owner, Pagination.CursorOf(token).value),
                                     if 1 <= pageSize <= 100 then pageSize else 20)
    {
      if !Validation.ValidOwner(owner) {
        return Err(InvalidInput);
      }
      assert Pagination.ValidTable(rows);
      r := Pagination.List(rows, owner, pageSize, token, failure);
    }

    method GetDownloadUrl(id: string, owner: string, env: Env) returns (outcome: Outcome)
      requires Valid()
      modifies this`cache
      ensures Valid() && Did(old(Contents()), Request.GetDownloadUrl(id, owner), env, outcome)
    {
      ghost var before, req := Contents(), Request.GetDownloadUrl(id, owner);
      PerformKeepsInv(cfg, before, req, env);
      ReadsThroughGetFile(cfg, before, req, env);
      var got := GetFile(id, owner, env);
      if got.Failed? {
        return got;
      }
      var file := got.file;
      if !file.CanDownload() {
        return Failed(InvalidInput);
      }
      AtPresign(Contents(), AfterRead(Begin(cfg, req, env.now).(file := file)), env);
      if PresignDownload in env.faults {
        return Failed(Internal);
      }
      return OkUrl(file.objectKey);
    }

    method DeleteFile(id: string, owner: string, env: Env) returns (outcome: Outcome)
      requires Valid()
      modifies this
      ensures Valid() && Did(old(Contents()), Request.DeleteFile(id, owner), env, outcome)
    {
      ghost var before, req := Contents(), Request.DeleteFile(id, owner);
      PerformKeepsInv(cfg, before, req, env);
      ReadsThroughGetFile(cfg, before, req, env);
      ghost var end := Perform(cfg, before, req, env);
      var got := GetFile(id, owner, env);
      if got.Failed? {
        return got;
      }
      var file := got.file;
      RowIsNamed(cfg, Contents(), id);
      DeleteHasCopy(cfg, req, env.now, file);
      outcome := DeleteAndCleanUp(id, file, env, Call(Resolved(req), id, Pc.SoftDelete, file, [], OkDone), end);
    }

    method GetPartUploadUrl(id: string, owner: string, number: int32, env: Env) returns (outcome: Outcome)
      ensures Did(Contents(), GetPartUrl(id, owner, number), env, outcome)
    {
      ghost var req := GetPartUrl(id, owner, number);
      PendingRead(cfg, Contents(), req, env);
      var pending := PendingFor(rows, id, owner, ReadRow !in env.faults);
      if pending.Err? {
        return Failed(pending.error);
      }
      var file := pending.value;
      if !PartSizes.ValidPartNumber(number, file.TotalParts()) {
        return Failed(InvalidInput);
      }
      OneStep(Contents(), OnPending(Begin(cfg, req, env.now), file), env);
      if PresignPart in env.faults {
        return Failed(Internal);
      }
      return OkPartUrl(UploadOf(file), number, PartSizes.SizeOfPart(file.size, file.partSize, number));
    }

    method ReportPartUploaded(id: string, owner: string, number: int32, etag: string, env: Env)
      returns (outcome: Outcome)
      requires Valid()
      modifies this`parts
      ensures Valid() && Did(old(Contents()), ReportPart(id, owner, number, etag), env, outcome)
    {
      ghost var before, req := Contents(), ReportPart(id, owner, number, etag);
      PerformKeepsInv(cfg, before, req, env);
      PendingRead(cfg, before, req, env);
      var pending := PendingFor(rows, id, owner, ReadRow !in env.faults);
      if pending.Err? {
        return Failed(pending.error);
      }
      var file := pending.value;
      if !PartSizes.ValidPartNumber(number, file.TotalParts()) {
        return Failed(InvalidInput);
      }
      var tag := NormalizeETag(etag);
      if tag == "" {
        return Failed(InvalidInput);
      }
      var part := UploadPart(tag, env.now);
      AtSavePart(before, OnPending(Begin(cfg, req, env.now), file), env);
      var done := SaveUploadPart(file.id, number, part, SavePart !in env.faults);
      if !done {
        return Failed(Internal);
      }
      return OkPart(number, part);
    }

    method ListUploadParts(id: string, owner: string, env: Env) returns (outcome: Outcome)
      requires Valid()
      ensures Did(Contents(), ListParts(id, owner), env, outcome)
    {
      ListsParts(cfg, Contents(), ListParts(id, owner), env);
      var pending := PendingFor(rows, id, owner, ReadRow !in env.faults);
      if pending.Err? {
        return Failed(pending.error);
      }
      var listed := SelectUploadParts(pending.value.id, SelectParts !in env.faults);
      if listed.Err? {
        return Failed(listed.error);
      }
      return OkParts(UploadOf(pending.value), pending.value.partSize, pending.value.TotalParts(), listed.value);
    }

    method CompleteMultipartUpload(id: string, owner: string, checksum: string, env: Env) returns (outcome: Outcome)
      requires Valid()
      modifies this
      ensures Valid() && Did(old(Contents()), CompleteMultipart(id, owner, checksum), env, outcome)
    {
      ghost var before, req := Contents(), CompleteMultipart(id, owner, checksum);
      PerformKeepsInv(cfg, before, req, env);
      if id == "" || owner == "" {
        return Failed(InvalidInput);
      }
      if !Validation.ValidChecksum(checksum) {
        return Failed(InvalidInput);
      }
      PendingComplete(cfg, before, req, env);
      ghost var end := Perform(cfg, before, req, env);
      var pending := PendingFor(rows, id, owner, ReadRow !in env.faults);
      if pending.Err? {
        return Failed(pending.error);
      }
      var file := pending.value;
      PendingIsNamed(cfg, before, id, owner, ReadRow !in env.faults);
      outcome := CheckAndComplete(id, checksum, file, env, Call(Resolved(req), id, SelectParts, file, [], OkDone), end);
    }

    method AbortMultipartUpload(id: string, owner: string, env: Env) returns (outcome: Outcome)
      requires Valid()
      modifies this
      ensures Valid() && Did(old(Contents()), AbortMultipart(id, owner), env, outcome)
    {
      ghost var before, req := Contents(), AbortMultipart(id, owner);
      PerformKeepsInv(cfg, before, req, env);
      PendingAbort(cfg, before, req, env);
      ghost var end := Perform(cfg, before, req, env);
      var pending := PendingFor(rows, id, owner, ReadRow !in env.faults);
      if pending.Err? {
        return Failed(pending.error);
      }
      var file := pending.value;
      PendingIsNamed(cfg, before, id, owner, ReadRow !in env.faults);
      outcome := CloseAndDelete(id, file, env, Call(Resolved(req), id, AbortUpload, file, [], OkDone), end);
    }
  }
}
