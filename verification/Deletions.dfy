/** Exactly when a sequential read, delete or abort succeeds, what it leaves behind, and what
    becomes of the cache when the caller does not spell the id canonically. */
module Deletions {
  import opened Domain
  import opened Protocol
  import opened Lifecycle
  import opened Sequential
  import opened Calls
  import opened CacheRefinement
  import opened Records
  import PageTokens
  import Uuids

  // ---------- GetFile ----------

  /** The cache answers for the text the caller gave. */
  predicate Hit(s: Store, text: string, env: Env) {
    ReadCache !in env.faults && text in s.cache && s.cache[text].status != Deleted
  }

  /** What GetFile returns. */
  function ReadThrough(s: Store, text: string, owner: string, env: Env): Result<FileMetadata> {
    if text == "" || owner == "" then Err(InvalidInput)
    else if ReadCache !in env.faults && text in s.cache && !s.cache[text].IsOwnedBy(owner) then Err(AccessDenied)
    else if Hit(s, text, env) then Ok(s.cache[text])
    else
      var file := Lookup(s.rows, text, ReadRow !in env.faults);
      if file.Err? then file
      else if !file.value.IsOwnedBy(owner) then Err(AccessDenied)
      else if file.value.status == Deleted then Err(NotFound)
      else file
  }

  /** The cache after GetFile: filled on a miss, under the id of the row. */
  function CacheAfterRead(s: Store, text: string, owner: string, env: Env): map<string, FileMetadata> {
    var got := ReadThrough(s, text, owner, env);
    if got.Ok? && !Hit(s, text, env) && FillCache !in env.faults then s.cache[got.value.id := got.value] else s.cache
  }

  lemma RowRead(s: Store, c: Call, env: Env)
    requires c.req.GetFile? && c.pc == ReadRow
    ensures var end, file := Finish(s, c, env), RowWith(s.rows, c.req.id, ReadRow !in env.faults);
            if file.Err? then end == State(s, c.Fail(file.error))
            else if !file.value.IsOwnedBy(c.req.owner) then end == State(s, c.Fail(AccessDenied))
            else if file.value.status == Deleted then end == State(s, c.Fail(NotFound))
            else
              && end.call.outcome == OkFile(file.value)
              && end.store == s.(cache := if FillCache in env.faults then s.cache else s.cache[file.value.id := file.value])
  {
    var file := RowWith(s.rows, c.req.id, ReadRow !in env.faults);
    AtReadRow(s, c, env);
    if file.Ok? && file.value.IsOwnedBy(c.req.owner) && file.value.status != Deleted {
      OneStep(s, c.(pc := FillCache, file := file.value), env);
    }
  }

  lemma GetFileReads(cfg: Config, s: Store, text: string, owner: string, env: Env)
    ensures var end, got := Perform(cfg, s, GetFile(text, owner), env), ReadThrough(s, text, owner, env);
            && end.call.outcome == (if got.Ok? then OkFile(got.value) else Failed(got.error))
            && end.store == s.(cache := CacheAfterRead(s, text, owner, env))
  {
    var req := GetFile(text, owner);
    var c := Begin(cfg, req, env.now);
    BeginRead(cfg, req, env.now);
    if c.pc == ReadCache {
      AtReadCache(s, c, env);
      if !(ReadCache !in env.faults && text in s.cache && !s.cache[text].IsOwnedBy(owner)) && !Hit(s, text, env) {
        RowRead(s, c.Goto(ReadRow), env);
      }
    }
  }

  /** What GetDownloadURL returns. */
  lemma DownloadReads(cfg: Config, s: Store, text: string, owner: string, env: Env)
    ensures var got := ReadThrough(s, text, owner, env);
            Perform(cfg, s, GetDownloadUrl(text, owner), env).call.outcome ==
            if got.Err? then Failed(got.error)
            else if !got.value.CanDownload() then Failed(InvalidInput)
            else if PresignDownload in env.faults then Failed(Internal)
            else OkUrl(got.value.objectKey)
  {
    var req, got := GetDownloadUrl(text, owner), ReadThrough(s, text, owner, env);
    ReadsThroughGetFile(cfg, s, req, env);
    GetFileReads(cfg, s, text, owner, env);
    BeginRead(cfg, req, env.now);
    if got.Ok? && got.value.CanDownload() {
      AtPresign(s.(cache := CacheAfterRead(s, text, owner, env)), AfterRead(Begin(cfg, req, env.now).(file := got.value)), env);
    }
  }

  /** The caller is the owner of a live row, and the statement that finds it does not fail. */
  predicate Visible(s: Store, req: Request, env: Env) {
    && req.owner != "" && PageTokens.IsCanonical(RowId(req)) && RowId(req) in s.rows
    && s.rows[RowId(req)].owner == req.owner
    && (Hit(s, req.id, env) || (ReadRow !in env.faults && s.rows[RowId(req)].status != Deleted))
  }

  lemma CachedIsNamed(cfg: Config, s: Store, text: string)
    requires StoreInv(cfg, s) && text in s.cache
    ensures Uuids.Canon(text) == text && PageTokens.IsCanonical(text) && text != "" && text in s.rows
    ensures s.cache[text].owner == s.rows[text].owner && Version(cfg, s, text, s.cache[text])
  {
    assert Version(cfg, s, text, s.cache[text]);
    Uuids.CanonIsCanonicalIff(text);
  }

  lemma RowIsVersion(cfg: Config, s: Store, id: string)
    requires StoreInv(cfg, s) && id in s.rows
    ensures PageTokens.IsCanonical(id) && s.rows[id].id == id && Version(cfg, s, id, s.rows[id])
  {
  }

  lemma VisibleIff(s: Store, req: Request, env: Env)
    requires req.id == "" ==> !PageTokens.IsCanonical(RowId(req))
    requires req.id in s.cache ==>
               && RowId(req) == req.id && PageTokens.IsCanonical(req.id) && req.id in s.rows
               && s.cache[req.id].owner == s.rows[req.id].owner
    ensures ReadThrough(s, req.id, req.owner, env).Ok? <==> Visible(s, req, env)
  {
  }

  /** GetFile finds exactly the visible files. */
  lemma ReadsVisible(cfg: Config, s: Store, req: Request, env: Env)
    requires StoreInv(cfg, s)
    ensures ReadThrough(s, req.id, req.owner, env).Ok? <==> Visible(s, req, env)
  {
    Uuids.EmptyIsNoUuid();
    if req.id in s.cache { CachedIsNamed(cfg, s, req.id); }
    VisibleIff(s, req, env);
  }

  /** What it returns is a version of the row, and on a miss the row itself. */
  lemma ReadsVersion(cfg: Config, s: Store, req: Request, env: Env)
    requires StoreInv(cfg, s) && ReadThrough(s, req.id, req.owner, env).Ok?
    ensures var f, id := ReadThrough(s, req.id, req.owner, env).value, RowId(req);
            && id in s.rows && s.rows[id].id == id && f.id == id && f.status != Deleted
            && Version(cfg, s, id, f)
            && if Hit(s, req.id, env) then req.id == id && f == s.cache[id] else f == s.rows[id]
  {
    if req.id in s.cache { CachedIsNamed(cfg, s, req.id); }
    if RowId(req) in s.rows { RowIsVersion(cfg, s, RowId(req)); }
  }

  // ---------- the last statements ----------

  /** The last statements of a delete or an abort: the cache drops the entry under the text the
      caller gave and the log gets the event, as far as they do not fail. */
  function Dropped(s: Store, text: string, f: FileMetadata, env: Env): Store {
    s.(cache := if Invalidate in env.faults then s.cache else s.cache - {text},
       events := if Publish in env.faults then s.events else s.events + [Event(FileDeleted, f.id, f.owner, f.objectKey)])
  }

  lemma InvalidateTail(s: Store, c: Call, env: Env)
    requires c.pc == Invalidate && IsDelete(c.req)
    ensures Finish(s, c, env).call.outcome == OkDone && Finish(s, c, env).store == Dropped(s, c.spelled, c.file, env)
  {
    OneStep(s, c, env);
    var st := Step(s, c, ReplyAt(env, Invalidate));
    OneStep(st.store, st.call, env);
  }

  /** Storage closes the upload and the part rows go, as far as the statements succeed. */
  function Closed(s: Store, f: FileMetadata, id: string, env: Env): Store {
    s.(uploads := if AbortUpload in env.faults then s.uploads else s.uploads - {UploadOf(f)},
       parts := if DeleteParts in env.faults then s.parts else s.parts - {id})
  }

  lemma AtAbort(s: Store, c: Call, env: Env)
    requires c.pc == AbortUpload && IsDelete(c.req)
    ensures Finish(s, c, env) ==
            Finish(Closed(s, c.file, c.req.id, env), c.Goto(if c.req.AbortMultipart? then SoftDelete else Invalidate), env)
  {
    OneStep(s, c, env);
    var st := Step(s, c, ReplyAt(env, AbortUpload));
    OneStep(st.store, st.call, env);
  }

  lemma AtRemove(s: Store, c: Call, env: Env)
    requires c.pc == RemoveObject && c.req.DeleteFile?
    ensures var s' := s.(objects := if RemoveObject in env.faults then s.objects else s.objects - {c.file.objectKey});
            Finish(s, c, env) == Finish(s', c.Goto(Invalidate), env)
  {
    OneStep(s, c, env);
  }

  /** What DeleteFile does to storage and part rows depends on the copy it got from GetFile. */
  function CleanedUp(s: Store, f: FileMetadata, id: string, env: Env): Store {
    if PendingMultipart(f) && f.uploadId != "" then Closed(s, f, id, env)
    else s.(objects := if RemoveObject in env.faults then s.objects else s.objects - {f.objectKey})
  }

  lemma CleanupTail(s: Store, c: Call, env: Env)
    requires c.req.DeleteFile?
    requires c.pc == if PendingMultipart(c.file) && c.file.uploadId != "" then AbortUpload else RemoveObject
    ensures Finish(s, c, env).call.outcome == OkDone
    ensures Finish(s, c, env).store == Dropped(CleanedUp(s, c.file, c.req.id, env), c.spelled, c.file, env)
  {
    if c.pc == AbortUpload { AtAbort(s, c, env); } else { AtRemove(s, c, env); }
    InvalidateTail(CleanedUp(s, c.file, c.req.id, env), c.Goto(Invalidate), env);
  }

  // ---------- DeleteFile ----------

  predicate Deletable(s: Store, req: Request, env: Env) {
    Visible(s, req, env) && s.rows[RowId(req)].status != Deleted && SoftDelete !in env.faults
  }

  /** The row is deleted at the time of the call and keeps everything else; what is cleaned up and
      announced is the copy the call got when it read the file. */
  ghost predicate Gone(s: Store, s': Store, id: string, copy: FileMetadata, text: string, env: Env) {
    && id in s.rows && id in s'.rows && BecameDeleted(s.rows[id], s'.rows[id], env.now)
    && s' == Dropped(CleanedUp(s.(rows := s.rows[id := s'.rows[id]]), copy, id, env), text, copy, env)
  }

  lemma DeletingTail(s: Store, c: Call, env: Env)
    requires c.req.DeleteFile? && c.pc == SoftDelete && c.req.id in s.rows && s.rows[c.req.id].id == c.req.id
    ensures var end, id := Finish(s, c, env), c.req.id;
            if SoftDelete in env.faults || s.rows[id].status == Deleted then
              end.call.outcome == Failed(if SoftDelete in env.faults then Internal else NotFound) && end.store == s
            else end.call.outcome == OkDone && Gone(s, end.store, id, c.file, c.spelled, env)
  {
    AtSoftDelete(s, c, env);
    SoftDeletedIsDeleted(s.rows[c.req.id], env.now);
    if SoftDelete !in env.faults && s.rows[c.req.id].status != Deleted {
      var next := if PendingMultipart(c.file) && c.file.uploadId != "" then AbortUpload else RemoveObject;
      CleanupTail(Apply(s, PutRow(SoftDeleted(s.rows[c.req.id], env.now))), c.Goto(next), env);
    }
  }

  lemma DeleteContinues(cfg: Config, s: Store, req: Request, env: Env)
    requires req.DeleteFile?
    ensures var end, got := Perform(cfg, s, req, env), ReadThrough(s, req.id, req.owner, env);
            var s1 := s.(cache := CacheAfterRead(s, req.id, req.owner, env));
            if got.Ok? then end == Finish(s1, Call(Resolved(req), req.id, SoftDelete, got.value, [], OkDone), env)
            else end.call.outcome == Failed(got.error) && end.store == s1
  {
    ReadsThroughGetFile(cfg, s, req, env);
    GetFileReads(cfg, s, req.id, req.owner, env);
    BeginRead(cfg, req, env.now);
  }

  lemma DeletePerforms(cfg: Config, s: Store, req: Request, env: Env)
    requires req.DeleteFile?
    requires ReadThrough(s, req.id, req.owner, env).Ok? ==> RowId(req) in s.rows && s.rows[RowId(req)].id == RowId(req)
    ensures var end, got, s1 := Perform(cfg, s, req, env), ReadThrough(s, req.id, req.owner, env),
                                s.(cache := CacheAfterRead(s, req.id, req.owner, env));
            if got.Ok? && s.rows[RowId(req)].status != Deleted && SoftDelete !in env.faults then
              end.call.outcome == OkDone && Gone(s1, end.store, RowId(req), got.value, req.id, env)
            else
              && end.store == s1
              && end.call.outcome ==
                 Failed(if got.Err? then got.error else if SoftDelete in env.faults then Internal else NotFound)
  {
    var got, s1 := ReadThrough(s, req.id, req.owner, env), s.(cache := CacheAfterRead(s, req.id, req.owner, env));
    DeleteContinues(cfg, s, req, env);
    if got.Ok? { DeletingTail(s1, Call(Resolved(req), req.id, SoftDelete, got.value, [], OkDone), env); }
  }

  /** DeleteFile succeeds exactly for the owner of a live row that GetFile finds. The row is deleted
      at the time of the call and otherwise stays as it is; the upload of a pending multipart copy
      is closed or the object of any other removed, and the cache entry under the text the caller
      gave is dropped. A failure changes nothing but the cache. */
  lemma DeleteSucceedsIff(cfg: Config, s: Store, req: Request, env: Env)
    requires StoreInv(cfg, s) && req.DeleteFile?
    ensures var end, got, s1 := Perform(cfg, s, req, env), ReadThrough(s, req.id, req.owner, env),
                                s.(cache := CacheAfterRead(s, req.id, req.owner, env));
            if Deletable(s, req, env) then
              got.Ok? && end.call.outcome == OkDone && Gone(s1, end.store, RowId(req), got.value, req.id, env)
            else
              && end.store == s1
              && end.call.outcome ==
                 Failed(if got.Err? then got.error else if SoftDelete in env.faults then Internal else NotFound)
  {
    ReadsVisible(cfg, s, req, env);
    if ReadThrough(s, req.id, req.owner, env).Ok? {
      ReadsVersion(cfg, s, req, env);
    }
    DeletePerforms(cfg, s, req, env);
  }

  // ---------- AbortMultipartUpload ----------

  /** The row is deleted at the time of the call and keeps everything else, and its upload and part
      rows are cleaned up. */
  ghost predicate Aborted(s: Store, s': Store, id: string, text: string, env: Env) {
    && id in s.rows && id in s'.rows && BecameDeleted(s.rows[id], s'.rows[id], env.now)
    && s' == Dropped(Closed(s, s.rows[id], id, env).(rows := s.rows[id := s'.rows[id]]), text, s.rows[id], env)
  }

  lemma AbortingTail(s: Store, c: Call, env: Env)
    requires c.req.AbortMultipart? && c.pc == AbortUpload && c.req.id in s.rows && s.rows[c.req.id].id == c.req.id
    requires s.rows[c.req.id].status != Deleted && c.file == s.rows[c.req.id]
    ensures var end := Finish(s, c, env);
            if SoftDelete in env.faults
            then end.call.outcome == Failed(Internal) && end.store == Closed(s, c.file, c.req.id, env)
            else end.call.outcome == OkDone && Aborted(s, end.store, c.req.id, c.spelled, env)
  {
    var s' := Closed(s, c.file, c.req.id, env);
    SoftDeletedIsDeleted(s.rows[c.req.id], env.now);
    AtAbort(s, c, env);
    AtSoftDelete(s', c.Goto(SoftDelete), env);
    if SoftDelete !in env.faults {
      InvalidateTail(Apply(s', PutRow(SoftDeleted(s.rows[c.req.id], env.now))), c.Goto(Invalidate), env);
    }
  }

  /** AbortMultipartUpload succeeds exactly for the owner of a pending multipart row, when the row
      update does not fail; the row is then deleted at the time of the call. Storage and part rows
      are cleaned up before that, so a failing update leaves a pending row whose upload is closed. */
  lemma AbortSucceedsIff(cfg: Config, s: Store, req: Request, env: Env)
    requires req.AbortMultipart? && (RowId(req) in s.rows ==> s.rows[RowId(req)].id == RowId(req))
    ensures var end, id := Perform(cfg, s, req, env), RowId(req);
            var got := PendingFor(s.rows, req.id, req.owner, ReadRow !in env.faults);
            if got.Err? then end.call.outcome == Failed(got.error) && end.store == s
            else if SoftDelete in env.faults then
              end.call.outcome == Failed(Internal) && end.store == Closed(s, got.value, id, env)
            else end.call.outcome == OkDone && Aborted(s, end.store, id, req.id, env)
  {
    PendingAbort(cfg, s, req, env);
    var got := PendingFor(s.rows, req.id, req.owner, ReadRow !in env.faults);
    if got.Ok? {
      AbortingTail(s, Call(Resolved(req), req.id, AbortUpload, got.value, [], OkDone), env);
    }
  }

  // ---------- spelling ----------

  /** The cache after a delete, when only the row with this id has changed. */
  lemma AgreesWithout(s: Store, s': Store, id: string)
    requires CacheAgrees(s) && id in s'.rows && s'.rows[id].status == Deleted
    requires forall k | k in s.rows && k != id :: k in s'.rows && s'.rows[k] == s.rows[k]
    requires forall k | k in s'.cache && k != id :: k in s.cache && s'.cache[k] == s.cache[k]
    ensures CacheAgrees(s') <==> id !in s'.cache
  {
    forall k | k in s'.cache && k != id ensures EntryAgrees(s', k) {
      assert EntryAgrees(s, k);
    }
    if id in s'.cache { assert !EntryAgrees(s', id); }
  }

  lemma GoneTables(s: Store, s': Store, id: string, copy: FileMetadata, text: string, env: Env)
    requires Gone(s, s', id, copy, text, env) && Invalidate !in env.faults
    ensures id in s'.rows && s'.rows == s.rows[id := s'.rows[id]] && s'.rows[id].status == Deleted
    ensures s'.cache == s.cache - {text}
  {
  }

  /** After a read the file is cached under its own id. */
  lemma ReadCaches(cfg: Config, s: Store, req: Request, env: Env)
    requires StoreInv(cfg, s) && FillCache !in env.faults && ReadThrough(s, req.id, req.owner, env).Ok?
    ensures var cache, id := CacheAfterRead(s, req.id, req.owner, env), RowId(req);
            && id in cache && (req.id in cache ==> req.id == id)
            && forall k | k in cache && k != id :: k in s.cache && cache[k] == s.cache[k]
  {
    ReadsVersion(cfg, s, req, env);
    if req.id in s.cache { CachedIsNamed(cfg, s, req.id); }
  }

  /** Rows and cache after a successful DeleteFile over a reliable cache. */
  lemma DeletedCache(cfg: Config, s: Store, req: Request, env: Env)
    requires StoreInv(cfg, s) && req.DeleteFile? && Deletable(s, req, env)
    requires FillCache !in env.faults && Invalidate !in env.faults
    ensures var s', id := Perform(cfg, s, req, env).store, RowId(req);
            && id in s'.rows && s'.rows == s.rows[id := s'.rows[id]] && s'.rows[id].status == Deleted
            && (id in s'.cache <==> req.id != id)
            && forall k | k in s'.cache && k != id :: k in s.cache && s'.cache[k] == s.cache[k]
  {
    var got, s1 := ReadThrough(s, req.id, req.owner, env), s.(cache := CacheAfterRead(s, req.id, req.owner, env));
    DeleteSucceedsIff(cfg, s, req, env);
    GoneTables(s1, Perform(cfg, s, req, env).store, RowId(req), got.value, req.id, env);
    ReadCaches(cfg, s, req, env);
  }

  /** A successful DeleteFile over a reliable cache leaves the cache in agreement exactly when the
      caller spells the id canonically: any other spelling misses the cache, fills it under the
      canonical id and then drops the entry of the other spelling. */
  lemma DeleteAgreesIff(cfg: Config, s: Store, req: Request, env: Env)
    requires StoreInv(cfg, s) && CacheAgrees(s) && req.DeleteFile? && Deletable(s, req, env)
    requires FillCache !in env.faults && Invalidate !in env.faults
    ensures CacheAgrees(Perform(cfg, s, req, env).store) <==> req.id == RowId(req)
  {
    DeletedCache(cfg, s, req, env);
    AgreesWithout(s, Perform(cfg, s, req, env).store, RowId(req));
  }

  /** The same for an abort, which does not fill the cache: a spelling that is not canonical does
      harm exactly when the file is cached. */
  lemma AbortAgreesIff(cfg: Config, s: Store, req: Request, env: Env)
    requires StoreInv(cfg, s) && CacheAgrees(s) && req.AbortMultipart?
    requires PendingFor(s.rows, req.id, req.owner, ReadRow !in env.faults).Ok?
    requires SoftDelete !in env.faults && Invalidate !in env.faults
    ensures CacheAgrees(Perform(cfg, s, req, env).store) <==> req.id == RowId(req) || RowId(req) !in s.cache
  {
    AbortSucceedsIff(cfg, s, req, env);
    AgreesWithout(s, Perform(cfg, s, req, env).store, RowId(req));
  }

  lemma MisspeltLeavesEntry(s: Store, s': Store, req: Request, env: Env)
    requires RowId(req) in s.rows && RowId(req) in s'.cache && s'.cache[RowId(req)] == s.rows[RowId(req)]
    requires s.rows[RowId(req)].status != Deleted && s.rows[RowId(req)].owner == req.owner && req.owner != ""
    requires RowId(req) in s'.rows && s'.rows[RowId(req)].status == Deleted && s'.rows[RowId(req)].owner == req.owner
    requires PageTokens.IsCanonical(RowId(req)) && Uuids.Canon(RowId(req)) == RowId(req) && env.faults == {}
    ensures ReadThrough(s', RowId(req), req.owner, env) == Ok(s.rows[RowId(req)])
    ensures ReadThrough(WithoutCache(s'), RowId(req), req.owner, env) == Err(NotFound)
  {
  }

  lemma MisspeltDelete(cfg: Config, s: Store, req: Request, env: Env)
    requires StoreInv(cfg, s) && req.DeleteFile? && Deletable(s, req, env) && env.faults == {}
    requires req.id != RowId(req)
    ensures var id, s' := RowId(req), Perform(cfg, s, req, env).store;
            && id in s'.rows && s'.rows[id].status == Deleted
            && ReadThrough(s', id, req.owner, env) == Ok(s.rows[id])
            && ReadThrough(WithoutCache(s'), id, req.owner, env) == Err(NotFound)
  {
    DeleteSucceedsIff(cfg, s, req, env);
    ReadsVersion(cfg, s, req, env);
    RowIsVersion(cfg, s, RowId(req));
    Uuids.CanonIsCanonicalIff(req.id);
    MisspeltLeavesEntry(s, Perform(cfg, s, req, env).store, req, env);
  }

  /** After a DeleteFile in another spelling, GetFile with the canonical id still returns the live
      file, and GetDownloadURL its key if it was ready; without a cache both say not found. */
  lemma DeletedFileIsServed(cfg: Config, s: Store, req: Request, env: Env)
    requires StoreInv(cfg, s) && req.DeleteFile? && Deletable(s, req, env) && env.faults == {}
    requires req.id != RowId(req)
    ensures var id, s', f := RowId(req), Perform(cfg, s, req, env).store, s.rows[RowId(req)];
            var get, download, plain := GetFile(id, req.owner), GetDownloadUrl(id, req.owner), WithoutCache(s');
            && id in s'.rows && s'.rows[id].status == Deleted
            && Perform(cfg, s', get, env).call.outcome == OkFile(f)
            && (f.CanDownload() ==> Perform(cfg, s', download, env).call.outcome == OkUrl(f.objectKey))
            && Perform(cfg, plain, get, env).call.outcome == Failed(NotFound)
            && Perform(cfg, plain, download, env).call.outcome == Failed(NotFound)
  {
    var id, s' := RowId(req), Perform(cfg, s, req, env).store;
    MisspeltDelete(cfg, s, req, env);
    GetFileReads(cfg, s', id, req.owner, env);
    GetFileReads(cfg, WithoutCache(s'), id, req.owner, env);
    DownloadReads(cfg, s', id, req.owner, env);
    DownloadReads(cfg, WithoutCache(s'), id, req.owner, env);
  }
}
