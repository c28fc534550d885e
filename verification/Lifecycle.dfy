/** What every step of every interleaving keeps: row shape, forward-only rows, copies that are
    earlier versions of their row, stored parts in range. */
module Lifecycle {
  import opened Domain
  import opened Protocol
  import Completion
  import PageTokens
  import PartSizes
  import Uuids

  // ---------- how a row may change ----------

  predicate SameFile(a: FileMetadata, b: FileMetadata) {
    && a.id == b.id && a.owner == b.owner && a.bucket == b.bucket && a.objectKey == b.objectKey
    && a.name == b.name && a.contentType == b.contentType && a.size == b.size && a.createdAt == b.createdAt
  }

  predicate SameUpload(a: FileMetadata, b: FileMetadata) {
    a.checksum == b.checksum && a.mode == b.mode && a.uploadId == b.uploadId && a.partSize == b.partSize
  }

  predicate UploadClosed(f: FileMetadata) {
    f.mode == Single && f.uploadId == "" && f.partSize == 0
  }

  /** b is a, or a later version of it: pending, then ready, then deleted, with the identity of
      the file fixed, the checksum written only on the way to ready, and no two versions with
      the same status. */
  predicate Advances(a: FileMetadata, b: FileMetadata) {
    && SameFile(a, b)
    && match (a.status, b.status)
       case (Pending, Ready) => UploadClosed(b)
       case (Ready, Deleted) => SameUpload(a, b)
       case (Pending, Deleted) => SameUpload(a, b) || UploadClosed(b)
       case _ => a == b
  }

  lemma AdvancesTransitive(a: FileMetadata, b: FileMetadata, c: FileMetadata)
    requires Advances(a, b) && Advances(b, c)
    ensures Advances(a, c)
  {
  }

  ghost predicate RowsAdvance(rows: map<string, FileMetadata>, rows': map<string, FileMetadata>) {
    forall id | id in rows :: id in rows' && Advances(rows[id], rows'[id])
  }

  ghost predicate Extends(s: Store, s': Store) {
    RowsAdvance(s.rows, s'.rows) && s.issued <= s'.issued
  }

  // ---------- store invariant ----------

  /** Multipart mode, an upload id and a part size go together or not at all; a ready row is a
      single-mode row, and a pending row has no checksum yet. */
  predicate Shape(cfg: Config, f: FileMetadata) {
    && (f.status == Pending ==> f.checksum == "")
    && if f.mode == Multipart
       then f.uploadId != "" && f.partSize == cfg.partSize && f.size > f.partSize && f.status != Ready
       else UploadClosed(f)
  }

  /** A row, or a copy of one, is well formed and its upload was issued by storage. */
  ghost predicate Sound(cfg: Config, s: Store, f: FileMetadata) {
    Shape(cfg, f) && (f.mode == Multipart ==> UploadOf(f) in s.issued)
  }

  /** f is the current or an earlier version of the row with this id. */
  ghost predicate Version(cfg: Config, s: Store, id: string, f: FileMetadata) {
    id in s.rows && f.id == id && Advances(f, s.rows[id]) && Sound(cfg, s, f)
  }

  ghost predicate KeysUnique(rows: map<string, FileMetadata>) {
    forall a, b | a in rows && b in rows && rows[a].objectKey == rows[b].objectKey :: a == b
  }

  predicate PartOk(cfg: Config, f: FileMetadata, number: int32, part: UploadPart) {
    PartSizes.ValidPartNumber(number, MachineParts(f.size, cfg.partSize)) && part.etag != ""
  }

  ghost predicate RowsOk(cfg: Config, s: Store) {
    && (forall id | id in s.rows :: PageTokens.IsCanonical(id) && s.rows[id].id == id && Sound(cfg, s, s.rows[id]))
    && KeysUnique(s.rows)
    && s.uploads <= s.issued
  }

  ghost predicate CacheOk(cfg: Config, s: Store) {
    forall id | id in s.cache :: Version(cfg, s, id, s.cache[id])
  }

  ghost predicate PartsOk(cfg: Config, s: Store) {
    && (forall id | id in s.parts :: id in s.rows)
    && (forall id, n | id in s.parts && n in s.parts[id] :: PartOk(cfg, s.rows[id], n, s.parts[id][n]))
  }

  /** An event names its file's owner and key. */
  predicate EventOk(s: Store, e: Event) {
    e.fileId in s.rows && e.owner == s.rows[e.fileId].owner && e.objectKey == s.rows[e.fileId].objectKey
  }

  ghost predicate EventsOk(s: Store) {
    forall e | e in s.events :: EventOk(s, e)
  }

  ghost predicate StoreInv(cfg: Config, s: Store) {
    RowsOk(cfg, s) && CacheOk(cfg, s) && PartsOk(cfg, s) && EventsOk(s)
  }

  // ---------- call invariant ----------

  predicate IsCreate(r: Request) {
    r.CreateUpload? || r.CreateMultipart?
  }

  predicate IsConfirm(r: Request) {
    r.ConfirmUpload? || r.CompleteMultipart?
  }

  predicate IsRead(r: Request) {
    r.GetFile? || r.GetDownloadUrl? || r.DeleteFile?
  }

  predicate IsDelete(r: Request) {
    r.DeleteFile? || r.AbortMultipart?
  }

  /** Which calls can be about to execute a statement. */
  predicate Legal(c: Call) {
    match c.pc
    case ReadCache => IsRead(c.req)
    case FillCache => IsRead(c.req) || IsCreate(c.req) || IsConfirm(c.req)
    case Invalidate => IsDelete(c.req)
    case ReadRow => !IsCreate(c.req)
    case InsertRow => IsCreate(c.req)
    case ConfirmRow => IsConfirm(c.req)
    case SoftDelete => IsDelete(c.req)
    case SavePart => c.req.ReportPart?
    case SelectParts => c.req.ListParts? || c.req.CompleteMultipart?
    case DeleteParts => IsDelete(c.req) || c.req.CompleteMultipart?
    case PresignUpload => c.req.CreateUpload?
    case PresignDownload => c.req.GetDownloadUrl?
    case PresignPart => c.req.GetPartUrl?
    case OpenUpload => c.req.CreateMultipart?
    case RollbackUpload => c.req.CreateMultipart?
    case FinishUpload => c.req.CompleteMultipart?
    case AbortUpload => IsDelete(c.req)
    case RemoveObject => c.req.DeleteFile?
    case Publish => IsCreate(c.req) || IsConfirm(c.req) || IsDelete(c.req)
    case Returned => true
  }

  /** A creation before its row exists. */
  predicate Building(c: Call) {
    c.pc == PresignUpload || c.pc == OpenUpload || c.pc == InsertRow || c.pc == RollbackUpload
  }

  /** The local copy is a version of the row: it was inserted, read or returned by RETURNING. */
  predicate HoldsCopy(c: Call) {
    if c.pc == Returned then !c.outcome.Failed?
    else !Building(c) && c.pc != ReadCache && c.pc != ReadRow
  }

  ghost predicate BuildingOk(cfg: Config, s: Store, c: Call) {
    && PageTokens.IsCanonical(c.req.id)
    && c.file.id == c.req.id && c.file.owner == c.req.owner && c.file.status == Pending
    && if c.pc == OpenUpload
       then c.file.checksum == "" && c.file.mode == Multipart && c.file.partSize == cfg.partSize &&
            c.file.size > c.file.partSize
       else Sound(cfg, s, c.file) && (c.file.mode == Multipart <==> c.req.CreateMultipart?)
  }

  predicate PendingMultipart(f: FileMetadata) {
    f.status == Pending && f.mode == Multipart
  }

  /** What the local copy is known to be, by call and statement. */
  predicate CopyFacts(c: Call) {
    match c.req
    case CreateUpload(_, _, _, _, _) => c.file.status == Pending
    case CreateMultipart(_, _, _, _, _) => c.file.status == Pending
    case ConfirmUpload(_, _, _) => if c.pc == ConfirmRow then c.file.status == Pending else c.file.status == Ready
    case GetFile(_, _) => c.file.status != Deleted && (c.pc == Returned ==> c.outcome == OkFile(c.file))
    case GetDownloadUrl(_, _) =>
      && c.file.status != Deleted
      && (c.pc == PresignDownload || c.pc == Returned ==> c.file.status == Ready)
      && (c.pc == Returned ==> c.outcome == OkUrl(c.file.objectKey))
    case DeleteFile(_, _) => c.file.status != Deleted && (c.pc == AbortUpload ==> PendingMultipart(c.file))
    case CompleteMultipart(_, _, _) =>
      if c.pc == SelectParts || c.pc == FinishUpload || c.pc == ConfirmRow then PendingMultipart(c.file)
      else c.file.status == Ready
    case _ => PendingMultipart(c.file)
  }

  /** A call that got past validatePartNumber has a number in range, and a report an ETag. */
  predicate PartFacts(c: Call) {
    && (c.pc == PresignPart && c.req.GetPartUrl? ==> PartSizes.ValidPartNumber(c.req.number, c.file.TotalParts()))
    && (c.pc == SavePart && c.req.ReportPart? ==>
          PartSizes.ValidPartNumber(c.req.number, c.file.TotalParts()) && NormalizeETag(c.req.etag) != "")
  }

  ghost predicate CopyOk(cfg: Config, s: Store, c: Call) {
    Version(cfg, s, c.req.id, c.file) && c.file.owner == c.req.owner && CopyFacts(c)
  }

  /** A canonical spelling is the id itself. */
  predicate Named(c: Call) {
    PageTokens.IsCanonical(c.spelled) ==> c.req.id == c.spelled
  }

  ghost predicate CallInv(cfg: Config, s: Store, c: Call) {
    && Legal(c)
    && Named(c)
    && (Building(c) ==> BuildingOk(cfg, s, c))
    && (HoldsCopy(c) ==> CopyOk(cfg, s, c))
  }

  ghost predicate SystemInv(cfg: Config, sys: System) {
    && StoreInv(cfg, sys.store)
    && (forall tid | tid in sys.calls :: CallInv(cfg, sys.store, sys.calls[tid]))
    && (forall tid | tid in sys.calls :: PartFacts(sys.calls[tid]))
  }

  // ---------- effects ----------

  /** The effects that keep the store invariant: a row is new and admissible or the next version
      of the one stored, a cache entry is a version, a part is in range, an event is about its
      row. All of them are about the file the call names. */
  ghost predicate EffectOk(cfg: Config, s: Store, id: string, e: Effect) {
    match e
    case PutRow(f) =>
      && PageTokens.IsCanonical(id) && f.id == id && Sound(cfg, s, f)
      && if id in s.rows then Advances(s.rows[id], f) else !KeyTaken(s.rows, f.objectKey)
    case PutCache(f) => Version(cfg, s, id, f)
    case PutPart(k, n, part) => k == id && id in s.rows && PartOk(cfg, s.rows[id], n, part)
    case DropParts(k) => k == id
    case Emit(event) => event.fileId == id && EventOk(s, event)
    case _ => true
  }

  lemma EffectExtends(cfg: Config, s: Store, id: string, e: Effect)
    requires EffectOk(cfg, s, id, e)
    ensures Extends(s, Apply(s, e))
  {
  }

  lemma VersionStable(cfg: Config, s: Store, s': Store, id: string, f: FileMetadata)
    requires Version(cfg, s, id, f) && Extends(s, s')
    ensures Version(cfg, s', id, f)
  {
    AdvancesTransitive(f, s.rows[id], s'.rows[id]);
  }

  lemma EffectKeepsRows(cfg: Config, s: Store, id: string, e: Effect)
    requires RowsOk(cfg, s) && EffectOk(cfg, s, id, e)
    ensures RowsOk(cfg, Apply(s, e))
  {
    var s' := Apply(s, e);
    EffectExtends(cfg, s, id, e);
    forall k | k in s'.rows ensures PageTokens.IsCanonical(k) && s'.rows[k].id == k && Sound(cfg, s', s'.rows[k]) {
      if k in s.rows { assert Sound(cfg, s, s.rows[k]); }
    }
    if e.PutRow? {
      forall a, b | a in s'.rows && b in s'.rows && s'.rows[a].objectKey == s'.rows[b].objectKey ensures a == b {
        if a in s.rows && b in s.rows {
          assert s.rows[a].objectKey == s'.rows[a].objectKey && s.rows[b].objectKey == s'.rows[b].objectKey;
        }
      }
    }
  }

  lemma EffectKeepsCache(cfg: Config, s: Store, id: string, e: Effect)
    requires CacheOk(cfg, s) && EffectOk(cfg, s, id, e)
    ensures CacheOk(cfg, Apply(s, e))
  {
    var s' := Apply(s, e);
    EffectExtends(cfg, s, id, e);
    forall k | k in s'.cache ensures Version(cfg, s', k, s'.cache[k]) {
      VersionStable(cfg, s, s', k, s'.cache[k]);
    }
  }

  lemma EffectKeepsParts(cfg: Config, s: Store, id: string, e: Effect)
    requires PartsOk(cfg, s) && EffectOk(cfg, s, id, e)
    ensures PartsOk(cfg, Apply(s, e))
  {
    var s' := Apply(s, e);
    EffectExtends(cfg, s, id, e);
    forall k, n | k in s'.parts && n in s'.parts[k] ensures PartOk(cfg, s'.rows[k], n, s'.parts[k][n]) {
      if !(e.PutPart? && k == id && n == e.number) {
        assert PartOk(cfg, s.rows[k], n, s.parts[k][n]);
      }
    }
  }

  lemma EffectKeepsEvents(cfg: Config, s: Store, id: string, e: Effect)
    requires EventsOk(s) && EffectOk(cfg, s, id, e)
    ensures EventsOk(Apply(s, e))
  {
    var s' := Apply(s, e);
    EffectExtends(cfg, s, id, e);
    forall ev | ev in s'.events ensures EventOk(s', ev) {
      assert EventOk(s, ev);
    }
  }

  lemma EffectKeepsStore(cfg: Config, s: Store, id: string, e: Effect)
    requires StoreInv(cfg, s) && EffectOk(cfg, s, id, e)
    ensures StoreInv(cfg, Apply(s, e))
  {
    EffectKeepsRows(cfg, s, id, e);
    EffectKeepsCache(cfg, s, id, e);
    EffectKeepsParts(cfg, s, id, e);
    EffectKeepsEvents(cfg, s, id, e);
  }

  // ---------- steps ----------

  lemma CallInvStable(cfg: Config, s: Store, s': Store, c: Call)
    requires CallInv(cfg, s, c) && Extends(s, s')
    ensures CallInv(cfg, s', c)
  {
    if HoldsCopy(c) {
      VersionStable(cfg, s, s', c.req.id, c.file);
    }
  }

  /** The call is about to read, or has failed validation. */
  predicate Starts(c: Call) {
    (c.pc == ReadCache && IsRead(c.req)) || (c.pc == ReadRow && !IsCreate(c.req)) ||
    (c.pc == Returned && c.outcome.Failed?)
  }

  lemma BeginShape(cfg: Config, req: Request, now: int64)
    requires !IsCreate(req)
    ensures var c := Begin(cfg, req, now);
            c.req == Resolved(req) && c.spelled == req.id && c.req.id == Uuids.Canon(req.id) && Starts(c)
  {
  }

  lemma StartInv(cfg: Config, s: Store, c: Call)
    requires Starts(c) && Named(c)
    ensures CallInv(cfg, s, c) && PartFacts(c)
  {
  }

  lemma BeginOtherInv(cfg: Config, s: Store, req: Request, now: int64)
    requires !IsCreate(req)
    ensures CallInv(cfg, s, Begin(cfg, req, now)) && PartFacts(Begin(cfg, req, now))
  {
    BeginShape(cfg, req, now);
    Uuids.CanonIsCanonicalIff(req.id);
    StartInv(cfg, s, Begin(cfg, req, now));
  }

  lemma BeginCreateInv(cfg: Config, s: Store, req: Request, now: int64)
    requires IsCreate(req)
    ensures CallInv(cfg, s, Begin(cfg, req, now)) && PartFacts(Begin(cfg, req, now))
  {
    var c := Begin(cfg, req, now);
    if c.pc != Returned {
      assert c.file == NewFile(cfg, req, now);
      assert BuildingOk(cfg, s, c);
    }
  }

  lemma BeginInv(cfg: Config, s: Store, req: Request, now: int64)
    ensures CallInv(cfg, s, Begin(cfg, req, now)) && PartFacts(Begin(cfg, req, now))
  {
    if IsCreate(req) {
      BeginCreateInv(cfg, s, req, now);
    } else {
      BeginOtherInv(cfg, s, req, now);
    }
  }

  lemma BeginCreateShape(cfg: Config, req: Request, now: int64)
    requires IsCreate(req)
    ensures var c := Begin(cfg, req, now);
            && c.req == req && c.spelled == req.id
            && ((c.pc == Returned && c.outcome.Failed?) || c.pc == if req.CreateUpload? then PresignUpload else OpenUpload)
  {
  }

  /** A call as it arrives: about to execute its first statement, or failed. */
  predicate Arrived(c: Call) {
    || Starts(c)
    || (c.req.CreateUpload? && c.pc == PresignUpload)
    || (c.req.CreateMultipart? && c.pc == OpenUpload)
  }

  lemma BeginArrives(cfg: Config, req: Request, now: int64)
    ensures Arrived(Begin(cfg, req, now)) && Begin(cfg, req, now).req == Resolved(req)
  {
    if IsCreate(req) { BeginCreateShape(cfg, req, now); } else { BeginShape(cfg, req, now); }
  }

  lemma ReadRowKeepsPartFacts(s: Store, c: Call, r: Reply)
    requires Legal(c) && c.pc == ReadRow
    ensures PartFacts(Decide(s, c, r).call)
  {
  }

  lemma OtherKeepsPartFacts(s: Store, c: Call, r: Reply)
    requires PartFacts(c) && Legal(c) && c.pc != ReadRow
    ensures PartFacts(Decide(s, c, r).call)
  {
    var d := Decide(s, c, r).call;
    assert d.pc != PresignPart && d.pc != SavePart;
  }

  lemma StepKeepsPartFacts(s: Store, c: Call, r: Reply)
    requires PartFacts(c) && Legal(c)
    ensures PartFacts(Decide(s, c, r).call)
  {
    if c.pc == ReadRow { ReadRowKeepsPartFacts(s, c, r); } else { OtherKeepsPartFacts(s, c, r); }
  }

  lemma SavedPartOk(cfg: Config, s: Store, c: Call, r: Reply)
    requires CallInv(cfg, s, c) && PartFacts(c) && c.pc == SavePart
    ensures EffectOk(cfg, s, c.req.id, Decide(s, c, r).effect)
  {
  }

  lemma RowWriteOk(cfg: Config, s: Store, c: Call, r: Reply)
    requires RowsOk(cfg, s) && CallInv(cfg, s, c)
    requires c.pc == InsertRow || c.pc == ConfirmRow || c.pc == SoftDelete
    ensures EffectOk(cfg, s, c.req.id, Decide(s, c, r).effect)
  {
    if c.req.id in s.rows { assert Sound(cfg, s, s.rows[c.req.id]); }
  }

  predicate WritesRow(pc: Pc) {
    pc == InsertRow || pc == ConfirmRow || pc == SoftDelete
  }

  lemma SideEffectOk(cfg: Config, s: Store, c: Call, r: Reply)
    requires CallInv(cfg, s, c) && c.pc != SavePart && !WritesRow(c.pc)
    ensures EffectOk(cfg, s, c.req.id, Decide(s, c, r).effect)
  {
    assert c.pc == FillCache || c.pc == Publish ==> CopyOk(cfg, s, c);
  }

  /** Each statement has an effect the store invariant allows. */
  lemma StepEffectOk(cfg: Config, s: Store, c: Call, r: Reply)
    requires StoreInv(cfg, s) && CallInv(cfg, s, c) && PartFacts(c)
    ensures EffectOk(cfg, s, c.req.id, Decide(s, c, r).effect)
  {
    if c.pc == SavePart {
      SavedPartOk(cfg, s, c, r);
    } else if c.pc == InsertRow || c.pc == ConfirmRow || c.pc == SoftDelete {
      RowWriteOk(cfg, s, c, r);
    } else {
      SideEffectOk(cfg, s, c, r);
    }
  }

  lemma LiveRowKeepsCall(cfg: Config, s: Store, c: Call, f: FileMetadata)
    requires Named(c) && Version(cfg, s, c.req.id, f) && f.owner == c.req.owner && IsRead(c.req)
    ensures CallInv(cfg, s, OnLiveRow(c, f))
  {
  }

  lemma ReadKeepsCall(cfg: Config, s: Store, c: Call, f: FileMetadata)
    requires Named(c) && Version(cfg, s, c.req.id, f) && f.owner == c.req.owner && f.status != Deleted && IsRead(c.req)
    ensures CallInv(cfg, s, AfterRead(c.(file := f)))
  {
  }

  lemma PendingRowKeepsCall(cfg: Config, s: Store, c: Call, f: FileMetadata)
    requires Named(c) && Version(cfg, s, c.req.id, f) && f.owner == c.req.owner
    requires !IsRead(c.req) && !IsCreate(c.req) && !c.req.ConfirmUpload?
    ensures CallInv(cfg, s, OnPending(c, f))
  {
  }

  lemma FoundRowKeepsCall(cfg: Config, s: Store, c: Call, f: FileMetadata)
    requires Named(c) && !IsCreate(c.req) && Version(cfg, s, c.req.id, f)
    ensures CallInv(cfg, s, OnRow(c, f))
  {
    if f.owner == c.req.owner {
      if IsRead(c.req) {
        LiveRowKeepsCall(cfg, s, c, f);
      } else if !c.req.ConfirmUpload? {
        PendingRowKeepsCall(cfg, s, c, f);
      }
    }
  }

  lemma ReadRowKeepsCall(cfg: Config, s: Store, c: Call, r: Reply)
    requires RowsOk(cfg, s) && CallInv(cfg, s, c) && c.pc == ReadRow
    ensures CallInv(cfg, s, Decide(s, c, r).call)
  {
    assert Decide(s, c, r) == DoReadRow(s, c, r);
    if r.ok && c.req.id in s.rows {
      assert Version(cfg, s, c.req.id, s.rows[c.req.id]);
      FoundRowKeepsCall(cfg, s, c, s.rows[c.req.id]);
    }
  }

  /** Only the canonical spelling of an id can hit the cache, or drop an entry from it. */
  lemma HitIsCanonical(cfg: Config, s: Store, c: Call)
    requires RowsOk(cfg, s) && CacheOk(cfg, s) && Named(c) && c.spelled in s.cache
    ensures c.spelled == c.req.id && c.req.id in s.rows
  {
    assert Version(cfg, s, c.spelled, s.cache[c.spelled]);
  }

  lemma ReadCopies(s: Store, c: Call, r: Reply)
    requires Legal(c) && (c.pc == ReadRow || c.pc == ReadCache) && HoldsCopy(Decide(s, c, r).call)
    requires c.spelled in s.cache ==> c.spelled == c.req.id
    ensures var id, f := c.req.id, Decide(s, c, r).call.file;
            (id in s.cache && f == s.cache[id]) || (id in s.rows && f == s.rows[id])
    ensures Decide(s, c, r).call.req == c.req
  {
  }

  /** What a read leaves in the call's hands is the cached entry or the row of its file. */
  lemma ReadSource(cfg: Config, s: Store, c: Call, r: Reply)
    requires RowsOk(cfg, s) && CacheOk(cfg, s) && Named(c) && Legal(c)
    requires (c.pc == ReadRow || c.pc == ReadCache) && HoldsCopy(Decide(s, c, r).call)
    ensures var id, f := c.req.id, Decide(s, c, r).call.file;
            (id in s.cache && f == s.cache[id]) || (id in s.rows && f == s.rows[id])
    ensures Decide(s, c, r).call.req == c.req
  {
    if c.spelled in s.cache { HitIsCanonical(cfg, s, c); }
    ReadCopies(s, c, r);
  }

  lemma ReadCacheKeepsCall(cfg: Config, s: Store, c: Call, r: Reply)
    requires RowsOk(cfg, s) && CacheOk(cfg, s) && CallInv(cfg, s, c) && c.pc == ReadCache
    ensures CallInv(cfg, s, Decide(s, c, r).call)
  {
    if r.ok && c.spelled in s.cache {
      var f := s.cache[c.spelled];
      HitIsCanonical(cfg, s, c);
      if f.owner == c.req.owner && f.status != Deleted {
        ReadKeepsCall(cfg, s, c, f);
      }
    }
  }

  lemma InsertKeepsCall(cfg: Config, s: Store, c: Call, r: Reply)
    requires RowsOk(cfg, s) && CallInv(cfg, s, c) && c.pc == InsertRow
    ensures CallInv(cfg, Step(s, c, r).store, Step(s, c, r).call)
  {
  }

  lemma NoRowWritten(s: Store, c: Call, r: Reply)
    requires !WritesRow(c.pc)
    ensures !Decide(s, c, r).effect.PutRow?
  {
  }

  /** The row a statement writes is the call's own: new, or the next version of the one stored. */
  lemma WrittenRow(cfg: Config, s: Store, c: Call, r: Reply)
    requires RowsOk(cfg, s) && CallInv(cfg, s, c) && Decide(s, c, r).effect.PutRow?
    ensures WritesRow(c.pc) && r.ok && Decide(s, c, r).effect.row.id == c.req.id
    ensures c.pc == InsertRow <==> c.req.id !in s.rows
    ensures c.pc == InsertRow ==> Decide(s, c, r).effect.row == c.file
    ensures c.pc == ConfirmRow ==> Decide(s, c, r).effect.row.status == Ready && Decide(s, c, r).effect.row.mode == Single
    ensures c.pc == SoftDelete ==>
              && Decide(s, c, r).effect.row.status == Deleted
              && Decide(s, c, r).effect.row.mode == s.rows[c.req.id].mode
              && UploadOf(Decide(s, c, r).effect.row) == UploadOf(s.rows[c.req.id])
  {
    if WritesRow(c.pc) {
      if c.req.id in s.rows { assert s.rows[c.req.id].id == c.req.id; }
    } else {
      NoRowWritten(s, c, r);
    }
  }

  lemma RowAfter(s: Store, e: Effect, id: string)
    requires id in Apply(s, e).rows
    ensures || (id in s.rows && Apply(s, e).rows[id] == s.rows[id])
            || (e.PutRow? && e.row.id == id && Apply(s, e).rows[id] == e.row)
  {
  }

  lemma ReadyKeepsCall(cfg: Config, s: Store, c: Call, f: FileMetadata, pc: Pc)
    requires Named(c) && IsConfirm(c.req) && Version(cfg, s, c.req.id, f) && f.owner == c.req.owner && f.status == Ready
    requires pc == FillCache || (pc == DeleteParts && c.req.CompleteMultipart?)
    ensures CallInv(cfg, s, c.(file := f, pc := pc))
  {
  }

  lemma ConfirmKeepsCall(cfg: Config, s: Store, c: Call, r: Reply)
    requires RowsOk(cfg, s) && CallInv(cfg, s, c) && c.pc == ConfirmRow
    ensures CallInv(cfg, Step(s, c, r).store, Step(s, c, r).call)
  {
    var m := Decide(s, c, r);
    if m.call.pc != Returned {
      var f := m.effect.row;
      assert Sound(cfg, s, s.rows[c.req.id]);
      ReadyKeepsCall(cfg, Apply(s, m.effect), c, f, m.call.pc);
    }
  }

  lemma DeletingKeepsCall(cfg: Config, s: Store, c: Call, pc: Pc)
    requires IsDelete(c.req) && CallInv(cfg, s, c) && c.pc == SoftDelete
    requires pc == Invalidate || (c.req.DeleteFile? && (pc == RemoveObject || (pc == AbortUpload && PendingMultipart(c.file))))
    ensures CallInv(cfg, s, c.Goto(pc))
  {
  }

  lemma SoftDeleteKeepsCall(cfg: Config, s: Store, c: Call, r: Reply)
    requires RowsOk(cfg, s) && CallInv(cfg, s, c) && c.pc == SoftDelete
    ensures CallInv(cfg, Step(s, c, r).store, Step(s, c, r).call)
  {
    var m := Decide(s, c, r);
    if m.call.pc != Returned {
      RowWriteOk(cfg, s, c, r);
      EffectExtends(cfg, s, c.req.id, m.effect);
      DeletingKeepsCall(cfg, s, c, m.call.pc);
      CallInvStable(cfg, s, Apply(s, m.effect), m.call);
    }
  }

  lemma FillKeepsCall(cfg: Config, s: Store, c: Call)
    requires CallInv(cfg, s, c) && c.pc == FillCache
    ensures CallInv(cfg, s, AfterFill(c))
  {
    if IsRead(c.req) { ReadKeepsCall(cfg, s, c, c.file); }
  }

  lemma AnnouncedFacts(c: Call)
    requires Legal(c) && c.pc == Publish && CopyFacts(c)
    ensures CopyFacts(c.Return(PublishedOutcome(c))) && !PublishedOutcome(c).Failed?
  {
  }

  lemma AnnouncedKeepsCall(cfg: Config, s: Store, c: Call)
    requires CallInv(cfg, s, c) && c.pc == Publish
    ensures CallInv(cfg, s, c.Return(PublishedOutcome(c)))
  {
    assert CopyOk(cfg, s, c);
    AnnouncedFacts(c);
  }

  lemma PublishKeepsCall(cfg: Config, s: Store, c: Call, r: Reply)
    requires CallInv(cfg, s, c) && c.pc == Publish
    ensures CallInv(cfg, s, Decide(s, c, r).call)
  {
    AnnouncedKeepsCall(cfg, s, c);
  }

  /** The way through the cleanup statements. */
  lemma GoKeepsCall(cfg: Config, s: Store, c: Call, next: Pc)
    requires CallInv(cfg, s, c)
    requires match c.pc
             case Invalidate => next == Publish
             case RemoveObject => next == Invalidate
             case AbortUpload => next == DeleteParts
             case DeleteParts =>
               next == if c.req.CompleteMultipart? then FillCache else if c.req.AbortMultipart? then SoftDelete else Invalidate
             case _ => false
    ensures CallInv(cfg, s, c.Goto(next))
  {
    assert CopyOk(cfg, s, c);
  }

  lemma CleanupKeepsCall(cfg: Config, s: Store, c: Call, r: Reply)
    requires CallInv(cfg, s, c)
    requires c.pc == Invalidate || c.pc == DeleteParts || c.pc == AbortUpload || c.pc == RemoveObject || c.pc == Publish
    ensures CallInv(cfg, s, Decide(s, c, r).call)
  {
    assert CopyOk(cfg, s, c);
    if c.pc == Publish { PublishKeepsCall(cfg, s, c, r); } else { GoKeepsCall(cfg, s, c, Decide(s, c, r).call.pc); }
  }

  lemma StorageKeepsCall(cfg: Config, s: Store, c: Call, r: Reply)
    requires CallInv(cfg, s, c)
    requires c.pc == PresignUpload || c.pc == PresignDownload || c.pc == PresignPart || c.pc == RollbackUpload
          || c.pc == FinishUpload || c.pc == SelectParts || c.pc == SavePart || c.pc == Returned
    ensures CallInv(cfg, s, Decide(s, c, r).call)
  {
    var c' := Decide(s, c, r).call;
    assert c'.file == c.file && c'.req == c.req;
  }

  /** The statements that change neither a row nor the local copy. */
  lemma OtherKeepsCall(cfg: Config, s: Store, c: Call, r: Reply)
    requires CallInv(cfg, s, c) && c.pc != ReadRow && c.pc != ReadCache && c.pc != OpenUpload
    requires c.pc != InsertRow && c.pc != ConfirmRow && c.pc != SoftDelete
    ensures CallInv(cfg, s, Decide(s, c, r).call)
  {
    if c.pc == FillCache {
      FillKeepsCall(cfg, s, c);
    } else if c.pc == Invalidate || c.pc == DeleteParts || c.pc == AbortUpload || c.pc == RemoveObject || c.pc == Publish {
      CleanupKeepsCall(cfg, s, c, r);
    } else {
      StorageKeepsCall(cfg, s, c, r);
    }
  }

  lemma SideEffectIsQuiet(s: Store, c: Call, r: Reply)
    requires c.pc != InsertRow && c.pc != ConfirmRow && c.pc != SoftDelete
    ensures Step(s, c, r).store.rows == s.rows && Extends(s, Step(s, c, r).store)
  {
  }

  lemma StepKeepsCall(cfg: Config, s: Store, c: Call, r: Reply)
    requires StoreInv(cfg, s) && CallInv(cfg, s, c)
    ensures CallInv(cfg, Step(s, c, r).store, Step(s, c, r).call)
  {
    if c.pc == ReadRow {
      ReadRowKeepsCall(cfg, s, c, r);
    } else if c.pc == ReadCache {
      ReadCacheKeepsCall(cfg, s, c, r);
    } else if c.pc == InsertRow {
      InsertKeepsCall(cfg, s, c, r);
    } else if c.pc == ConfirmRow {
      ConfirmKeepsCall(cfg, s, c, r);
    } else if c.pc == SoftDelete {
      SoftDeleteKeepsCall(cfg, s, c, r);
    } else if c.pc != OpenUpload {
      OtherKeepsCall(cfg, s, c, r);
      SideEffectIsQuiet(s, c, r);
      CallInvStable(cfg, s, Step(s, c, r).store, Decide(s, c, r).call);
    }
  }

  lemma ReadKeepsRequest(s: Store, c: Call, r: Reply)
    requires c.pc == ReadRow || c.pc == ReadCache
    ensures Decide(s, c, r).call.req == c.req && Decide(s, c, r).call.spelled == c.spelled
  {
  }

  lemma RequestIsKept(s: Store, c: Call, r: Reply)
    ensures Decide(s, c, r).call.req == c.req && Decide(s, c, r).call.spelled == c.spelled
  {
    if c.pc == ReadRow || c.pc == ReadCache { ReadKeepsRequest(s, c, r); }
  }

  lemma OnlyFillCaches(s: Store, c: Call, r: Reply)
    ensures Decide(s, c, r).effect.PutCache? ==> c.pc == FillCache && Decide(s, c, r).effect.entry == c.file
  {
  }

  lemma CacheAfter(s: Store, e: Effect, id: string)
    requires id in Apply(s, e).cache
    ensures || (id in s.cache && Apply(s, e).cache[id] == s.cache[id])
            || (e.PutCache? && e.entry.id == id && Apply(s, e).cache[id] == e.entry)
  {
  }

  /** Where a cache entry comes from: it was there, or the call has just written its copy. */
  lemma CacheSource(cfg: Config, s: Store, c: Call, r: Reply, id: string)
    requires CallInv(cfg, s, c) && id in Step(s, c, r).store.cache
    ensures var f := Step(s, c, r).store.cache[id];
            (id in s.cache && f == s.cache[id]) || (HoldsCopy(c) && id == c.req.id && f == c.file)
  {
    OnlyFillCaches(s, c, r);
    CacheAfter(s, Decide(s, c, r).effect, id);
  }

  /** An allowed effect keeps the store invariant and, through versions, that of every call. */
  lemma EffectKeepsInv(cfg: Config, sys: System, id: string, e: Effect)
    requires SystemInv(cfg, sys) && EffectOk(cfg, sys.store, id, e)
    ensures SystemInv(cfg, sys.(store := Apply(sys.store, e)))
    ensures Extends(sys.store, Apply(sys.store, e))
  {
    EffectExtends(cfg, sys.store, id, e);
    EffectKeepsStore(cfg, sys.store, id, e);
    forall t | t in sys.calls ensures CallInv(cfg, Apply(sys.store, e), sys.calls[t]) {
      CallInvStable(cfg, sys.store, Apply(sys.store, e), sys.calls[t]);
    }
  }

  lemma StepKeepsInv(cfg: Config, sys: System, tid: nat, r: Reply)
    requires SystemInv(cfg, sys) && tid in sys.calls
    ensures SystemInv(cfg, Next(cfg, sys, Advance(tid, r)))
    ensures Extends(sys.store, Next(cfg, sys, Advance(tid, r)).store)
  {
    var c, s, sys' := sys.calls[tid], sys.store, Next(cfg, sys, Advance(tid, r));
    StepEffectOk(cfg, s, c, r);
    EffectKeepsInv(cfg, sys, c.req.id, Decide(s, c, r).effect);
    StepKeepsCall(cfg, s, c, r);
    StepKeepsPartFacts(s, c, r);
    forall t | t in sys'.calls ensures CallInv(cfg, sys'.store, sys'.calls[t]) {
      if t != tid { assert CallInv(cfg, sys'.store, sys.calls[t]); }
    }
  }

  lemma ArrivalKeepsInv(cfg: Config, sys: System, tid: nat, c: Call)
    requires SystemInv(cfg, sys) && CallInv(cfg, sys.store, c) && PartFacts(c)
    ensures SystemInv(cfg, sys.(calls := sys.calls[tid := c]))
  {
  }

  /** Every action of an interleaved run keeps the invariant and only advances rows. */
  lemma NextKeepsInv(cfg: Config, sys: System, a: Action)
    requires SystemInv(cfg, sys)
    ensures SystemInv(cfg, Next(cfg, sys, a))
    ensures Extends(sys.store, Next(cfg, sys, a).store)
  {
    var sys' := Next(cfg, sys, a);
    match a
    case Invoke(tid, req, now) =>
      if tid !in sys.calls {
        BeginInv(cfg, sys.store, req, now);
        ArrivalKeepsInv(cfg, sys, tid, Begin(cfg, req, now));
      }
    case Advance(tid, reply) =>
      if tid in sys.calls { StepKeepsInv(cfg, sys, tid, reply); }
    case Evict(id) =>
      EffectKeepsInv(cfg, sys, id, DropCache(id));
    case ClientPut(key) =>
      EffectKeepsInv(cfg, sys, "", PutObject(key));
  }

  lemma ExtendsTransitive(a: Store, b: Store, c: Store)
    requires Extends(a, b) && Extends(b, c)
    ensures Extends(a, c)
  {
    forall id | id in a.rows ensures id in c.rows && Advances(a.rows[id], c.rows[id]) {
      AdvancesTransitive(a.rows[id], b.rows[id], c.rows[id]);
    }
  }

  lemma {:induction false} RunKeepsInv(cfg: Config, sys: System, actions: seq<Action>)
    requires SystemInv(cfg, sys)
    ensures SystemInv(cfg, Run(cfg, sys, actions))
    ensures Extends(sys.store, Run(cfg, sys, actions).store)
    decreases |actions|
  {
    if actions != [] {
      var front := actions[..|actions| - 1];
      RunKeepsInv(cfg, sys, front);
      NextKeepsInv(cfg, Run(cfg, sys, front), actions[|actions| - 1]);
      ExtendsTransitive(sys.store, Run(cfg, sys, front).store, Run(cfg, sys, actions).store);
    }
  }

  // ---------- what it means ----------

  ghost predicate Reachable(cfg: Config, sys: System) {
    exists actions :: sys == Run(cfg, INIT, actions)
  }

  lemma ReachableInv(cfg: Config, sys: System)
    requires Reachable(cfg, sys)
    ensures SystemInv(cfg, sys)
  {
    var actions :| sys == Run(cfg, INIT, actions);
    RunKeepsInv(cfg, INIT, actions);
  }

  function Rank(st: FileStatus): nat {
    match st case Pending => 0 case Ready => 1 case Deleted => 2
  }

  lemma {:induction false} RunConcat(cfg: Config, sys: System, xs: seq<Action>, ys: seq<Action>)
    ensures Run(cfg, sys, xs + ys) == Run(cfg, Run(cfg, sys, xs), ys)
    decreases |ys|
  {
    if ys == [] {
      assert xs + ys == xs;
    } else {
      var front := ys[..|ys| - 1];
      assert (xs + ys)[..|xs + ys| - 1] == xs + front;
      RunConcat(cfg, sys, xs, front);
    }
  }

  /** Safety over whole runs: between any two moments of any interleaving, with any failures, a
      row's status only moves forward, its identity never changes, and its checksum is written
      at most once, on the way out of pending. */
  lemma RowsOnlyMoveForward(cfg: Config, earlier: seq<Action>, later: seq<Action>, id: string)
    requires id in Run(cfg, INIT, earlier).store.rows
    ensures id in Run(cfg, INIT, earlier + later).store.rows
    ensures var a, b := Run(cfg, INIT, earlier).store.rows[id], Run(cfg, INIT, earlier + later).store.rows[id];
            && Rank(a.status) <= Rank(b.status)
            && a.id == b.id && a.owner == b.owner && a.objectKey == b.objectKey && a.size == b.size
            && a.createdAt == b.createdAt && a.name == b.name && a.contentType == b.contentType
            && (a.checksum != b.checksum ==> a.status == Pending && a.checksum == "" && b.status != Pending)
            && (a.status == b.status ==> a == b)
  {
    RunKeepsInv(cfg, INIT, earlier);
    RunConcat(cfg, INIT, earlier, later);
    RunKeepsInv(cfg, Run(cfg, INIT, earlier), later);
    assert Sound(cfg, Run(cfg, INIT, earlier).store, Run(cfg, INIT, earlier).store.rows[id]);
  }

  /** Row shape in every reachable state. */
  lemma RowShape(cfg: Config, sys: System, id: string)
    requires ValidConfig(cfg) && Reachable(cfg, sys) && id in sys.store.rows
    ensures var f := sys.store.rows[id];
            && (f.IsMultipart() <==> f.uploadId != "") && (f.IsMultipart() <==> f.partSize > 0)
            && (f.status == Ready ==> !f.IsMultipart() && f.TotalParts() == 0)
  {
    ReachableInv(cfg, sys);
    assert Sound(cfg, sys.store, sys.store.rows[id]);
  }

  /** In every reachable state the stored parts of a pending multipart row are in range and carry
      ETags, so its part checks can fail only on a missing part. */
  lemma PendingRowParts(cfg: Config, sys: System, id: string)
    requires Reachable(cfg, sys) && id in sys.store.rows && PendingMultipart(sys.store.rows[id])
    ensures var parts, total := PartsOf(sys.store, id), sys.store.rows[id].TotalParts();
            && (forall n | n in parts :: PartSizes.ValidPartNumber(n, total) && parts[n].etag != "")
            && (Completion.PassesChecks(Completion.Listing(parts), total) <==> |parts.Keys| == total)
  {
    ReachableInv(cfg, sys);
    var s, f, parts := sys.store, sys.store.rows[id], PartsOf(sys.store, id);
    assert Sound(cfg, s, f);
    forall n | n in parts ensures PartOk(cfg, f, n, parts[n]) {
      assert PartOk(cfg, s.rows[id], n, s.parts[id][n]);
    }
    Completion.OnlyMissingPartsFail(parts, f.TotalParts());
  }

  lemma StoredPartsInRange(cfg: Config, s: Store, c: Call)
    requires StoreInv(cfg, s) && CallInv(cfg, s, c) && c.pc == SelectParts
    ensures forall n | n in PartsOf(s, c.req.id) ::
              PartSizes.ValidPartNumber(n, c.file.TotalParts()) && PartsOf(s, c.req.id)[n].etag != ""
  {
    assert PendingMultipart(c.file) && c.file.partSize == cfg.partSize;
    forall n | n in PartsOf(s, c.req.id) ensures PartOk(cfg, c.file, n, PartsOf(s, c.req.id)[n]) {
      assert PartOk(cfg, s.rows[c.req.id], n, s.parts[c.req.id][n]);
    }
  }

  /** In every reachable state the parts a call finds are in range and carry ETags, so the range
      and duplicate checks of a completion cannot fire: it passes exactly when no part is missing. */
  lemma CompletionFailsOnlyOnMissingParts(cfg: Config, sys: System, tid: nat)
    requires Reachable(cfg, sys) && tid in sys.calls && sys.calls[tid].pc == SelectParts
    ensures forall n | n in PartsOf(sys.store, sys.calls[tid].req.id) ::
              && PartSizes.ValidPartNumber(n, sys.calls[tid].file.TotalParts())
              && PartsOf(sys.store, sys.calls[tid].req.id)[n].etag != ""
    ensures Completion.PassesChecks(Completion.Listing(PartsOf(sys.store, sys.calls[tid].req.id)), sys.calls[tid].file.TotalParts())
            <==> |PartsOf(sys.store, sys.calls[tid].req.id).Keys| == sys.calls[tid].file.TotalParts()
  {
    ReachableInv(cfg, sys);
    var c, stored := sys.calls[tid], PartsOf(sys.store, sys.calls[tid].req.id);
    assert CallInv(cfg, sys.store, c);
    StoredPartsInRange(cfg, sys.store, c);
    Completion.OnlyMissingPartsFail(stored, c.file.TotalParts());
  }
}
