/** The upload lifecycle as a step machine. A call of the service is a program counter and local
    variables; every statement to the repository, the cache, object storage or the event log is
    one atomic step, and any of them may fail. Calls interleave freely. */
module Protocol {
  import opened Domain
  import Completion
  import ObjectKeys
  import PageTokens
  import PartSizes
  import Text
  import Uuids
  import Validation

  // ---------- the four stores ----------

  /** A multipart upload in object storage. */
  datatype Upload = Upload(key: string, id: string)

  datatype EventKind = FileCreated | FileReady | FileDeleted

  datatype Event = Event(kind: EventKind, fileId: string, owner: string, objectKey: string)

  datatype Store = Store(
    rows: map<string, FileMetadata>,                // table files
    parts: map<string, map<int32, UploadPart>>,     // table upload_parts, by file
    cache: map<string, FileMetadata>,               // Redis
    uploads: set<Upload>,                           // open multipart uploads
    issued: set<Upload>,                            // every upload ever opened
    objects: map<string, seq<CompletedPart>>,       // stored objects, with the parts they were assembled from
    events: seq<Event>                              // Kafka
  )

  const EMPTY: Store := Store(map[], map[], map[], {}, {}, map[], [])

  datatype Config = Config(partSize: int64, maxSize: int64, bucket: string)

  /** The lower bound that configuration loading enforces. */
  predicate ValidConfig(cfg: Config) {
    cfg.partSize >= PartSizes.MIN_PART_SIZE
  }

  // ---------- calls ----------

  /** A call as it arrives. The id is text, as the caller spells it; for the two creations it is the
      UUID the service generates. */
  datatype Request =
    | CreateUpload(id: string, owner: string, name: string, contentType: string, size: int64)
    | CreateMultipart(id: string, owner: string, name: string, contentType: string, size: int64)
    | ConfirmUpload(id: string, owner: string, checksum: string)
    | GetFile(id: string, owner: string)
    | GetDownloadUrl(id: string, owner: string)
    | DeleteFile(id: string, owner: string)
    | GetPartUrl(id: string, owner: string, number: int32)
    | ReportPart(id: string, owner: string, number: int32, etag: string)
    | ListParts(id: string, owner: string)
    | CompleteMultipart(id: string, owner: string, checksum: string)
    | AbortMultipart(id: string, owner: string)

  /** The external statement a call executes next. */
  datatype Pc =
    | ReadCache | FillCache | Invalidate
    | ReadRow | InsertRow | ConfirmRow | SoftDelete
    | SavePart | SelectParts | DeleteParts
    | PresignUpload | PresignDownload | PresignPart
    | OpenUpload | RollbackUpload | FinishUpload | AbortUpload | RemoveObject
    | Publish
    | Returned

  datatype Outcome =
    | OkFile(file: FileMetadata)
    | OkUrl(key: string)
    | OkPartUrl(upload: Upload, number: int32, size: int64)
    | OkPart(number: int32, part: UploadPart)
    | OkParts(upload: Upload, partSize: int64, total: int32, listed: seq<Completion.ListedPart>)
    | OkDone
    | Failed(error: Error)

  /** A call in progress. Repository statements match the UUID column by value, so the request is
      kept with the canonical id it stands for; the cache is keyed by text, so the caller's
      spelling is kept beside it. */
  datatype Call = Call(
    req: Request, spelled: string, pc: Pc, file: FileMetadata, handed: seq<CompletedPart>, outcome: Outcome)
  {
    function Goto(next: Pc): Call {
      this.(pc := next)
    }

    function Return(o: Outcome): Call {
      this.(pc := Returned, outcome := o)
    }

    function Fail(e: Error): Call {
      Return(Failed(e))
    }
  }

  const NO_FILE: FileMetadata :=
    FileMetadata("", "", "", "", "", "", 0, "", Pending, Single, "", 0, 0, 0)

  /** What the outside world answers to one statement. */
  datatype Reply = Reply(ok: bool, now: int64, uploadId: string)

  function NormalizeETag(etag: string): string {
    Text.Trim(Text.Trim(etag, Text.IsSpace), Text.IsQuote)
  }

  function NewFile(cfg: Config, req: Request, now: int64): FileMetadata
    requires req.CreateUpload? || req.CreateMultipart?
  {
    FileMetadata(
      req.id, req.owner, cfg.bucket, ObjectKeys.ObjectKey(req.owner, req.id, req.name), req.name,
      req.contentType, req.size, "", Pending,
      if req.CreateMultipart? then Multipart else Single, "",
      if req.CreateMultipart? then cfg.partSize else 0, now, now)
  }

  /** The request with the id its text stands for. */
  function Resolved(req: Request): Request {
    req.(id := if req.CreateUpload? || req.CreateMultipart? then req.id else Uuids.Canon(req.id))
  }

  function BeginWith(call: Call, pc: Pc): Call {
    if call.spelled == "" || call.req.owner == "" then call.Fail(InvalidInput) else call.Goto(pc)
  }

  /** The local checks before the first statement. uuid.NewString yields only canonical text; an
      action that supplies any other id for a creation goes no further. */
  function Begin(cfg: Config, req: Request, now: int64): Call {
    var call := Call(Resolved(req), req.id, Returned, NO_FILE, [], OkDone);
    match req
    case CreateUpload(id, owner, name, contentType, size) =>
      if !Validation.ValidCreate(owner, name, contentType, size, cfg.maxSize) then call.Fail(InvalidInput)
      else if !PageTokens.IsCanonical(id) then call.Fail(Internal)
      else call.(pc := PresignUpload, file := NewFile(cfg, req, now))
    case CreateMultipart(id, owner, name, contentType, size) =>
      if !Validation.ValidCreate(owner, name, contentType, size, cfg.maxSize) then call.Fail(InvalidInput)
      else if size <= cfg.partSize then call.Fail(InvalidInput)
      else if !PageTokens.IsCanonical(id) then call.Fail(Internal)
      else call.(pc := OpenUpload, file := NewFile(cfg, req, now))
    case GetFile(_, _) => BeginWith(call, ReadCache)
    case GetDownloadUrl(_, _) => BeginWith(call, ReadCache)
    case DeleteFile(_, _) => BeginWith(call, ReadCache)
    case ConfirmUpload(id, owner, checksum) =>
      if !Validation.ValidChecksum(checksum) then call.Fail(InvalidInput) else BeginWith(call, ReadRow)
    case CompleteMultipart(id, owner, checksum) =>
      if !Validation.ValidChecksum(checksum) then call.Fail(InvalidInput) else BeginWith(call, ReadRow)
    case _ => BeginWith(call, ReadRow)
  }

  // ---------- single statements ----------

  function UploadOf(f: FileMetadata): Upload {
    Upload(f.objectKey, f.uploadId)
  }

  /** UPDATE files SET status = 'ready', ... */
  function Confirmed(f: FileMetadata, checksum: string, now: int64): FileMetadata {
    f.(status := Ready, checksum := checksum, updatedAt := now, uploadId := "", mode := Single, partSize := 0)
  }

  /** UPDATE files SET status = 'deleted', ... */
  function SoftDeleted(f: FileMetadata, now: int64): FileMetadata {
    f.(status := Deleted, updatedAt := now)
  }

  predicate KeyTaken(rows: map<string, FileMetadata>, key: string) {
    exists id | id in rows :: rows[id].objectKey == key
  }

  /** The primary key and the UNIQUE object key admit the row. */
  predicate Insertable(rows: map<string, FileMetadata>, f: FileMetadata) {
    f.id !in rows && !KeyTaken(rows, f.objectKey)
  }

  function PartsOf(s: Store, id: string): map<int32, UploadPart> {
    if id in s.parts then s.parts[id] else map[]
  }

  function EventOf(kind: EventKind, f: FileMetadata): Event {
    Event(kind, f.id, f.owner, f.objectKey)
  }

  function KindPublished(req: Request): EventKind {
    if req.CreateUpload? || req.CreateMultipart? then FileCreated
    else if req.ConfirmUpload? || req.CompleteMultipart? then FileReady
    else FileDeleted
  }

  function PublishedOutcome(call: Call): Outcome {
    if call.req.DeleteFile? || call.req.AbortMultipart? then OkDone else OkFile(call.file)
  }

  // ---------- one step ----------

  /** What one statement does to the stores. */
  datatype Effect =
    | NoEffect
    | PutRow(row: FileMetadata)
    | PutCache(entry: FileMetadata)
    | DropCache(id: string)
    | PutPart(id: string, number: int32, part: UploadPart)
    | DropParts(id: string)
    | Open(upload: Upload)
    | Close(upload: Upload)
    | Assemble(upload: Upload, completed: seq<CompletedPart>)
    | Remove(key: string)
    | PutObject(key: string)
    | Emit(event: Event)

  function Apply(s: Store, e: Effect): Store {
    match e
    case NoEffect => s
    case PutRow(row) => s.(rows := s.rows[row.id := row])
    case PutCache(entry) => s.(cache := s.cache[entry.id := entry])
    case DropCache(id) => s.(cache := s.cache - {id})
    case PutPart(id, number, part) => s.(parts := s.parts[id := PartsOf(s, id)[number := part]])
    case DropParts(id) => s.(parts := s.parts - {id})
    case Open(u) => s.(uploads := s.uploads + {u}, issued := s.issued + {u})
    case Close(u) => s.(uploads := s.uploads - {u})
    case Assemble(u, completed) => s.(uploads := s.uploads - {u}, objects := s.objects[u.key := completed])
    case Remove(key) => s.(objects := s.objects - {key})
    case PutObject(key) => s.(objects := s.objects[key := []])
    case Emit(event) => s.(events := s.events + [event])
  }

  /** A statement's effect, and the call as it goes on. */
  datatype Move = Move(effect: Effect, call: Call)

  /** The caller of GetFile goes on with the metadata it got. */
  function AfterRead(call: Call): Call {
    match call.req
    case GetDownloadUrl(_, _) =>
      if call.file.CanDownload() then call.Goto(PresignDownload) else call.Fail(InvalidInput)
    case DeleteFile(_, _) => call.Goto(SoftDelete)
    case _ => call.Return(OkFile(call.file))
  }

  function OnCacheEntry(call: Call, cached: FileMetadata): Call {
    if !cached.IsOwnedBy(call.req.owner) then call.Fail(AccessDenied)
    else if cached.status != Deleted then AfterRead(call.(file := cached))
    else call.Goto(ReadRow)
  }

  /** getPendingMultipart and the checks that follow it. */
  function OnPending(call: Call, row: FileMetadata): Call {
    if row.status != Pending then call.Fail(NotFound)
    else if !row.IsMultipart() || row.uploadId == "" then call.Fail(InvalidInput)
    else
      var c := call.(file := row);
      match call.req
      case GetPartUrl(_, _, number) =>
        if PartSizes.ValidPartNumber(number, row.TotalParts()) then c.Goto(PresignPart) else call.Fail(InvalidInput)
      case ReportPart(_, _, number, etag) =>
        if !PartSizes.ValidPartNumber(number, row.TotalParts()) then call.Fail(InvalidInput)
        else if NormalizeETag(etag) == "" then call.Fail(InvalidInput)
        else c.Goto(SavePart)
      case AbortMultipart(_, _) => c.Goto(AbortUpload)
      case _ => c.Goto(SelectParts)
  }

  function OnLiveRow(call: Call, row: FileMetadata): Call {
    if row.status == Deleted then call.Fail(NotFound) else call.(pc := FillCache, file := row)
  }

  function OnRow(call: Call, row: FileMetadata): Call {
    if !row.IsOwnedBy(call.req.owner) then call.Fail(AccessDenied)
    else
      match call.req
      case ConfirmUpload(_, _, _) =>
        if row.status == Ready then call.Fail(AlreadyExists)
        else if row.status == Deleted then call.Fail(NotFound)
        else call.(pc := ConfirmRow, file := row)
      case GetFile(_, _) => OnLiveRow(call, row)
      case GetDownloadUrl(_, _) => OnLiveRow(call, row)
      case DeleteFile(_, _) => OnLiveRow(call, row)
      case _ => OnPending(call, row)
  }

  function DoReadCache(s: Store, call: Call, r: Reply): Move {
    Move(NoEffect,
         if r.ok && call.spelled in s.cache then OnCacheEntry(call, s.cache[call.spelled]) else call.Goto(ReadRow))
  }

  /** A text that is no UUID is an error of the statement, not a missing row. */
  function DoReadRow(s: Store, call: Call, r: Reply): Move {
    Move(NoEffect,
         if !r.ok || !PageTokens.IsCanonical(call.req.id) then call.Fail(Internal)
         else if call.req.id !in s.rows then call.Fail(NotFound)
         else OnRow(call, s.rows[call.req.id]))
  }

  function DoInsert(s: Store, call: Call, r: Reply): Move {
    if r.ok && Insertable(s.rows, call.file) then Move(PutRow(call.file), call.Goto(FillCache))
    else Move(NoEffect, if call.req.CreateMultipart? then call.Goto(RollbackUpload) else call.Fail(Internal))
  }

  function DoConfirm(s: Store, call: Call, r: Reply): Move {
    if !r.ok then Move(NoEffect, call.Fail(Internal))
    else if call.req.id in s.rows && s.rows[call.req.id].status == Pending &&
            (call.req.ConfirmUpload? || call.req.CompleteMultipart?) then
      var row := Confirmed(s.rows[call.req.id], call.req.checksum, r.now);
      Move(PutRow(row), call.(file := row, pc := if call.req.CompleteMultipart? then DeleteParts else FillCache))
    else Move(NoEffect, call.Fail(NotFound))
  }

  function DoSoftDelete(s: Store, call: Call, r: Reply): Move {
    if !r.ok then Move(NoEffect, call.Fail(Internal))
    else if call.req.id in s.rows && s.rows[call.req.id].status != Deleted then
      Move(PutRow(SoftDeleted(s.rows[call.req.id], r.now)),
           call.Goto(
             if call.req.AbortMultipart? then Invalidate
             else if call.file.IsMultipart() && call.file.uploadId != "" && call.file.status == Pending then AbortUpload
             else RemoveObject))
    else Move(NoEffect, call.Fail(NotFound))
  }

  /** The foreign key admits a part only for an existing file. */
  function DoSavePart(s: Store, call: Call, r: Reply): Move {
    if !r.ok || call.req.id !in s.rows || !call.req.ReportPart? then Move(NoEffect, call.Fail(Internal))
    else
      var part := UploadPart(NormalizeETag(call.req.etag), r.now);
      Move(PutPart(call.req.id, call.req.number, part), call.Return(OkPart(call.req.number, part)))
  }

  ghost function DoSelectParts(s: Store, call: Call, r: Reply): Move {
    if !r.ok then Move(NoEffect, call.Fail(Internal))
    else
      var listed := Completion.Listing(PartsOf(s, call.req.id));
      Move(NoEffect,
           if !call.req.CompleteMultipart?
           then call.Return(OkParts(UploadOf(call.file), call.file.partSize, call.file.TotalParts(), listed))
           else if Completion.PassesChecks(listed, call.file.TotalParts())
           then call.(handed := Completion.Handed(listed), pc := FinishUpload)
           else call.Fail(InvalidInput))
  }

  function DoPresignPart(call: Call, r: Reply): Move {
    Move(NoEffect,
         if !r.ok || !call.req.GetPartUrl? || !PartSizes.ValidPartNumber(call.req.number, call.file.TotalParts())
         then call.Fail(Internal)
         else call.Return(OkPartUrl(UploadOf(call.file), call.req.number,
                                    PartSizes.SizeOfPart(call.file.size, call.file.partSize, call.req.number))))
  }

  /** Storage never hands out an empty upload id, nor one it has handed out before. */
  function DoOpen(s: Store, call: Call, r: Reply): Move {
    var u := Upload(call.file.objectKey, r.uploadId);
    if r.ok && r.uploadId != "" && u !in s.issued
    then Move(Open(u), call.(file := call.file.(uploadId := r.uploadId), pc := InsertRow))
    else Move(NoEffect, call.Fail(Internal))
  }

  /** Storage completes only an upload that is open. */
  function DoFinish(s: Store, call: Call, r: Reply): Move {
    if r.ok && UploadOf(call.file) in s.uploads then Move(Assemble(UploadOf(call.file), call.handed), call.Goto(ConfirmRow))
    else Move(NoEffect, call.Fail(Internal))
  }

  function AfterFill(call: Call): Call {
    if call.req.GetFile? || call.req.GetDownloadUrl? || call.req.DeleteFile? then AfterRead(call)
    else call.Goto(Publish)
  }

  function AfterDeleteParts(call: Call): Call {
    call.Goto(
      if call.req.CompleteMultipart? then FillCache
      else if call.req.AbortMultipart? then SoftDelete
      else Invalidate)
  }

  /** The effect, unless the statement fails and the failure is ignored. */
  function Attempt(r: Reply, e: Effect, call: Call): Move {
    Move(if r.ok then e else NoEffect, call)
  }

  /** Cache, event and cleanup failures are ignored; the other statements fail the call. */
  ghost function Decide(s: Store, call: Call, r: Reply): Move {
    match call.pc
    case ReadCache => DoReadCache(s, call, r)
    case FillCache => Attempt(r, PutCache(call.file), AfterFill(call))
    case Invalidate => Attempt(r, DropCache(call.spelled), call.Goto(Publish))
    case ReadRow => DoReadRow(s, call, r)
    case InsertRow => DoInsert(s, call, r)
    case ConfirmRow => DoConfirm(s, call, r)
    case SoftDelete => DoSoftDelete(s, call, r)
    case SavePart => DoSavePart(s, call, r)
    case SelectParts => DoSelectParts(s, call, r)
    case DeleteParts => Attempt(r, DropParts(call.req.id), AfterDeleteParts(call))
    case PresignUpload => Move(NoEffect, if r.ok then call.Goto(InsertRow) else call.Fail(Internal))
    case PresignDownload =>
      Move(NoEffect, if r.ok then call.Return(OkUrl(call.file.objectKey)) else call.Fail(Internal))
    case PresignPart => DoPresignPart(call, r)
    case OpenUpload => DoOpen(s, call, r)
    case RollbackUpload => Attempt(r, Close(UploadOf(call.file)), call.Fail(Internal))
    case FinishUpload => DoFinish(s, call, r)
    case AbortUpload => Attempt(r, Close(UploadOf(call.file)), call.Goto(DeleteParts))
    case RemoveObject => Attempt(r, Remove(call.file.objectKey), call.Goto(Invalidate))
    case Publish =>
      Attempt(r, Emit(EventOf(KindPublished(call.req), call.file)), call.Return(PublishedOutcome(call)))
    case Returned => Move(NoEffect, call)
  }

  datatype State = State(store: Store, call: Call)

  ghost function Step(s: Store, call: Call, r: Reply): State {
    var m := Decide(s, call, r);
    State(Apply(s, m.effect), m.call)
  }

  // ---------- interleaved runs ----------

  datatype System = System(store: Store, calls: map<nat, Call>)

  const INIT: System := System(EMPTY, map[])

  /** A new call arrives, a call executes its next statement, a cache entry expires, or a client
      uploads an object through a presigned URL. */
  datatype Action =
    | Invoke(tid: nat, req: Request, now: int64)
    | Advance(tid: nat, reply: Reply)
    | Evict(id: string)
    | ClientPut(key: string)

  ghost function Next(cfg: Config, sys: System, a: Action): System {
    match a
    case Invoke(tid, req, now) =>
      if tid in sys.calls then sys else sys.(calls := sys.calls[tid := Begin(cfg, req, now)])
    case Advance(tid, reply) =>
      if tid !in sys.calls then sys
      else
        var st := Step(sys.store, sys.calls[tid], reply);
        System(st.store, sys.calls[tid := st.call])
    case Evict(id) => sys.(store := Apply(sys.store, DropCache(id)))
    case ClientPut(key) => sys.(store := Apply(sys.store, PutObject(key)))
  }

  ghost function Run(cfg: Config, sys: System, actions: seq<Action>): System {
    if actions == [] then sys
    else Next(cfg, Run(cfg, sys, actions[..|actions| - 1]), actions[|actions| - 1])
  }
}
