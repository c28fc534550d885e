/** What a file's record is after each write, field by field. */
module Records {
  import opened Domain
  import opened Protocol
  import opened Lifecycle
  import ObjectKeys

  /** The identity a creation that arrived at this time gives its file. */
  predicate HasIdentity(cfg: Config, req: Request, now: int64, f: FileMetadata)
    requires IsCreate(req)
  {
    && f.id == req.id && f.owner == req.owner && f.bucket == cfg.bucket
    && f.objectKey == ObjectKeys.ObjectKey(req.owner, req.id, req.name)
    && f.name == req.name && f.contentType == req.contentType && f.size == req.size && f.createdAt == now
  }

  /** The record a successful creation leaves: pending, without a checksum, and multipart with the
      configured part size and the upload storage opened if it was asked for. */
  predicate IsNewRecord(cfg: Config, req: Request, now: int64, uploadId: string, f: FileMetadata)
    requires IsCreate(req)
  {
    && HasIdentity(cfg, req, now, f)
    && f.checksum == "" && f.status == Pending && f.updatedAt == now
    && (req.CreateUpload? ==> f.mode == Single && f.uploadId == "" && f.partSize == 0)
    && (req.CreateMultipart? ==> f.mode == Multipart && f.uploadId == uploadId && f.partSize == cfg.partSize)
  }

  /** g is f confirmed with a checksum at this time. */
  predicate BecameReady(f: FileMetadata, g: FileMetadata, checksum: string, now: int64) {
    && SameFile(f, g)
    && g.status == Ready && g.checksum == checksum && g.updatedAt == now
    && g.mode == Single && g.uploadId == "" && g.partSize == 0
  }

  /** g is f deleted at this time. */
  predicate BecameDeleted(f: FileMetadata, g: FileMetadata, now: int64) {
    && SameFile(f, g) && SameUpload(f, g)
    && g.status == Deleted && g.updatedAt == now
  }

  lemma NewFileIsNew(cfg: Config, req: Request, now: int64, uploadId: string)
    requires IsCreate(req)
    ensures var f := NewFile(cfg, req, now);
            IsNewRecord(cfg, req, now, uploadId, if req.CreateMultipart? then f.(uploadId := uploadId) else f)
  {
  }

  lemma ConfirmedIsReady(f: FileMetadata, checksum: string, now: int64)
    ensures BecameReady(f, Confirmed(f, checksum, now), checksum, now)
  {
  }

  lemma SoftDeletedIsDeleted(f: FileMetadata, now: int64)
    ensures BecameDeleted(f, SoftDeleted(f, now), now)
  {
  }
}
