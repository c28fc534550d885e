/** The file record, its lifecycle states and the machine integers it is stored in
    (internal/domain/file.go). */
module Domain {

  datatype Option<+T> = None | Some(value: T)

  /** The four domain errors, and one value for every infrastructure failure. */
  datatype Error = NotFound | AccessDenied | InvalidInput | AlreadyExists | Internal

  datatype Result<+T> = Ok(value: T) | Err(error: Error)

  const MIN_INT64: int := -0x8000_0000_0000_0000
  const MAX_INT64: int := 0x7FFF_FFFF_FFFF_FFFF
  const MIN_INT32: int := -0x8000_0000
  const MAX_INT32: int := 0x7FFF_FFFF

  type int64 = x: int | MIN_INT64 <= x <= MAX_INT64
  type int32 = x: int | MIN_INT32 <= x <= MAX_INT32

  /** Two's-complement wrap-around of int64 arithmetic. */
  function WrapInt64(x: int): int64 {
    (x + 0x8000_0000_0000_0000) % 0x1_0000_0000_0000_0000 - 0x8000_0000_0000_0000
  }

  /** The conversion int32(x): the low 32 bits, read as a signed number. */
  function WrapInt32(x: int): int32 {
    (x + 0x8000_0000) % 0x1_0000_0000 - 0x8000_0000
  }

  /** Integer division that truncates toward zero. */
  function TruncDiv(a: int, b: int): int
    requires b > 0
  {
    if a >= 0 then a / b else -((-a) / b)
  }

  datatype FileStatus = Pending | Ready | Deleted

  datatype UploadMode = Single | Multipart

  function MachineParts(size: int64, partSize: int64): int32 {
    if partSize <= 0 || size <= 0 then 0
    else WrapInt32(TruncDiv(WrapInt64(WrapInt64(size + partSize) - 1), partSize))
  }

  datatype FileMetadata = FileMetadata(
    id: string,
    owner: string,
    bucket: string,
    objectKey: string,
    name: string,
    contentType: string,
    size: int64,
    checksum: string,
    status: FileStatus,
    mode: UploadMode,
    uploadId: string,
    partSize: int64,
    createdAt: int64,   // nanoseconds since the Unix epoch
    updatedAt: int64
  ) {
    /** Computed as the service computes it: an int64 sum that may wrap, a division that
        truncates, and a conversion to int32 that drops the high bits. */
    function TotalParts(): int32 {
      MachineParts(size, partSize)
    }

    predicate IsMultipart() {
      mode == Multipart
    }

    predicate IsOwnedBy(o: string) {
      owner == o
    }

    predicate CanDownload() {
      status == Ready
    }
  }

  datatype UploadPart = UploadPart(etag: string, uploadedAt: int64)

  datatype CompletedPart = CompletedPart(number: int32, etag: string)
}
