/** What GetPartUploadURL hands out: one part of the file for each number, and together all of it. */
module PartUrls {
  import opened Domain
  import opened Protocol
  import opened Lifecycle
  import opened Sequential
  import opened Calls
  import OwnerFrame
  import PartSizes

  /** The URL is for this part of this file. The size is that of every other part, or what is left
      over for the last one. */
  predicate IsPartUrl(f: FileMetadata, number: int32, o: Outcome)
    requires f.partSize > 0
  {
    && o.OkPartUrl? && o.upload.key == f.objectKey && o.upload.id == f.uploadId && o.number == number
    && o.size == if number < f.TotalParts() || f.size % f.partSize == 0 then f.partSize else f.size % f.partSize
  }

  /** The part starts where the one before it ends, and the last part ends with the file. */
  predicate Tiles(f: FileMetadata, number: int32, size: int64) {
    && 1 <= size <= f.partSize
    && PartSizes.Offset(f.partSize, number) + size ==
       if number < f.TotalParts() then PartSizes.Offset(f.partSize, number + 1) else f.size
  }

  lemma PartUrlTiles(f: FileMetadata, number: int32, o: Outcome)
    requires f.size > 0 && f.partSize > 0 && PartSizes.FitsMachine(f.size, f.partSize)
    requires 1 <= number <= f.TotalParts() && IsPartUrl(f, number, o)
    ensures Tiles(f, number, o.size)
  {
    PartSizes.PartsAreContiguous(f.size, f.partSize, number);
  }

  lemma AtPresignPart(s: Store, c: Call, env: Env)
    requires c.req.GetPartUrl? && c.pc == PresignPart && PartSizes.ValidPartNumber(c.req.number, c.file.TotalParts())
    ensures c.file.partSize > 0
    ensures var end := Finish(s, c, env);
            && end.store == s
            && if PresignPart in env.faults then end.call.outcome == Failed(Internal)
               else IsPartUrl(c.file, c.req.number, end.call.outcome)
  {
    OneStep(s, c, env);
    PartSizes.ValidPartHasDivisor(c.file.size, c.file.partSize, c.req.number);
  }

  lemma PartChecks(c: Call, f: FileMetadata)
    requires c.req.GetPartUrl? && PendingMultipart(f) && f.uploadId != ""
    ensures OnPending(c, f) == if 1 <= c.req.number <= f.TotalParts() then c.(file := f, pc := PresignPart)
                               else c.Fail(InvalidInput)
  {
  }

  /** GetPartUploadURL succeeds exactly for the owner of a pending multipart file and a number in
      1..TotalParts. It hands out the file's key and upload id, the number asked for and the size
      of that part, and never changes the stores. */
  lemma PartUrlSucceedsIff(cfg: Config, s: Store, req: Request, env: Env)
    requires req.GetPartUrl?
    ensures Perform(cfg, s, req, env).store == s
    ensures var got := PendingFor(s.rows, req.id, req.owner, ReadRow !in env.faults);
            var o := Perform(cfg, s, req, env).call.outcome;
            if got.Err? then o == Failed(got.error)
            else if !(1 <= req.number <= got.value.TotalParts()) then o == Failed(InvalidInput)
            else if PresignPart in env.faults then o == Failed(Internal)
            else
              && got.value.partSize > 0 && got.value.size > 0 && IsPartUrl(got.value, req.number, o)
              && (PartSizes.FitsMachine(got.value.size, got.value.partSize) ==> Tiles(got.value, req.number, o.size))
  {
    PendingRead(cfg, s, req, env);
    BeginShape(cfg, req, env.now);
    var got := PendingFor(s.rows, req.id, req.owner, ReadRow !in env.faults);
    if got.Ok? {
      var f, c := got.value, Begin(cfg, req, env.now);
      PartChecks(c, f);
      if 1 <= req.number <= f.TotalParts() {
        AtPresignPart(s, c.(file := f, pc := PresignPart), env);
        PartSizes.ValidPartHasDivisor(f.size, f.partSize, req.number);
        if PresignPart !in env.faults && PartSizes.FitsMachine(f.size, f.partSize) {
          PartUrlTiles(f, req.number, Perform(cfg, s, req, env).call.outcome);
        }
      }
    }
  }

  // ---------- all parts ----------

  /** Calls for the parts 1, 2, ... in order, none of which fails. */
  ghost predicate AsksInOrder(ops: seq<Op>, id: string, owner: string) {
    forall i | 0 <= i < |ops| ::
      && ops[i].Do? && ops[i].req.GetPartUrl? && ops[i].req.id == id && ops[i].req.owner == owner
      && ops[i].req.number == i + 1 && ReadRow !in ops[i].env.faults && PresignPart !in ops[i].env.faults
  }

  /** The sizes handed out by successive calls, added up. */
  ghost function BytesHandedOut(cfg: Config, s: Store, ops: seq<Op>): int {
    if ops == [] then 0
    else
      var front, op := ops[..|ops| - 1], ops[|ops| - 1];
      BytesHandedOut(cfg, s, front) +
      if op.Do? && Perform(cfg, Play(cfg, s, front), op.req, op.env).call.outcome.OkPartUrl?
      then Perform(cfg, Play(cfg, s, front), op.req, op.env).call.outcome.size else 0
  }

  /** After the calls for the first parts, the next part starts where the bytes handed out end. */
  lemma {:induction false} SizesReachNextPart(cfg: Config, s: Store, ops: seq<Op>, id: string, owner: string)
    requires AsksInOrder(ops, id, owner) && PendingFor(s.rows, id, owner, true).Ok?
    requires var f := PendingFor(s.rows, id, owner, true).value;
             f.size > 0 && f.partSize > 0 && PartSizes.FitsMachine(f.size, f.partSize) && |ops| <= f.TotalParts()
    ensures Play(cfg, s, ops) == s
    ensures var f := PendingFor(s.rows, id, owner, true).value;
            BytesHandedOut(cfg, s, ops) ==
            if |ops| < f.TotalParts() then PartSizes.Offset(f.partSize, |ops| + 1) else f.size
    decreases |ops|
  {
    var f := PendingFor(s.rows, id, owner, true).value;
    if ops == [] {
      PartSizes.PartSizesSumToFile(f.size, f.partSize);
    } else {
      var op := ops[|ops| - 1];
      SizesReachNextPart(cfg, s, ops[..|ops| - 1], id, owner);
      PartUrlSucceedsIff(cfg, s, op.req, op.env);
    }
  }

  /** In every reachable state, under the configured bounds, the sizes handed out by calls for the
      parts 1..N of a pending file add up to the file. */
  lemma SizesHandedOutSumToFile(cfg: Config, sys: System, ops: seq<Op>, id: string, owner: string)
    requires ValidConfig(cfg) && 0 < cfg.maxSize <= PartSizes.MIN_PART_SIZE * MAX_INT32 && Reachable(cfg, sys)
    requires AsksInOrder(ops, id, owner) && PendingFor(sys.store.rows, id, owner, true).Ok?
    requires |ops| == PendingFor(sys.store.rows, id, owner, true).value.TotalParts()
    ensures BytesHandedOut(cfg, sys.store, ops) == PendingFor(sys.store.rows, id, owner, true).value.size
  {
    var f := PendingFor(sys.store.rows, id, owner, true).value;
    ReachableInv(cfg, sys);
    PendingIsNamed(cfg, sys.store, id, owner, true);
    OwnerFrame.ReachableCountsAreExact(cfg, sys, f.id);
    PartSizes.TotalPartsExactIff(f.size, f.partSize);
    SizesReachNextPart(cfg, sys.store, ops, id, owner);
  }
}
