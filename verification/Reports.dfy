/** Part reports in sequential runs: what storage is handed at completion depends only on the
    last ETag accepted for each part number. */
module Reports {
  import opened Domain
  import opened Protocol
  import opened Lifecycle
  import opened Sequential
  import opened Calls
  import opened Text
  import Completion
  import PageTokens
  import PartSizes
  import Uuids

  // ---------- ETags ----------

  /** Spaces a and d around quotes b and c around t, with no more to cut at either level. */
  predicate Wraps(raw: string, a: string, b: string, t: string, c: string, d: string) {
    && raw == a + b + t + c + d
    && All(a, IsSpace) && All(d, IsSpace) && All(b, IsQuote) && All(c, IsQuote)
    && Trimmed(b + t + c, IsSpace) && Trimmed(t, IsQuote)
  }

  /** t is the ETag inside the text a client reported. */
  ghost predicate IsNormalized(raw: string, t: string) {
    exists a, b, c, d :: Wraps(raw, a, b, t, c, d)
  }

  /** Spaces a and d around nothing but quotes q. */
  predicate OnlyQuotes(raw: string, a: string, q: string, d: string) {
    raw == a + q + d && All(a, IsSpace) && All(q, IsQuote) && All(d, IsSpace)
  }

  /** There is no ETag in the text. */
  ghost predicate Blank(raw: string) {
    exists a, q, d :: OnlyQuotes(raw, a, q, d)
  }

  lemma WrappedIsNormalized(raw: string, a: string, b: string, t: string, c: string, d: string)
    requires Wraps(raw, a, b, t, c, d)
    ensures NormalizeETag(raw) == t
  {
    assert raw == a + (b + t + c) + d;
    TrimIsUnique(a, b + t + c, d, IsSpace);
    TrimIsUnique(b, t, c, IsQuote);
  }

  /** Normalisation finds the one text inside. */
  lemma NormalizedIff(raw: string, t: string)
    ensures IsNormalized(raw, t) <==> NormalizeETag(raw) == t
  {
    if IsNormalized(raw, t) {
      var a, b, c, d :| Wraps(raw, a, b, t, c, d);
      WrappedIsNormalized(raw, a, b, t, c, d);
    }
    if NormalizeETag(raw) == t {
      var m := Trim(raw, IsSpace);
      var a, d := TrimSplits(raw, IsSpace);
      var b, c := TrimSplits(m, IsQuote);
      TrimTrims(raw, IsSpace);
      TrimTrims(m, IsQuote);
      assert Wraps(raw, a, b, t, c, d) by { assert a + b + t + c + d == a + (b + t + c) + d; }
    }
  }

  lemma QuotesAreWrapped(raw: string, a: string, q: string, e: string, d: string)
    requires OnlyQuotes(raw, a, q, d) && e == ""
    ensures Wraps(raw, a, q, e, e, d)
  {
    assert q + e + e == q && a + q + e + e + d == a + q + d;
    assert !IsSpace('\"');
    if q != "" { assert q[0] in q && q[|q| - 1] in q; }
  }

  lemma WrappedNothing(raw: string, a: string, b: string, t: string, c: string, d: string)
    requires Wraps(raw, a, b, t, c, d) && t == ""
    ensures OnlyQuotes(raw, a, b + c, d)
  {
    assert a + b + t == a + b && a + b + c == a + (b + c);
  }

  lemma BlankIff(raw: string)
    ensures Blank(raw) <==> NormalizeETag(raw) == ""
  {
    if Blank(raw) {
      var a, q, d :| OnlyQuotes(raw, a, q, d);
      QuotesAreWrapped(raw, a, q, "", d);
      WrappedIsNormalized(raw, a, q, "", "", d);
    }
    if NormalizeETag(raw) == "" {
      NormalizedIff(raw, "");
      var a, b, c, d :| Wraps(raw, a, b, "", c, d);
      WrappedNothing(raw, a, b, "", c, d);
    }
  }

  // ---------- one report ----------

  /** The report is stored: its caller owns the pending multipart file, its part number is in
      range, its ETag is not blank, and neither statement fails. */
  ghost predicate Accepted(f: FileMetadata, req: Request, env: Env) {
    && req.ReportPart? && req.owner != "" && f.owner == req.owner
    && PendingMultipart(f) && f.uploadId != ""
    && PartSizes.ValidPartNumber(req.number, f.TotalParts()) && !Blank(req.etag)
    && ReadRow !in env.faults && SavePart !in env.faults
  }

  /** The part holds the reported ETag, normalised, and the time of the report. */
  ghost predicate Holds(part: UploadPart, req: Request, env: Env)
    requires req.ReportPart?
  {
    IsNormalized(req.etag, part.etag) && part.uploadedAt == env.now
  }

  /** Why a report is refused: getPendingMultipart's reason, a number or an ETag that is no good, or
      a statement that failed. */
  ghost function Refusal(s: Store, req: Request, env: Env): Error
    requires req.ReportPart?
  {
    var got := PendingFor(s.rows, req.id, req.owner, ReadRow !in env.faults);
    if got.Err? then got.error
    else if !PartSizes.ValidPartNumber(req.number, got.value.TotalParts()) || Blank(req.etag) then InvalidInput
    else Internal
  }

  lemma ReportChecks(c: Call, f: FileMetadata)
    requires c.req.ReportPart? && PendingMultipart(f) && f.uploadId != ""
    ensures var d := OnPending(c, f);
            && d.req == c.req
            && if PartSizes.ValidPartNumber(c.req.number, f.TotalParts()) && !Blank(c.req.etag)
               then d.pc == SavePart else d.pc == Returned && d.outcome == Failed(InvalidInput)
  {
    BlankIff(c.req.etag);
  }

  lemma ReportGoesOn(s: Store, c: Call, env: Env)
    requires c.req.ReportPart? && c.req.id in s.rows
    requires c.pc == SavePart || (c.pc == Returned && c.outcome == Failed(InvalidInput))
    ensures var end := Finish(s, c, env);
            if c.pc == SavePart && SavePart !in env.faults then
              && end.call.outcome.OkPart? && end.call.outcome.number == c.req.number
              && Holds(end.call.outcome.part, c.req, env)
              && end.store == s.(parts := s.parts[c.req.id := PartsOf(s, c.req.id)[c.req.number := end.call.outcome.part]])
            else end.call.outcome == Failed(if c.pc == SavePart then Internal else InvalidInput) && end.store == s
  {
    if c.pc == SavePart {
      AtSavePart(s, c, env);
      NormalizedIff(c.req.etag, NormalizeETag(c.req.etag));
    }
  }

  /** One report is an upsert of the normalised ETag when accepted, and otherwise an error that
      changes nothing. */
  lemma ReportIff(cfg: Config, s: Store, req: Request, env: Env)
    requires req.ReportPart? && (RowId(req) in s.rows ==> PageTokens.IsCanonical(RowId(req)))
    ensures var st, id := Perform(cfg, s, req, env), RowId(req);
            if id in s.rows && Accepted(s.rows[id], req, env) then
              && st.call.outcome.OkPart? && st.call.outcome.number == req.number
              && Holds(st.call.outcome.part, req, env)
              && st.store == s.(parts := s.parts[id := PartsOf(s, id)[req.number := st.call.outcome.part]])
            else st.call.outcome == Failed(Refusal(s, req, env)) && st.store == s
  {
    Uuids.EmptyIsNoUuid();
    BeginShape(cfg, req, env.now);
    PendingRead(cfg, s, req, env);
    var got := PendingFor(s.rows, req.id, req.owner, ReadRow !in env.faults);
    if got.Ok? {
      ReportChecks(Begin(cfg, req, env.now), got.value);
      ReportGoesOn(s, OnPending(Begin(cfg, req, env.now), got.value), env);
    }
  }

  // ---------- sequences of reports ----------

  ghost predicate AreReports(ops: seq<Op>, id: string) {
    forall i | 0 <= i < |ops| :: ops[i].Do? && ops[i].req.ReportPart? && RowId(ops[i].req) == id
  }

  ghost predicate Stores(f: FileMetadata, op: Op, n: int32) {
    op.Do? && op.req.ReportPart? && Accepted(f, op.req, op.env) && op.req.number == n
  }

  /** The last accepted report of a part number. */
  ghost function LastReport(ops: seq<Op>, f: FileMetadata, n: int32): (last: Option<Op>)
    ensures last.Some? ==> last.value in ops && Stores(f, last.value, n)
  {
    if ops == [] then None
    else
      var op := ops[|ops| - 1];
      if Stores(f, op, n) then Some(op) else LastReport(ops[..|ops| - 1], f, n)
  }

  lemma PartsAfterOne(cfg: Config, s: Store, op: Op, id: string)
    requires op.Do? && op.req.ReportPart? && RowId(op.req) == id && id in s.rows && PageTokens.IsCanonical(id)
    ensures var s', f := Perform1(cfg, s, op), s.rows[id];
            && s' == s.(parts := s'.parts) && s'.parts - {id} == s.parts - {id}
            && forall n: int32 ::
                 if Stores(f, op, n) then n in PartsOf(s', id) && Holds(PartsOf(s', id)[n], op.req, op.env)
                 else (n in PartsOf(s', id) <==> n in PartsOf(s, id)) &&
                      (n in PartsOf(s, id) ==> PartsOf(s', id)[n] == PartsOf(s, id)[n])
  {
    ReportIff(cfg, s, op.req, op.env);
  }

  /** Reports change only the parts of their file, and leave there the last accepted report of
      each number, whatever their order and however often they were repeated. */
  lemma {:induction false} PartsAfterReports(cfg: Config, s: Store, ops: seq<Op>, id: string)
    requires AreReports(ops, id) && id in s.rows && PageTokens.IsCanonical(id)
    ensures var s', f := Play(cfg, s, ops), s.rows[id];
            && s' == s.(parts := s'.parts) && s'.parts - {id} == s.parts - {id}
            && forall n: int32 ::
                 var last := LastReport(ops, f, n);
                 if last.Some? then n in PartsOf(s', id) && Holds(PartsOf(s', id)[n], last.value.req, last.value.env)
                 else if n in PartsOf(s, id) then n in PartsOf(s', id) && PartsOf(s', id)[n] == PartsOf(s, id)[n]
                 else n !in PartsOf(s', id)
    decreases |ops|
  {
    if ops != [] {
      var front, op := ops[..|ops| - 1], ops[|ops| - 1];
      PartsAfterReports(cfg, s, front, id);
      PartsAfterOne(cfg, Play(cfg, s, front), op, id);
    }
  }

  /** Every number in 1..N has been reported. */
  ghost predicate Covers(ops: seq<Op>, f: FileMetadata) {
    forall n: int32 | PartSizes.ValidPartNumber(n, f.TotalParts()) :: LastReport(ops, f, n).Some?
  }

  /** (1, last ETag of 1), ..., (N, last ETag of N), each ETag without its spaces and quotes */
  ghost predicate ListsLastTags(list: seq<CompletedPart>, ops: seq<Op>, f: FileMetadata)
    requires Covers(ops, f)
  {
    && |list| == f.TotalParts()
    && forall i | 0 <= i < |list| ::
         list[i].number == i + 1 && IsNormalized(LastReport(ops, f, i + 1).value.req.etag, list[i].etag)
  }

  /** The last reports of a number carry the same ETag, however they quote it. */
  ghost predicate SameTag(xs: seq<Op>, ys: seq<Op>, f: FileMetadata, n: int32) {
    var x, y := LastReport(xs, f, n), LastReport(ys, f, n);
    x.Some? && y.Some? && exists t :: IsNormalized(x.value.req.etag, t) && IsNormalized(y.value.req.etag, t)
  }

  lemma LastTagsAreUnique(xs: seq<CompletedPart>, ys: seq<CompletedPart>, ops: seq<Op>, others: seq<Op>, f: FileMetadata)
    requires Covers(ops, f) && Covers(others, f) && ListsLastTags(xs, ops, f) && ListsLastTags(ys, others, f)
    requires forall n: int32 | PartSizes.ValidPartNumber(n, f.TotalParts()) :: SameTag(ops, others, f, n)
    ensures xs == ys
  {
    forall i | 0 <= i < |xs| ensures xs[i] == ys[i] {
      assert SameTag(ops, others, f, i + 1);
      var x, y := LastReport(ops, f, i + 1).value.req.etag, LastReport(others, f, i + 1).value.req.etag;
      var t :| IsNormalized(x, t) && IsNormalized(y, t);
      NormalizedIff(x, t);
      NormalizedIff(x, xs[i].etag);
      NormalizedIff(y, t);
      NormalizedIff(y, ys[i].etag);
    }
  }

  // ---------- completion ----------

  /** The object in storage was put together from this list. */
  predicate Assembled(s: Store, key: string, list: seq<CompletedPart>) {
    key in s.objects && s.objects[key] == list
  }

  predicate PastAssembly(c: Call) {
    c.req.CompleteMultipart? && c.pc != ReadRow && c.pc != SelectParts && c.pc != FinishUpload
  }

  lemma StepKeepsHanded(s: Store, c: Call, r: Reply)
    requires Legal(c) && PastAssembly(c)
    ensures PastAssembly(Decide(s, c, r).call) && Decide(s, c, r).call.handed == c.handed
    ensures Step(s, c, r).store.objects == s.objects
  {
  }

  lemma {:induction false} FinishKeepsHanded(s: Store, c: Call, env: Env)
    requires Legal(c) && PastAssembly(c)
    ensures Finish(s, c, env).call.handed == c.handed && Finish(s, c, env).store.objects == s.objects
    decreases CallRank(c)
  {
    if c.pc != Returned {
      var r := ReplyAt(env, c.pc);
      StepDropsRank(s, c, r);
      StepKeepsHanded(s, c, r);
      FinishKeepsHanded(Step(s, c, r).store, Step(s, c, r).call, env);
    }
  }

  lemma CompletionAssembles(s: Store, c: Call, env: Env)
    requires Legal(c) && c.pc == FinishUpload
    ensures var end := Finish(s, c, env);
            end.call.handed == c.handed && (end.call.outcome.OkFile? ==> Assembled(end.store, c.file.objectKey, c.handed))
  {
    OneStep(s, c, env);
    var st := Step(s, c, ReplyAt(env, FinishUpload));
    if st.call.pc == ConfirmRow { FinishKeepsHanded(st.store, st.call, env); }
  }

  /** What a completion hands to storage, when it gets that far. */
  lemma CompletionHands(cfg: Config, s: Store, req: Request, env: Env)
    requires req.CompleteMultipart? && ChecksumOk(req)
    requires PendingFor(s.rows, req.id, req.owner, ReadRow !in env.faults).Ok? && SelectParts !in env.faults
    requires Completion.PassesChecks(Completion.Listing(PartsOf(s, RowId(req))), s.rows[RowId(req)].TotalParts())
    ensures var end, list := Perform(cfg, s, req, env), Completion.Handed(Completion.Listing(PartsOf(s, RowId(req))));
            && end.call.handed == list
            && (end.call.outcome.OkFile? ==> Assembled(end.store, s.rows[RowId(req)].objectKey, list))
  {
    var f := s.rows[RowId(req)];
    PendingRead(cfg, s, req, env);
    BeginShape(cfg, req, env.now);
    var c := OnPending(Begin(cfg, req, env.now), f);
    AtSelect(s, c, env);
    var list := Completion.Handed(Completion.Listing(PartsOf(s, RowId(req))));
    CompletionAssembles(s, c.(handed := list, pc := FinishUpload), env);
  }

  /** The parts of a file after reports of them: the last ones, and in range. */
  ghost predicate Reported(parts: map<int32, UploadPart>, ops: seq<Op>, f: FileMetadata) {
    && (forall n | n in parts :: PartSizes.ValidPartNumber(n, f.TotalParts()))
    && forall n: int32 | LastReport(ops, f, n).Some? ::
         n in parts && Holds(parts[n], LastReport(ops, f, n).value.req, LastReport(ops, f, n).value.env)
  }

  lemma PartsAreReported(cfg: Config, s: Store, ops: seq<Op>, id: string)
    requires StoreInv(cfg, s) && AreReports(ops, id) && id in s.rows && PendingMultipart(s.rows[id])
    ensures Reported(PartsOf(Play(cfg, s, ops), id), ops, s.rows[id])
  {
    var f, parts := s.rows[id], PartsOf(Play(cfg, s, ops), id);
    PartsAfterReports(cfg, s, ops, id);
    forall n | n in parts ensures PartSizes.ValidPartNumber(n, f.TotalParts()) {
      if LastReport(ops, f, n).None? {
        assert Sound(cfg, s, f);
        assert PartOk(cfg, f, n, PartsOf(s, id)[n]);
      }
    }
  }

  lemma ReportedNumbers(parts: map<int32, UploadPart>, ops: seq<Op>, f: FileMetadata)
    requires Reported(parts, ops, f) && Covers(ops, f)
    ensures parts.Keys == Completion.AllNumbers(f.TotalParts())
  {
    forall n: int32 | PartSizes.ValidPartNumber(n, f.TotalParts()) ensures n in parts {
      assert LastReport(ops, f, n).Some?;
    }
  }

  lemma ReportedTags(parts: map<int32, UploadPart>, ops: seq<Op>, f: FileMetadata)
    requires Reported(parts, ops, f) && Covers(ops, f)
    requires f.TotalParts() >= 0 && parts.Keys == Completion.AllNumbers(f.TotalParts())
    ensures ListsLastTags(Completion.InOrder(parts, f.TotalParts()), ops, f)
  {
    var list := Completion.InOrder(parts, f.TotalParts());
    forall i | 0 <= i < |list| ensures IsNormalized(LastReport(ops, f, i + 1).value.req.etag, list[i].etag) {
      assert PartSizes.ValidPartNumber(i + 1, f.TotalParts());
    }
  }

  lemma CoveredParts(cfg: Config, s: Store, ops: seq<Op>, id: string)
    requires StoreInv(cfg, s) && AreReports(ops, id) && id in s.rows && PendingMultipart(s.rows[id])
    requires s.rows[id].TotalParts() >= 0 && Covers(ops, s.rows[id])
    ensures PartsOf(Play(cfg, s, ops), id).Keys == Completion.AllNumbers(s.rows[id].TotalParts())
    ensures ListsLastTags(Completion.InOrder(PartsOf(Play(cfg, s, ops), id), s.rows[id].TotalParts()), ops, s.rows[id])
  {
    PartsAreReported(cfg, s, ops, id);
    ReportedNumbers(PartsOf(Play(cfg, s, ops), id), ops, s.rows[id]);
    ReportedTags(PartsOf(Play(cfg, s, ops), id), ops, s.rows[id]);
  }

  /** After any sequence of reports that covers 1..N, whatever parts were there before, completion
      hands storage (1,e1), ..., (N,eN) where each e is the last accepted ETag without its spaces
      and quotes, and a successful completion leaves the object assembled from exactly this list. */
  lemma CompletedListIsLastTags(cfg: Config, s: Store, ops: seq<Op>, req: Request, env: Env)
    requires StoreInv(cfg, s) && req.CompleteMultipart? && ChecksumOk(req) && AreReports(ops, RowId(req))
    requires PendingFor(s.rows, req.id, req.owner, ReadRow !in env.faults).Ok? && SelectParts !in env.faults
    requires s.rows[RowId(req)].TotalParts() >= 0 && Covers(ops, s.rows[RowId(req)])
    ensures var end, f := Perform(cfg, Play(cfg, s, ops), req, env), s.rows[RowId(req)];
            && ListsLastTags(end.call.handed, ops, f)
            && (end.call.outcome.OkFile? ==> Assembled(end.store, f.objectKey, end.call.handed))
  {
    var id, s' := RowId(req), Play(cfg, s, ops);
    PartsAfterReports(cfg, s, ops, id);
    CoveredParts(cfg, s, ops, id);
    Completion.CompletionIff(PartsOf(s', id), s.rows[id].TotalParts());
    CompletionHands(cfg, s', req, env);
  }

  /** Order and repetition of reports do not matter. */
  lemma ReportOrderDoesNotMatter(cfg: Config, s: Store, xs: seq<Op>, ys: seq<Op>, req: Request, env: Env)
    requires StoreInv(cfg, s) && req.CompleteMultipart? && ChecksumOk(req)
    requires AreReports(xs, RowId(req)) && AreReports(ys, RowId(req))
    requires PendingFor(s.rows, req.id, req.owner, ReadRow !in env.faults).Ok? && SelectParts !in env.faults
    requires s.rows[RowId(req)].TotalParts() >= 0 && Covers(xs, s.rows[RowId(req)]) && Covers(ys, s.rows[RowId(req)])
    requires forall n: int32 | PartSizes.ValidPartNumber(n, s.rows[RowId(req)].TotalParts()) ::
               SameTag(xs, ys, s.rows[RowId(req)], n)
    ensures Perform(cfg, Play(cfg, s, xs), req, env).call.handed == Perform(cfg, Play(cfg, s, ys), req, env).call.handed
  {
    CompletedListIsLastTags(cfg, s, xs, req, env);
    CompletedListIsLastTags(cfg, s, ys, req, env);
    LastTagsAreUnique(Perform(cfg, Play(cfg, s, xs), req, env).call.handed,
                      Perform(cfg, Play(cfg, s, ys), req, env).call.handed, xs, ys, s.rows[RowId(req)]);
  }
}
