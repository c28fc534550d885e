/** Stored objects under interleaving: exactly which statements let an object outlive its row. */
module ObjectAccounting {
  import opened Domain
  import opened Protocol
  import opened Lifecycle
  import ExactlyOnce

  /** A delete that is about to remove the object of its file. */
  predicate Remover(c: Call, key: string) {
    c.req.DeleteFile? && c.pc == RemoveObject && c.file.objectKey == key
  }

  ghost predicate RemovedBy(sys: System, key: string) {
    exists t :: t in sys.calls && Remover(sys.calls[t], key)
  }

  ghost predicate LiveKey(rows: map<string, FileMetadata>, key: string) {
    exists id :: id in rows && rows[id].objectKey == key && rows[id].status != Deleted
  }

  /** The key belongs to a live row, or a call is about to remove its object. */
  ghost predicate Held(sys: System, key: string) {
    LiveKey(sys.store.rows, key) || RemovedBy(sys, key)
  }

  ghost predicate NoLeftovers(sys: System) {
    forall key | key in sys.store.objects :: Held(sys, key)
  }

  // ---------- the condition ----------

  /** DeleteFile with this copy removes the object rather than closing an upload. */
  predicate RemovesObject(c: Call) {
    c.req.DeleteFile? && !(c.file.IsMultipart() && c.file.uploadId != "" && c.file.status == Pending)
  }

  ghost predicate RemovedByOther(sys: System, tid: nat, key: string) {
    exists t :: t in sys.calls && t != tid && Remover(sys.calls[t], key)
  }

  /** No object comes to outlive its row: a client or a completion stores only under a held key, a
      row is not deleted over its object unless the object is then removed, and a removal that
      fails leaves the object to another one. */
  ghost predicate Frugal(sys: System, a: Action) {
    match a
    case Invoke(_, _, _) => true
    case Evict(_) => true
    case ClientPut(key) => Held(sys, key)
    case Advance(tid, r) =>
      tid in sys.calls ==>
        var s, c := sys.store, sys.calls[tid];
        && (c.pc == FinishUpload && r.ok && UploadOf(c.file) in s.uploads ==> Held(sys, c.file.objectKey))
        && (c.pc == SoftDelete && r.ok && c.req.id in s.rows && s.rows[c.req.id].status != Deleted &&
            s.rows[c.req.id].objectKey in s.objects ==>
              RemovesObject(c) || RemovedBy(sys, s.rows[c.req.id].objectKey))
        && (c.pc == RemoveObject && !r.ok && c.file.objectKey in s.objects ==>
              LiveKey(s.rows, c.file.objectKey) || RemovedByOther(sys, tid, c.file.objectKey))
  }

  // ---------- frames ----------

  lemma LiveKeyStays(rows: map<string, FileMetadata>, rows': map<string, FileMetadata>, id: string, key: string)
    requires forall k | k in rows && k != id :: k in rows' && rows'[k] == rows[k]
    requires id in rows && rows[id].objectKey == key && rows[id].status != Deleted ==>
               id in rows' && rows'[id].objectKey == key && rows'[id].status != Deleted
    requires LiveKey(rows, key)
    ensures LiveKey(rows', key)
  {
    var k :| k in rows && rows[k].objectKey == key && rows[k].status != Deleted;
    assert k in rows' && rows'[k].objectKey == key && rows'[k].status != Deleted;
  }

  lemma RemovedStays(sys: System, tid: nat, s': Store, c': Call, key: string)
    requires tid in sys.calls && RemovedBy(sys, key) && (Remover(sys.calls[tid], key) ==> Remover(c', key))
    ensures RemovedBy(System(s', sys.calls[tid := c']), key)
  {
    var t :| t in sys.calls && Remover(sys.calls[t], key);
    assert t in sys.calls[tid := c'] && Remover(sys.calls[tid := c'][t], key);
  }

  /** A call that removes nothing, before or after, makes no difference. */
  lemma RemovedByRest(sys: System, tid: nat, s': Store, c': Call, key: string)
    requires tid in sys.calls && !Remover(c', key)
    ensures RemovedBy(System(s', sys.calls[tid := c']), key) <==> RemovedByOther(sys, tid, key)
  {
    var sys' := System(s', sys.calls[tid := c']);
    if RemovedBy(sys', key) {
      var t :| t in sys'.calls && Remover(sys'.calls[t], key);
      assert t in sys.calls && t != tid && Remover(sys.calls[t], key);
    }
    if RemovedByOther(sys, tid, key) {
      var t :| t in sys.calls && t != tid && Remover(sys.calls[t], key);
      assert t in sys'.calls && Remover(sys'.calls[t], key);
    }
  }

  // ---------- statements that touch no object ----------

  lemma PlainStep(s: Store, c: Call, r: Reply)
    requires Legal(c) && !WritesRow(c.pc) && c.pc != FinishUpload && c.pc != RemoveObject
    ensures var st := Step(s, c, r);
            st.store.rows == s.rows && st.store.objects == s.objects && c.pc != RemoveObject
  {
  }

  lemma PlainKeepsObjects(cfg: Config, sys: System, tid: nat, r: Reply)
    requires SystemInv(cfg, sys) && NoLeftovers(sys) && tid in sys.calls
    requires !WritesRow(sys.calls[tid].pc) && sys.calls[tid].pc != FinishUpload && sys.calls[tid].pc != RemoveObject
    ensures NoLeftovers(Next(cfg, sys, Advance(tid, r)))
  {
    var c := sys.calls[tid];
    var st := Step(sys.store, c, r);
    assert Legal(c) by { assert CallInv(cfg, sys.store, c); }
    PlainStep(sys.store, c, r);
    forall key | key in st.store.objects ensures Held(Next(cfg, sys, Advance(tid, r)), key) {
      assert Held(sys, key);
      if !LiveKey(sys.store.rows, key) { RemovedStays(sys, tid, st.store, st.call, key); }
    }
  }

  // ---------- completion ----------

  lemma AssembleStep(s: Store, c: Call, r: Reply)
    requires c.pc == FinishUpload
    ensures var st := Step(s, c, r);
            && st.store.rows == s.rows && st.call.pc != RemoveObject
            && forall key :: key in st.store.objects <==>
                 key in s.objects || (r.ok && UploadOf(c.file) in s.uploads && key == c.file.objectKey)
  {
  }

  /** A completion leaves an object without a live row exactly when it assembles it after the row
      was deleted, with no delete about to remove it. */
  lemma AssembleIsFrugalIff(cfg: Config, sys: System, tid: nat, r: Reply)
    requires NoLeftovers(sys) && tid in sys.calls && sys.calls[tid].pc == FinishUpload
    ensures NoLeftovers(Next(cfg, sys, Advance(tid, r))) <==> Frugal(sys, Advance(tid, r))
  {
    var c, sys' := sys.calls[tid], Next(cfg, sys, Advance(tid, r));
    var st := Step(sys.store, c, r);
    AssembleStep(sys.store, c, r);
    forall key ensures Held(sys', key) <==> Held(sys, key) {
      RemovedByRest(sys, tid, st.store, st.call, key);
      assert RemovedByOther(sys, tid, key) <==> RemovedBy(sys, key);
    }
  }

  // ---------- removal ----------

  lemma RemoveStep(s: Store, c: Call, r: Reply)
    requires c.pc == RemoveObject
    ensures var st := Step(s, c, r);
            && st.store.rows == s.rows && st.call.pc == Invalidate
            && st.store.objects == if r.ok then s.objects - {c.file.objectKey} else s.objects
  {
  }

  lemma RemoveIsFrugalIff(cfg: Config, sys: System, tid: nat, r: Reply)
    requires NoLeftovers(sys) && tid in sys.calls && sys.calls[tid].pc == RemoveObject
    ensures NoLeftovers(Next(cfg, sys, Advance(tid, r))) <==> Frugal(sys, Advance(tid, r))
  {
    var c, sys' := sys.calls[tid], Next(cfg, sys, Advance(tid, r));
    var st, own := Step(sys.store, c, r), c.file.objectKey;
    RemoveStep(sys.store, c, r);
    RemovedByRest(sys, tid, st.store, st.call, own);
    forall key | key in sys'.store.objects && key != own ensures Held(sys', key) {
      assert Held(sys, key);
      if !LiveKey(sys.store.rows, key) { RemovedStays(sys, tid, st.store, st.call, key); }
    }
  }

  // ---------- row writes ----------

  lemma WriteStep(s: Store, c: Call, r: Reply)
    requires Legal(c) && WritesRow(c.pc)
    ensures var m := Decide(s, c, r);
            && Apply(s, m.effect).objects == s.objects && (m.effect.PutRow? || m.effect == NoEffect)
            && (m.call.pc == RemoveObject <==> c.pc == SoftDelete && m.effect.PutRow? && RemovesObject(c))
            && (m.call.pc == RemoveObject ==> m.call.req == c.req && m.call.file == c.file)
            && (c.pc == SoftDelete ==>
                  (m.effect.PutRow? <==> r.ok && c.req.id in s.rows && s.rows[c.req.id].status != Deleted))
  {
  }

  lemma ConfirmKeepsKey(s: Store, c: Call, r: Reply)
    requires c.pc == ConfirmRow && Decide(s, c, r).effect.PutRow?
    ensures c.req.id in s.rows && Decide(s, c, r).effect.row.objectKey == s.rows[c.req.id].objectKey
  {
  }

  lemma LiveAfter(s: Store, id: string, row: FileMetadata, key: string)
    requires row.id == id && LiveKey(s.rows, key)
    requires id in s.rows && s.rows[id].objectKey == key ==> row.objectKey == key && row.status != Deleted
    ensures LiveKey(Apply(s, PutRow(row)).rows, key)
  {
    LiveKeyStays(s.rows, s.rows[id := row], id, key);
  }

  /** A row that is written stays live under its key, unless it is being deleted. */
  lemma WriteKeepsLive(cfg: Config, s: Store, c: Call, r: Reply, key: string)
    requires RowsOk(cfg, s) && CallInv(cfg, s, c) && WritesRow(c.pc) && LiveKey(s.rows, key)
    requires c.pc == SoftDelete && Decide(s, c, r).effect.PutRow? ==> s.rows[c.req.id].objectKey != key
    ensures LiveKey(Step(s, c, r).store.rows, key)
  {
    WriteStep(s, c, r);
    var e := Decide(s, c, r).effect;
    if e.PutRow? {
      WrittenRow(cfg, s, c, r);
      if c.pc == ConfirmRow { ConfirmKeepsKey(s, c, r); }
      LiveAfter(s, c.req.id, e.row, key);
    }
  }

  lemma WriteKeepsObjects(cfg: Config, sys: System, tid: nat, r: Reply)
    requires SystemInv(cfg, sys) && NoLeftovers(sys) && tid in sys.calls && WritesRow(sys.calls[tid].pc)
    requires Frugal(sys, Advance(tid, r))
    ensures NoLeftovers(Next(cfg, sys, Advance(tid, r)))
  {
    var s, c, sys' := sys.store, sys.calls[tid], Next(cfg, sys, Advance(tid, r));
    var m := Decide(s, c, r);
    assert CallInv(cfg, s, c);
    WriteStep(s, c, r);
    forall key | key in s.objects ensures Held(sys', key) {
      assert Held(sys, key);
      if RemovedBy(sys, key) {
        RemovedStays(sys, tid, Apply(s, m.effect), m.call, key);
      } else if c.pc == SoftDelete && m.effect.PutRow? && s.rows[c.req.id].objectKey == key {
        assert c.file.objectKey == key;
        assert sys'.calls[tid] == m.call && Remover(m.call, key);
      } else {
        WriteKeepsLive(cfg, s, c, r, key);
      }
    }
  }

  /** Keys are unique, so a key dies with its row. */
  lemma DeadAfter(cfg: Config, s: Store, id: string, row: FileMetadata)
    requires RowsOk(cfg, s) && id in s.rows && row.id == id && row.status == Deleted
    ensures !LiveKey(Apply(s, PutRow(row)).rows, s.rows[id].objectKey)
  {
    var rows' := s.rows[id := row];
    assert forall k | k in rows' && k != id :: k in s.rows && rows'[k] == s.rows[k];
    assert forall k | k in s.rows && s.rows[k].objectKey == s.rows[id].objectKey :: k == id;
  }

  /** A delete that is not frugal leaves its object behind. */
  lemma WastefulDelete(cfg: Config, sys: System, tid: nat, r: Reply)
    requires SystemInv(cfg, sys) && tid in sys.calls && sys.calls[tid].pc == SoftDelete && !Frugal(sys, Advance(tid, r))
    ensures !NoLeftovers(Next(cfg, sys, Advance(tid, r)))
  {
    var s, c, sys' := sys.store, sys.calls[tid], Next(cfg, sys, Advance(tid, r));
    var m, key := Decide(s, c, r), s.rows[c.req.id].objectKey;
    assert CallInv(cfg, s, c);
    WriteStep(s, c, r);
    WrittenRow(cfg, s, c, r);
    RemovedByRest(sys, tid, Apply(s, m.effect), m.call, key);
    DeadAfter(cfg, s, c.req.id, m.effect.row);
    assert key in sys'.store.objects && !Held(sys', key);
  }

  // ---------- runs ----------

  lemma StepKeepsObjectsIff(cfg: Config, sys: System, tid: nat, r: Reply)
    requires SystemInv(cfg, sys) && NoLeftovers(sys) && tid in sys.calls
    ensures NoLeftovers(Next(cfg, sys, Advance(tid, r))) <==> Frugal(sys, Advance(tid, r))
  {
    var pc := sys.calls[tid].pc;
    if pc == FinishUpload {
      AssembleIsFrugalIff(cfg, sys, tid, r);
    } else if pc == RemoveObject {
      RemoveIsFrugalIff(cfg, sys, tid, r);
    } else if WritesRow(pc) {
      if Frugal(sys, Advance(tid, r)) { WriteKeepsObjects(cfg, sys, tid, r); } else { WastefulDelete(cfg, sys, tid, r); }
    } else {
      PlainKeepsObjects(cfg, sys, tid, r);
    }
  }

  lemma ArrivalRemovesNothing(cfg: Config, sys: System, tid: nat, req: Request, now: int64, key: string)
    requires tid !in sys.calls
    ensures Held(Next(cfg, sys, Invoke(tid, req, now)), key) <==> Held(sys, key)
  {
    var sys' := Next(cfg, sys, Invoke(tid, req, now));
    if IsCreate(req) { BeginCreateShape(cfg, req, now); } else { BeginShape(cfg, req, now); }
    if RemovedBy(sys, key) {
      var t :| t in sys.calls && Remover(sys.calls[t], key);
      assert Remover(sys'.calls[t], key);
    }
    if RemovedBy(sys', key) {
      var t :| t in sys'.calls && Remover(sys'.calls[t], key);
      assert Remover(sys.calls[t], key);
    }
  }

  /** From a state in which every object is held, an action leaves one that is not exactly when it
      is not frugal. */
  lemma ObjectOutlivesRowIff(cfg: Config, sys: System, a: Action)
    requires SystemInv(cfg, sys) && NoLeftovers(sys)
    ensures NoLeftovers(Next(cfg, sys, a)) <==> Frugal(sys, a)
  {
    if a.Advance? {
      if a.tid in sys.calls { StepKeepsObjectsIff(cfg, sys, a.tid, a.reply); }
    } else {
      var sys' := Next(cfg, sys, a);
      forall key ensures Held(sys', key) <==> Held(sys, key) {
        if a.Invoke? && a.tid !in sys.calls {
          ArrivalRemovesNothing(cfg, sys, a.tid, a.req, a.now, key);
        } else {
          assert sys'.calls == sys.calls && sys'.store.rows == sys.store.rows;
          assert RemovedBy(sys', key) <==> RemovedBy(sys, key);
        }
      }
      if a.ClientPut? { assert a.key in sys'.store.objects; }
    }
  }

  ghost predicate FrugalRun(cfg: Config, actions: seq<Action>) {
    forall n | 0 <= n < |actions| :: Frugal(Run(cfg, INIT, actions[..n]), actions[n])
  }

  lemma FrugalPrefix(cfg: Config, actions: seq<Action>)
    requires FrugalRun(cfg, actions) && actions != []
    ensures FrugalRun(cfg, actions[..|actions| - 1])
    ensures Frugal(Run(cfg, INIT, actions[..|actions| - 1]), actions[|actions| - 1])
  {
    var front := actions[..|actions| - 1];
    assert forall n | 0 <= n < |front| :: front[..n] == actions[..n] && front[n] == actions[n];
  }

  lemma {:induction false} RunKeepsObjects(cfg: Config, actions: seq<Action>)
    requires FrugalRun(cfg, actions)
    ensures NoLeftovers(Run(cfg, INIT, actions))
    decreases |actions|
  {
    if actions != [] {
      var front := actions[..|actions| - 1];
      FrugalPrefix(cfg, actions);
      RunKeepsObjects(cfg, front);
      RunKeepsInv(cfg, INIT, front);
      ObjectOutlivesRowIff(cfg, Run(cfg, INIT, front), actions[|actions| - 1]);
    }
  }

  /** In every frugal run, once all calls have returned, every stored object belongs to a live row. */
  lemma ObjectsHaveLiveRows(cfg: Config, actions: seq<Action>, key: string)
    requires FrugalRun(cfg, actions) && ExactlyOnce.Quiet(Run(cfg, INIT, actions))
    requires key in Run(cfg, INIT, actions).store.objects
    ensures LiveKey(Run(cfg, INIT, actions).store.rows, key)
  {
    RunKeepsObjects(cfg, actions);
    assert Held(Run(cfg, INIT, actions), key);
  }
}
