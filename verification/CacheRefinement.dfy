/** The read-through cache when calls come one after the other and entries expire at any moment,
    also between two statements of a call: with reliable cache writes and deletes that spell the
    id canonically it agrees with the repository, and the service refines the one without a cache. */
module CacheRefinement {
  import opened Domain
  import opened Protocol
  import opened Lifecycle
  import opened Sequential
  import Calls
  import ExactlyOnce
  import PageTokens

  predicate EntryAgrees(s: Store, id: string)
    requires id in s.cache
  {
    id in s.rows && s.cache[id] == s.rows[id] && s.rows[id].status != Deleted
  }

  /** Every entry is the current, non-deleted row. */
  ghost predicate CacheAgrees(s: Store) {
    forall id | id in s.cache :: EntryAgrees(s, id)
  }

  /** The row has changed and the call has not told the cache yet. */
  predicate Dirty(c: Call) {
    || (IsConfirm(c.req) && (c.pc == DeleteParts || c.pc == FillCache))
    || (IsDelete(c.req) && c.pc == Invalidate)
    || (c.req.DeleteFile? && (c.pc == AbortUpload || c.pc == DeleteParts || c.pc == RemoveObject))
  }

  /** The call is about to cache its copy. */
  predicate WillFill(c: Call) {
    c.pc == FillCache || (c.pc == DeleteParts && c.req.CompleteMultipart?)
  }

  ghost predicate Coherent(s: Store, c: Call) {
    && (forall id | id in s.cache && !(id == c.req.id && Dirty(c)) :: EntryAgrees(s, id))
    && (WillFill(c) ==> c.req.id in s.rows && c.file == s.rows[c.req.id] && c.file.status != Deleted)
    && (IsDelete(c.req) && Dirty(c) ==> c.req.id in s.rows && s.rows[c.req.id].status == Deleted)
  }

  /** The key the call drops is the one its file is cached under, if it is cached at all. */
  predicate DropsItsEntry(s: Store, c: Call) {
    c.spelled == c.req.id || c.req.id !in s.cache
  }

  // ---------- one statement ----------

  lemma WriteStartsDirty(s: Store, c: Call, r: Reply)
    requires Legal(c) && WritesRow(c.pc)
    ensures Decide(s, c, r).call.req == c.req && !Dirty(c)
    ensures var m := Decide(s, c, r);
            if m.effect.PutRow? then
              && (c.pc == InsertRow || Dirty(m.call))
              && (IsDelete(c.req) ==> c.pc == SoftDelete)
              && (WillFill(m.call) ==> m.call.file == m.effect.row && c.pc != SoftDelete)
            else m.effect == NoEffect && !Dirty(m.call) && !WillFill(m.call)
  {
  }

  lemma WriteKeepsCoherent(cfg: Config, s: Store, c: Call, r: Reply)
    requires Good(cfg, s, c) && Coherent(s, c) && WritesRow(c.pc)
    ensures Coherent(Step(s, c, r).store, Step(s, c, r).call)
  {
    var m := Decide(s, c, r);
    WriteStartsDirty(s, c, r);
    if m.effect.PutRow? {
      WrittenRow(cfg, s, c, r);
      forall id | id in s.cache && id != c.req.id ensures EntryAgrees(Apply(s, m.effect), id) {
        assert EntryAgrees(s, id);
      }
      if c.pc == InsertRow {
        assert c.req.id !in s.cache by { assert CacheOk(cfg, s); }
      }
    }
  }

  lemma ReadIsClean(s: Store, c: Call, r: Reply)
    requires Legal(c) && (c.pc == ReadRow || c.pc == ReadCache)
    ensures Decide(s, c, r).effect == NoEffect && Decide(s, c, r).call.req == c.req
    ensures !Dirty(c) && !Dirty(Decide(s, c, r).call)
    ensures WillFill(Decide(s, c, r).call) ==>
              c.req.id in s.rows && Decide(s, c, r).call.file == s.rows[c.req.id] && s.rows[c.req.id].status != Deleted
  {
  }

  lemma ReadKeepsCoherent(s: Store, c: Call, r: Reply)
    requires Coherent(s, c) && Legal(c) && (c.pc == ReadRow || c.pc == ReadCache)
    ensures Coherent(Step(s, c, r).store, Step(s, c, r).call)
  {
    ReadIsClean(s, c, r);
  }

  lemma FillIsClean(c: Call)
    requires Legal(c) && c.pc == FillCache
    ensures AfterFill(c).req == c.req && !Dirty(AfterFill(c)) && !WillFill(AfterFill(c))
  {
  }

  lemma FillKeepsCoherent(cfg: Config, s: Store, c: Call, r: Reply)
    requires Good(cfg, s, c) && Coherent(s, c) && c.pc == FillCache && r.ok
    ensures Coherent(Step(s, c, r).store, Step(s, c, r).call)
  {
    assert CopyOk(cfg, s, c);
    FillIsClean(c);
  }

  lemma OtherIsPlain(s: Store, c: Call, r: Reply)
    requires Legal(c) && (c.pc == Invalidate ==> r.ok)
    requires !WritesRow(c.pc) && c.pc != ReadRow && c.pc != ReadCache && c.pc != FillCache
    ensures var st := Step(s, c, r);
            && st.store.rows == s.rows && st.call.req == c.req
            && (if c.pc == Invalidate then st.store.cache == s.cache - {c.spelled} && st.call.pc == Publish
                else st.store.cache == s.cache && (Dirty(c) ==> Dirty(st.call)))
            && (WillFill(st.call) ==> WillFill(c) && st.call.file == c.file)
            && (IsDelete(c.req) && Dirty(st.call) ==> Dirty(c))
  {
  }

  lemma OtherKeepsCoherent(s: Store, c: Call, r: Reply)
    requires Coherent(s, c) && Legal(c) && (c.pc == Invalidate ==> r.ok && DropsItsEntry(s, c))
    requires !WritesRow(c.pc) && c.pc != ReadRow && c.pc != ReadCache && c.pc != FillCache
    ensures Coherent(Step(s, c, r).store, Step(s, c, r).call)
  {
    OtherIsPlain(s, c, r);
    var st := Step(s, c, r);
    forall id | id in st.store.cache && !(id == c.req.id && Dirty(st.call)) ensures EntryAgrees(st.store, id) {
      assert EntryAgrees(s, id);
    }
  }

  lemma StepKeepsCoherent(cfg: Config, s: Store, c: Call, r: Reply)
    requires Good(cfg, s, c) && Coherent(s, c)
    requires (c.pc == FillCache ==> r.ok) && (c.pc == Invalidate ==> r.ok && DropsItsEntry(s, c))
    ensures Coherent(Step(s, c, r).store, Step(s, c, r).call)
  {
    if WritesRow(c.pc) {
      WriteKeepsCoherent(cfg, s, c, r);
    } else if c.pc == ReadRow || c.pc == ReadCache {
      ReadKeepsCoherent(s, c, r);
    } else if c.pc == FillCache {
      FillKeepsCoherent(cfg, s, c, r);
    } else {
      OtherKeepsCoherent(s, c, r);
    }
  }

  /** The statement that drops the entry of a deleted file leaves the cache in agreement exactly
      when the caller spelled the id canonically or the file is not cached at that moment. */
  lemma InvalidateAgreesIff(cfg: Config, s: Store, c: Call, r: Reply)
    requires Good(cfg, s, c) && Coherent(s, c) && c.pc == Invalidate && r.ok
    ensures CacheAgrees(Step(s, c, r).store) <==> DropsItsEntry(s, c)
  {
    OtherIsPlain(s, c, r);
    if DropsItsEntry(s, c) {
      OtherKeepsCoherent(s, c, r);
    } else {
      assert c.req.id in Step(s, c, r).store.cache && !EntryAgrees(Step(s, c, r).store, c.req.id);
    }
  }

  // ---------- serial runs ----------

  /** A call arrives only when all calls before it have returned. */
  ghost predicate Serial(cfg: Config, actions: seq<Action>) {
    forall n | 0 <= n < |actions| && actions[n].Invoke? :: ExactlyOnce.Quiet(Run(cfg, INIT, actions[..n]))
  }

  /** The cache executes the writes it is sent, and a delete drops the entry of its file. */
  ghost predicate CacheObeys(sys: System, a: Action) {
    a.Advance? && a.tid in sys.calls ==>
      var c := sys.calls[a.tid];
      && (c.pc == FillCache ==> a.reply.ok)
      && (c.pc == Invalidate ==> a.reply.ok && DropsItsEntry(sys.store, c))
  }

  ghost predicate Obedient(cfg: Config, actions: seq<Action>) {
    forall n | 0 <= n < |actions| :: CacheObeys(Run(cfg, INIT, actions[..n]), actions[n])
  }

  lemma PrefixIsSerial(cfg: Config, actions: seq<Action>)
    requires Serial(cfg, actions) && Obedient(cfg, actions) && actions != []
    ensures var n := |actions| - 1;
            && Serial(cfg, actions[..n]) && Obedient(cfg, actions[..n])
            && CacheObeys(Run(cfg, INIT, actions[..n]), actions[n])
            && (actions[n].Invoke? ==> ExactlyOnce.Quiet(Run(cfg, INIT, actions[..n])))
  {
    var front := actions[..|actions| - 1];
    assert forall n | 0 <= n < |front| :: front[..n] == actions[..n] && front[n] == actions[n];
  }

  predicate Unfinished(sys: System, t: nat) {
    t in sys.calls && sys.calls[t].pc != Returned
  }

  /** At most one call is unfinished, and the cache agrees but for what that call has yet to do. */
  ghost predicate InStep(sys: System) {
    && (forall t, u | Unfinished(sys, t) && Unfinished(sys, u) :: t == u)
    && (forall t | Unfinished(sys, t) :: Coherent(sys.store, sys.calls[t]))
    && (ExactlyOnce.Quiet(sys) ==> CacheAgrees(sys.store))
  }

  ghost predicate SerialInv(cfg: Config, sys: System) {
    SystemInv(cfg, sys) && InStep(sys)
  }

  /** The one call that may be unfinished goes on. */
  lemma OneCallInStep(sys: System, tid: nat, s: Store, c: Call)
    requires forall t | Unfinished(sys, t) :: t == tid
    requires Coherent(s, c)
    ensures InStep(System(s, sys.calls[tid := c]))
  {
    var sys' := System(s, sys.calls[tid := c]);
    forall t | Unfinished(sys', t) ensures t == tid {
      assert t == tid || Unfinished(sys, t);
    }
    assert tid in sys'.calls && sys'.calls[tid] == c;
  }

  lemma ArrivedIsClean(c: Call)
    requires Arrived(c)
    ensures !Dirty(c) && !WillFill(c)
  {
  }

  lemma BeginIsClean(cfg: Config, req: Request, now: int64)
    ensures !Dirty(Begin(cfg, req, now)) && !WillFill(Begin(cfg, req, now))
  {
    BeginArrives(cfg, req, now);
    ArrivedIsClean(Begin(cfg, req, now));
  }

  lemma InvokeKeepsSerial(cfg: Config, sys: System, tid: nat, req: Request, now: int64)
    requires SerialInv(cfg, sys) && ExactlyOnce.Quiet(sys) && tid !in sys.calls
    ensures SerialInv(cfg, Next(cfg, sys, Invoke(tid, req, now)))
  {
    NextKeepsInv(cfg, sys, Invoke(tid, req, now));
    BeginIsClean(cfg, req, now);
    assert Coherent(sys.store, Begin(cfg, req, now));
    OneCallInStep(sys, tid, sys.store, Begin(cfg, req, now));
  }

  lemma ReturnedStands(cfg: Config, sys: System, tid: nat, r: Reply)
    requires tid in sys.calls && sys.calls[tid].pc == Returned
    ensures Next(cfg, sys, Advance(tid, r)) == sys
  {
    assert sys.calls[tid := sys.calls[tid]] == sys.calls;
  }

  lemma ActiveStepsCoherently(cfg: Config, sys: System, tid: nat, r: Reply)
    requires SerialInv(cfg, sys) && CacheObeys(sys, Advance(tid, r)) && Unfinished(sys, tid)
    ensures var st := Step(sys.store, sys.calls[tid], r); Coherent(st.store, st.call)
    ensures forall t | Unfinished(sys, t) :: t == tid
  {
    assert Good(cfg, sys.store, sys.calls[tid]);
    StepKeepsCoherent(cfg, sys.store, sys.calls[tid], r);
  }

  lemma AdvanceKeepsSerial(cfg: Config, sys: System, tid: nat, r: Reply)
    requires SerialInv(cfg, sys) && CacheObeys(sys, Advance(tid, r)) && tid in sys.calls
    ensures SerialInv(cfg, Next(cfg, sys, Advance(tid, r)))
  {
    var c := sys.calls[tid];
    if c.pc == Returned {
      ReturnedStands(cfg, sys, tid, r);
    } else {
      NextKeepsInv(cfg, sys, Advance(tid, r));
      ActiveStepsCoherently(cfg, sys, tid, r);
      OneCallInStep(sys, tid, Step(sys.store, c, r).store, Step(sys.store, c, r).call);
    }
  }

  lemma EnvironmentKeepsCoherent(s: Store, c: Call, e: Effect)
    requires Coherent(s, c) && (e.DropCache? || e.PutObject?)
    ensures Coherent(Apply(s, e), c)
  {
    var s' := Apply(s, e);
    forall k | k in s'.cache && !(k == c.req.id && Dirty(c)) ensures EntryAgrees(s', k) {
      assert EntryAgrees(s, k);
    }
  }

  lemma EnvironmentKeepsInStep(sys: System, e: Effect)
    requires InStep(sys) && (e.DropCache? || e.PutObject?)
    ensures InStep(sys.(store := Apply(sys.store, e)))
  {
    var s', sys' := Apply(sys.store, e), sys.(store := Apply(sys.store, e));
    assert forall t :: Unfinished(sys', t) <==> Unfinished(sys, t);
    forall t | Unfinished(sys', t) ensures Coherent(s', sys'.calls[t]) {
      EnvironmentKeepsCoherent(sys.store, sys.calls[t], e);
    }
    if ExactlyOnce.Quiet(sys') {
      forall k | k in s'.cache ensures EntryAgrees(s', k) {
        assert EntryAgrees(sys.store, k);
      }
    }
  }

  lemma NextKeepsSerial(cfg: Config, sys: System, a: Action)
    requires SerialInv(cfg, sys) && CacheObeys(sys, a) && (a.Invoke? ==> ExactlyOnce.Quiet(sys))
    ensures SerialInv(cfg, Next(cfg, sys, a))
  {
    NextKeepsInv(cfg, sys, a);
    match a
    case Invoke(tid, req, now) =>
      if tid !in sys.calls { InvokeKeepsSerial(cfg, sys, tid, req, now); }
    case Advance(tid, r) =>
      if tid in sys.calls { AdvanceKeepsSerial(cfg, sys, tid, r); }
    case Evict(id) => EnvironmentKeepsInStep(sys, DropCache(id));
    case ClientPut(key) => EnvironmentKeepsInStep(sys, PutObject(key));
  }

  lemma {:induction false} RunKeepsSerial(cfg: Config, actions: seq<Action>)
    requires Serial(cfg, actions) && Obedient(cfg, actions)
    ensures SerialInv(cfg, Run(cfg, INIT, actions))
    decreases |actions|
  {
    if actions != [] {
      var n := |actions| - 1;
      PrefixIsSerial(cfg, actions);
      RunKeepsSerial(cfg, actions[..n]);
      NextKeepsSerial(cfg, Run(cfg, INIT, actions[..n]), actions[n]);
    }
  }

  /** Between calls of a serial run with an obedient cache, with evictions at any moment, each
      cached entry is its row, and the row is not deleted. */
  lemma CacheAlwaysAgrees(cfg: Config, actions: seq<Action>)
    requires Serial(cfg, actions) && Obedient(cfg, actions) && ExactlyOnce.Quiet(Run(cfg, INIT, actions))
    ensures CacheAgrees(Run(cfg, INIT, actions).store)
  {
    RunKeepsSerial(cfg, actions);
  }

  /** The cache executes its writes, and deletes and aborts arrive with canonical ids. */
  ghost predicate CanonicalDeletes(cfg: Config, actions: seq<Action>) {
    && ExactlyOnce.Reliable(cfg, actions, {FillCache, Invalidate})
    && forall n | 0 <= n < |actions| && actions[n].Invoke? && IsDelete(actions[n].req) ::
         PageTokens.IsCanonical(actions[n].req.id)
  }

  ghost predicate DeletesNamed(sys: System) {
    forall t | t in sys.calls && IsDelete(sys.calls[t].req) :: sys.calls[t].spelled == sys.calls[t].req.id
  }

  lemma NextKeepsDeletesNamed(cfg: Config, sys: System, a: Action)
    requires DeletesNamed(sys) && (a.Invoke? && IsDelete(a.req) ==> PageTokens.IsCanonical(a.req.id))
    ensures DeletesNamed(Next(cfg, sys, a))
  {
    match a
    case Invoke(tid, req, now) =>
      if !IsCreate(req) {
        BeginShape(cfg, req, now);
        BeginInv(cfg, sys.store, req, now);
      } else {
        BeginCreateShape(cfg, req, now);
      }
    case Advance(tid, r) =>
      if tid in sys.calls { RequestIsKept(sys.store, sys.calls[tid], r); }
    case Evict(id) =>
    case ClientPut(key) =>
  }

  lemma NamedDeleteObeys(cfg: Config, sys: System, a: Action)
    requires SystemInv(cfg, sys) && DeletesNamed(sys) && ExactlyOnce.ReliableAt(cfg, sys, a, {FillCache, Invalidate})
    ensures CacheObeys(sys, a)
  {
    if a.Advance? && a.tid in sys.calls { assert Legal(sys.calls[a.tid]); }
  }

  lemma {:induction false} DeletesStayNamed(cfg: Config, actions: seq<Action>, n: nat)
    requires n <= |actions|
    requires forall k | 0 <= k < |actions| && actions[k].Invoke? && IsDelete(actions[k].req) ::
               PageTokens.IsCanonical(actions[k].req.id)
    ensures DeletesNamed(Run(cfg, INIT, actions[..n]))
  {
    if n > 0 {
      DeletesStayNamed(cfg, actions, n - 1);
      assert actions[..n][..n - 1] == actions[..n - 1];
      NextKeepsDeletesNamed(cfg, Run(cfg, INIT, actions[..n - 1]), actions[n - 1]);
    }
  }

  /** A canonical id is its own cache key, so such runs meet the condition at every delete. */
  lemma CanonicalIsObedient(cfg: Config, actions: seq<Action>)
    requires CanonicalDeletes(cfg, actions)
    ensures Obedient(cfg, actions)
  {
    forall n | 0 <= n < |actions| ensures CacheObeys(Run(cfg, INIT, actions[..n]), actions[n]) {
      RunKeepsInv(cfg, INIT, actions[..n]);
      DeletesStayNamed(cfg, actions, n);
      NamedDeleteObeys(cfg, Run(cfg, INIT, actions[..n]), actions[n]);
    }
  }

  // ---------- the service without a cache ----------

  function WithoutCache(s: Store): Store {
    s.(cache := map[])
  }

  function Uncached(sys: System): System {
    System(WithoutCache(sys.store), sys.calls)
  }

  predicate CachePc(pc: Pc) {
    pc == ReadCache || pc == FillCache || pc == Invalidate
  }

  ghost predicate NoCacheAt(sys: System, a: Action) {
    a.Advance? && a.tid in sys.calls && CachePc(sys.calls[a.tid].pc) ==> !a.reply.ok
  }

  /** The run of a service whose every cache statement fails. */
  ghost predicate NoCache(cfg: Config, actions: seq<Action>) {
    forall n | 0 <= n < |actions| :: NoCacheAt(Run(cfg, INIT, actions[..n]), actions[n])
  }

  lemma NoCacheExtends(cfg: Config, actions: seq<Action>, a: Action)
    requires NoCache(cfg, actions) && NoCacheAt(Run(cfg, INIT, actions), a)
    ensures NoCache(cfg, actions + [a]) && Run(cfg, INIT, actions + [a]) == Next(cfg, Run(cfg, INIT, actions), a)
  {
    var all := actions + [a];
    assert all[..|actions|] == actions;
    forall n | 0 <= n < |all| ensures NoCacheAt(Run(cfg, INIT, all[..n]), all[n]) {
      if n < |actions| { assert all[..n] == actions[..n]; }
    }
  }

  lemma DecideIgnoresCache(s: Store, c: Call, r: Reply)
    requires !CachePc(c.pc)
    ensures Decide(s, c, r) == Decide(WithoutCache(s), c, r)
    ensures !Decide(s, c, r).effect.PutCache? && !Decide(s, c, r).effect.DropCache?
  {
    assert PartsOf(WithoutCache(s), c.req.id) == PartsOf(s, c.req.id);
  }

  lemma EffectIgnoresCache(s: Store, e: Effect)
    requires !e.PutCache? && !e.DropCache?
    ensures WithoutCache(Apply(s, e)) == Apply(WithoutCache(s), e)
  {
  }

  /** Outside the cache the two services take the same step. */
  lemma SameStep(cfg: Config, sys: System, tid: nat, r: Reply)
    requires tid in sys.calls && !CachePc(sys.calls[tid].pc)
    ensures Next(cfg, Uncached(sys), Advance(tid, r)) == Uncached(Next(cfg, sys, Advance(tid, r)))
  {
    DecideIgnoresCache(sys.store, sys.calls[tid], r);
    EffectIgnoresCache(sys.store, Decide(sys.store, sys.calls[tid], r).effect);
  }

  /** A cache write, or a cache read that misses, is a failing statement of the other service. */
  lemma FailingStep(cfg: Config, sys: System, tid: nat, r: Reply)
    requires tid in sys.calls && CachePc(sys.calls[tid].pc)
    requires sys.calls[tid].pc == ReadCache ==> !(r.ok && sys.calls[tid].spelled in sys.store.cache)
    ensures Next(cfg, Uncached(sys), Advance(tid, r.(ok := false))) == Uncached(Next(cfg, sys, Advance(tid, r)))
  {
  }

  /** On a hit the service without a cache reads the row and comes to the same call. */
  lemma HitReadsRow(s: Store, c: Call, r: Reply)
    requires IsRead(c.req) && c.pc == ReadCache && PageTokens.IsCanonical(c.req.id)
    requires c.req.id in s.rows && s.rows[c.req.id].status != Deleted
    ensures var f, miss, row := s.rows[c.req.id], c.Goto(ReadRow), c.(pc := FillCache, file := s.rows[c.req.id]);
            && Step(s, c, r.(ok := false)) == State(s, miss)
            && Step(s, miss, r.(ok := true)) == State(s, if f.IsOwnedBy(c.req.owner) then row else c.Fail(AccessDenied))
            && Step(s, row, r.(ok := false)) == State(s, AfterRead(c.(file := f)))
  {
    Calls.AfterReadForgetsPc(c, c.(pc := FillCache, file := s.rows[c.req.id]), s.rows[c.req.id]);
  }

  lemma HitStep(cfg: Config, sys: System, tid: nat, r: Reply)
    requires SystemInv(cfg, sys) && tid in sys.calls && sys.calls[tid].pc == ReadCache && Coherent(sys.store, sys.calls[tid])
    requires r.ok && sys.calls[tid].spelled in sys.store.cache
    ensures var s, c, sys' := sys.store, sys.calls[tid], Next(cfg, sys, Advance(tid, r));
            && PageTokens.IsCanonical(c.req.id) && c.req.id in s.rows && s.rows[c.req.id].status != Deleted
            && sys' == System(s, sys.calls[tid := if s.rows[c.req.id].IsOwnedBy(c.req.owner)
                                                  then AfterRead(c.(file := s.rows[c.req.id])) else c.Fail(AccessDenied)])
  {
    var s, c := sys.store, sys.calls[tid];
    assert CallInv(cfg, s, c);
    HitIsCanonical(cfg, s, c);
    assert EntryAgrees(s, c.spelled);
  }

  /** One more statement of one call, the other calls as they were. */
  lemma StepPlain(
    cfg: Config, plain: seq<Action>, s: Store, calls: map<nat, Call>, tid: nat, r: Reply, c: Call, st: State)
    returns (more: seq<Action>)
    requires NoCache(cfg, plain) && Run(cfg, INIT, plain) == System(s, calls[tid := c])
    requires Step(s, c, r) == st && (CachePc(c.pc) ==> !r.ok)
    ensures NoCache(cfg, more) && Run(cfg, INIT, more) == System(st.store, calls[tid := st.call])
  {
    NoCacheExtends(cfg, plain, Advance(tid, r));
    more := plain + [Advance(tid, r)];
    assert calls[tid := c][tid := st.call] == calls[tid := st.call];
  }

  /** The statements by which the service without a cache answers a hit. */
  lemma HitAgrees(cfg: Config, plain: seq<Action>, sys: System, tid: nat, r: Reply) returns (more: seq<Action>)
    requires NoCache(cfg, plain) && Run(cfg, INIT, plain) == Uncached(sys)
    requires SystemInv(cfg, sys) && tid in sys.calls && sys.calls[tid].pc == ReadCache && Coherent(sys.store, sys.calls[tid])
    requires r.ok && sys.calls[tid].spelled in sys.store.cache
    ensures NoCache(cfg, more) && Run(cfg, INIT, more) == Uncached(Next(cfg, sys, Advance(tid, r)))
  {
    var c, s0 := sys.calls[tid], WithoutCache(sys.store);
    HitStep(cfg, sys, tid, r);
    assert IsRead(c.req) by { assert CallInv(cfg, sys.store, c); }
    HitReadsRow(s0, c, r);
    var f, miss := s0.rows[c.req.id], c.Goto(ReadRow);
    assert sys.calls[tid := c] == sys.calls;
    more := StepPlain(cfg, plain, s0, sys.calls, tid, r.(ok := false), c, State(s0, miss));
    if f.IsOwnedBy(c.req.owner) {
      var row := c.(pc := FillCache, file := f);
      more := StepPlain(cfg, more, s0, sys.calls, tid, r.(ok := true), miss, State(s0, row));
      more := StepPlain(cfg, more, s0, sys.calls, tid, r.(ok := false), row, State(s0, AfterRead(c.(file := f))));
    } else {
      more := StepPlain(cfg, more, s0, sys.calls, tid, r.(ok := true), miss, State(s0, c.Fail(AccessDenied)));
    }
  }

  lemma StepRefines(cfg: Config, plain: seq<Action>, sys: System, tid: nat, r: Reply) returns (more: seq<Action>)
    requires NoCache(cfg, plain) && Run(cfg, INIT, plain) == Uncached(sys) && SerialInv(cfg, sys) && tid in sys.calls
    ensures NoCache(cfg, more) && Run(cfg, INIT, more) == Uncached(Next(cfg, sys, Advance(tid, r)))
  {
    var c, fails := sys.calls[tid], Advance(tid, r.(ok := false));
    if !CachePc(c.pc) {
      SameStep(cfg, sys, tid, r);
      NoCacheExtends(cfg, plain, Advance(tid, r));
      more := plain + [Advance(tid, r)];
    } else if c.pc == ReadCache && r.ok && c.spelled in sys.store.cache {
      assert Unfinished(sys, tid);
      more := HitAgrees(cfg, plain, sys, tid, r);
    } else {
      FailingStep(cfg, sys, tid, r);
      NoCacheExtends(cfg, plain, fails);
      more := plain + [fails];
    }
  }

  /** Arrivals and uploads are the same to both services. */
  lemma SameAction(cfg: Config, sys: System, a: Action)
    requires !a.Evict? && !(a.Advance? && a.tid in sys.calls)
    ensures Next(cfg, Uncached(sys), a) == Uncached(Next(cfg, sys, a))
  {
  }

  lemma EvictIsUnseen(cfg: Config, sys: System, id: string)
    ensures Uncached(Next(cfg, sys, Evict(id))) == Uncached(sys)
  {
  }

  /** One action of the cached service, followed by the service without a cache. */
  lemma ActionRefines(cfg: Config, plain: seq<Action>, sys: System, a: Action) returns (more: seq<Action>)
    requires NoCache(cfg, plain) && Run(cfg, INIT, plain) == Uncached(sys) && SerialInv(cfg, sys)
    ensures NoCache(cfg, more) && Run(cfg, INIT, more) == Uncached(Next(cfg, sys, a))
  {
    if a.Advance? && a.tid in sys.calls {
      more := StepRefines(cfg, plain, sys, a.tid, a.reply);
    } else if a.Evict? {
      EvictIsUnseen(cfg, sys, a.id);
      more := plain;
    } else {
      SameAction(cfg, sys, a);
      NoCacheExtends(cfg, plain, a);
      more := plain + [a];
    }
  }

  /** Refinement over whole runs: to every serial run with an obedient cache, whatever else fails
      and whenever entries expire, there is a run of the service without a cache that takes every
      call to the same point with the same result and leaves the same rows, parts, uploads,
      objects and events. */
  lemma {:induction false} SerialRunRefines(cfg: Config, actions: seq<Action>) returns (plain: seq<Action>)
    requires Serial(cfg, actions) && Obedient(cfg, actions)
    ensures NoCache(cfg, plain)
    ensures Run(cfg, INIT, plain) == Uncached(Run(cfg, INIT, actions))
    decreases |actions|
  {
    if actions == [] {
      plain := [];
    } else {
      var n := |actions| - 1;
      PrefixIsSerial(cfg, actions);
      var before := SerialRunRefines(cfg, actions[..n]);
      RunKeepsSerial(cfg, actions[..n]);
      plain := ActionRefines(cfg, before, Run(cfg, INIT, actions[..n]), actions[n]);
    }
  }

  /** With deletes and aborts that spell the id canonically, every result of every call is one the
      service without a cache gives. */
  lemma SameResults(cfg: Config, actions: seq<Action>, t: nat) returns (plain: seq<Action>)
    requires Serial(cfg, actions) && CanonicalDeletes(cfg, actions) && t in Run(cfg, INIT, actions).calls
    ensures NoCache(cfg, plain) && t in Run(cfg, INIT, plain).calls
    ensures Run(cfg, INIT, plain).calls[t] == Run(cfg, INIT, actions).calls[t]
    ensures Run(cfg, INIT, plain).store.rows == Run(cfg, INIT, actions).store.rows
  {
    CanonicalIsObedient(cfg, actions);
    plain := SerialRunRefines(cfg, actions);
  }
}
