/** Owners are isolated: identities fixed at creation, and no effect on anybody else's files. */
module OwnerFrame {
  import opened Domain
  import opened Protocol
  import opened Lifecycle
  import ObjectKeys
  import PageTokens
  import PartSizes
  import Validation

  // ---------- what creation fixes ----------

  /** A property of a file's identity: versions of one file agree on it. */
  ghost predicate OfIdentity(p: FileMetadata -> bool) {
    forall a, b | SameFile(a, b) :: p(a) == p(b)
  }

  /** Every creation that passes validation builds a file with the property. */
  ghost predicate Established(cfg: Config, p: FileMetadata -> bool) {
    forall req: Request, now: int64 | Building(Begin(cfg, req, now)) :: p(Begin(cfg, req, now).file)
  }

  ghost predicate Everywhere(sys: System, p: FileMetadata -> bool) {
    && (forall id | id in sys.store.rows :: p(sys.store.rows[id]))
    && (forall t | t in sys.calls && Building(sys.calls[t]) :: p(sys.calls[t].file))
  }

  lemma ReadsDoNotBuild(s: Store, c: Call, r: Reply)
    requires Legal(c) && (c.pc == ReadRow || c.pc == ReadCache)
    ensures !Building(Decide(s, c, r).call)
  {
  }

  lemma NeverBuildsAgain(s: Store, c: Call, r: Reply)
    requires Legal(c) && !Building(c)
    ensures !Building(Decide(s, c, r).call)
  {
    if c.pc == ReadRow || c.pc == ReadCache {
      ReadsDoNotBuild(s, c, r);
    }
  }

  lemma BuildingSource(cfg: Config, s: Store, c: Call, r: Reply)
    requires CallInv(cfg, s, c) && Building(Decide(s, c, r).call)
    ensures Building(c) && SameFile(c.file, Decide(s, c, r).call.file)
  {
    if !Building(c) {
      NeverBuildsAgain(s, c, r);
    }
  }

  lemma UpdateKeepsIdentity(s: Store, c: Call, r: Reply)
    requires (c.pc == ConfirmRow || c.pc == SoftDelete) && Decide(s, c, r).effect.PutRow?
    ensures c.req.id in s.rows && SameFile(s.rows[c.req.id], Decide(s, c, r).effect.row)
  {
  }

  lemma RowWriteSource(cfg: Config, s: Store, c: Call, r: Reply)
    requires RowsOk(cfg, s) && CallInv(cfg, s, c) && Decide(s, c, r).effect.PutRow?
    ensures var f := Decide(s, c, r).effect.row;
            (Building(c) && f == c.file) || (c.req.id in s.rows && SameFile(s.rows[c.req.id], f))
  {
    WrittenRow(cfg, s, c, r);
    if c.pc != InsertRow { UpdateKeepsIdentity(s, c, r); }
  }

  lemma EverywhereAfter(sys: System, tid: nat, m: Move, p: FileMetadata -> bool)
    requires Everywhere(sys, p) && tid in sys.calls
    requires Building(m.call) ==> p(m.call.file)
    requires m.effect.PutRow? ==> p(m.effect.row)
    ensures Everywhere(System(Apply(sys.store, m.effect), sys.calls[tid := m.call]), p)
  {
  }

  lemma StepKeepsEverywhere(cfg: Config, sys: System, tid: nat, r: Reply, p: FileMetadata -> bool)
    requires SystemInv(cfg, sys) && OfIdentity(p) && Everywhere(sys, p) && tid in sys.calls
    ensures Everywhere(Next(cfg, sys, Advance(tid, r)), p)
  {
    var s, c, m := sys.store, sys.calls[tid], Decide(sys.store, sys.calls[tid], r);
    assert CallInv(cfg, s, c);
    if Building(m.call) {
      BuildingSource(cfg, s, c, r);
      assert p(m.call.file);
    }
    if m.effect.PutRow? {
      RowWriteSource(cfg, s, c, r);
      assert p(m.effect.row);
    }
    EverywhereAfter(sys, tid, m, p);
  }

  lemma EverywhereWith(sys: System, tid: nat, c: Call, p: FileMetadata -> bool)
    requires Everywhere(sys, p) && (Building(c) ==> p(c.file))
    ensures Everywhere(sys.(calls := sys.calls[tid := c]), p)
  {
  }

  lemma NextKeepsEverywhere(cfg: Config, sys: System, a: Action, p: FileMetadata -> bool)
    requires SystemInv(cfg, sys) && OfIdentity(p) && Established(cfg, p) && Everywhere(sys, p)
    ensures Everywhere(Next(cfg, sys, a), p)
  {
    match a
    case Invoke(tid, req, now) =>
      if tid !in sys.calls {
        assert Building(Begin(cfg, req, now)) ==> p(Begin(cfg, req, now).file);
        EverywhereWith(sys, tid, Begin(cfg, req, now), p);
      }
    case Advance(tid, r) =>
      if tid in sys.calls { StepKeepsEverywhere(cfg, sys, tid, r, p); }
    case Evict(id) =>
    case ClientPut(key) =>
  }

  /** A property of identity that every creation establishes holds of every row of every run. */
  lemma {:induction false} RunKeepsEverywhere(cfg: Config, sys: System, actions: seq<Action>, p: FileMetadata -> bool)
    requires SystemInv(cfg, sys) && Everywhere(sys, p) && OfIdentity(p) && Established(cfg, p)
    ensures Everywhere(Run(cfg, sys, actions), p)
    decreases |actions|
  {
    if actions != [] {
      var front := actions[..|actions| - 1];
      RunKeepsEverywhere(cfg, sys, front, p);
      RunKeepsInv(cfg, sys, front);
      NextKeepsEverywhere(cfg, Run(cfg, sys, front), actions[|actions| - 1], p);
    }
  }

  /** The id is a canonical UUID, the owner passed validation, and the key is the cleaned join of
      owner, id and sanitised name. */
  predicate IdentityOk(f: FileMetadata) {
    && PageTokens.IsCanonical(f.id) && Validation.ValidOwner(f.owner)
    && f.objectKey == ObjectKeys.ObjectKey(f.owner, f.id, f.name)
  }

  /** The key lies under its owner. */
  predicate KeyBelongs(f: FileMetadata) {
    ObjectKeys.KeyOwner(f.objectKey) == f.owner
  }

  lemma BeginIdentity(cfg: Config, req: Request, now: int64)
    requires Building(Begin(cfg, req, now))
    ensures IdentityOk(Begin(cfg, req, now).file) && KeyBelongs(Begin(cfg, req, now).file)
  {
    ObjectKeys.KeySegments(req.owner, req.id, req.name);
  }

  lemma IdentitiesHold(cfg: Config, sys: System)
    requires Reachable(cfg, sys)
    ensures Everywhere(sys, IdentityOk) && Everywhere(sys, KeyBelongs)
  {
    forall req: Request, now: int64 | Building(Begin(cfg, req, now))
      ensures IdentityOk(Begin(cfg, req, now).file) && KeyBelongs(Begin(cfg, req, now).file)
    {
      BeginIdentity(cfg, req, now);
    }
    var actions :| sys == Run(cfg, INIT, actions);
    RunKeepsEverywhere(cfg, INIT, actions, IdentityOk);
    RunKeepsEverywhere(cfg, INIT, actions, KeyBelongs);
  }

  lemma BeginIsCapped(cfg: Config, req: Request, now: int64)
    requires Building(Begin(cfg, req, now))
    ensures Validation.ValidSize(Begin(cfg, req, now).file.size, cfg.maxSize)
  {
    if !IsCreate(req) { BeginShape(cfg, req, now); }
  }

  /** In every reachable state, with the configured bounds, the part count of a multipart row is the
      mathematical one, at least 2, and at most 1024 under the default cap. */
  lemma ReachableCountsAreExact(cfg: Config, sys: System, id: string)
    requires ValidConfig(cfg) && 0 < cfg.maxSize <= PartSizes.MIN_PART_SIZE * MAX_INT32
    requires Reachable(cfg, sys) && id in sys.store.rows && sys.store.rows[id].IsMultipart()
    ensures var f := sys.store.rows[id];
            && f.partSize > 0 && f.TotalParts() == PartSizes.Ceiling(f.size, f.partSize) >= 2
            && (cfg.maxSize <= PartSizes.DEFAULT_MAX_FILE_SIZE ==> f.TotalParts() <= 1024)
  {
    var f, capped := sys.store.rows[id], (f: FileMetadata) => Validation.ValidSize(f.size, cfg.maxSize);
    forall req: Request, now: int64 | Building(Begin(cfg, req, now)) ensures capped(Begin(cfg, req, now).file) {
      BeginIsCapped(cfg, req, now);
    }
    var actions :| sys == Run(cfg, INIT, actions);
    RunKeepsEverywhere(cfg, INIT, actions, capped);
    ReachableInv(cfg, sys);
    assert Sound(cfg, sys.store, f) && capped(f);
    PartSizes.AcceptedCreateIsExact(f.size, f.partSize, cfg.maxSize);
  }

  // ---------- frame ----------

  function EventsOfOwner(events: seq<Event>, p: string): seq<Event> {
    if events == [] then []
    else EventsOfOwner(events[..|events| - 1], p) +
         (if events[|events| - 1].owner == p then [events[|events| - 1]] else [])
  }

  predicate Owns(s: Store, p: string, id: string) {
    id in s.rows && s.rows[id].owner == p
  }

  /** The same entry, or no entry, in both maps. */
  predicate SameAt<V(==)>(m: map<string, V>, m': map<string, V>, id: string) {
    (id in m <==> id in m') && (id in m && id in m' ==> m[id] == m'[id])
  }

  ghost predicate SameTables(s: Store, s': Store, p: string) {
    && (forall id :: Owns(s, p, id) <==> Owns(s', p, id))
    && (forall id | Owns(s, p, id) ::
          SameAt(s.rows, s'.rows, id) && SameAt(s.parts, s'.parts, id) && SameAt(s.cache, s'.cache, id))
  }

  ghost predicate SameStorage(s: Store, s': Store, p: string) {
    && (forall u: Upload | ObjectKeys.KeyOwner(u.key) == p :: u in s.uploads <==> u in s'.uploads)
    && (forall k | ObjectKeys.KeyOwner(k) == p :: SameAt(s.objects, s'.objects, k))
  }

  /** Everything in the stores that concerns the files of p is the same: rows, parts and cache
      entries, open uploads and objects, and the history of events. */
  ghost predicate SameFor(s: Store, s': Store, p: string) {
    && SameTables(s, s', p) && SameStorage(s, s', p)
    && EventsOfOwner(s.events, p) == EventsOfOwner(s'.events, p)
  }

  lemma SameForTransitive(a: Store, b: Store, c: Store, p: string)
    requires SameFor(a, b, p) && SameFor(b, c, p)
    ensures SameFor(a, c, p)
  {
    forall id | Owns(a, p, id)
      ensures SameAt(a.rows, c.rows, id) && SameAt(a.parts, c.parts, id) && SameAt(a.cache, c.cache, id)
    {
      assert Owns(b, p, id);
    }
  }

  /** The effect concerns files of o only. */
  predicate ConcernsOwner(s: Store, o: string, e: Effect) {
    match e
    case NoEffect => true
    case PutRow(f) => f.owner == o && (f.id in s.rows ==> Owns(s, o, f.id))
    case PutCache(f) => Owns(s, o, f.id)
    case DropCache(id) => id in s.cache ==> Owns(s, o, id)
    case PutPart(id, _, _) => Owns(s, o, id)
    case DropParts(id) => Owns(s, o, id)
    case Open(u) => ObjectKeys.KeyOwner(u.key) == o
    case Close(u) => ObjectKeys.KeyOwner(u.key) == o
    case Assemble(u, _) => ObjectKeys.KeyOwner(u.key) == o
    case Remove(key) => ObjectKeys.KeyOwner(key) == o
    case PutObject(key) => ObjectKeys.KeyOwner(key) == o
    case Emit(event) => event.owner == o
  }

  lemma EffectKeepsTables(s: Store, o: string, e: Effect, p: string)
    requires ConcernsOwner(s, o, e) && p != o
    ensures SameTables(s, Apply(s, e), p)
  {
  }

  lemma EffectKeepsStorage(s: Store, o: string, e: Effect, p: string)
    requires ConcernsOwner(s, o, e) && p != o
    ensures SameStorage(s, Apply(s, e), p)
  {
  }

  lemma EffectKeepsOthers(cfg: Config, s: Store, o: string, e: Effect, p: string)
    requires StoreInv(cfg, s) && ConcernsOwner(s, o, e) && p != o
    ensures SameFor(s, Apply(s, e), p)
  {
    EffectKeepsTables(s, o, e, p);
    EffectKeepsStorage(s, o, e, p);
    if e.Emit? {
      assert (s.events + [e.event])[..|s.events|] == s.events;
    }
  }

  lemma WriteOrNothing(s: Store, c: Call, r: Reply)
    requires WritesRow(c.pc)
    ensures Decide(s, c, r).effect.PutRow? || Decide(s, c, r).effect == NoEffect
  {
  }

  lemma WriteConcernsOwner(cfg: Config, s: Store, c: Call, r: Reply)
    requires RowsOk(cfg, s) && CallInv(cfg, s, c) && HoldsCopy(c) && Decide(s, c, r).effect.PutRow?
    requires Owns(s, c.req.owner, c.req.id)
    ensures ConcernsOwner(s, c.req.owner, Decide(s, c, r).effect)
  {
    WrittenRow(cfg, s, c, r);
    RowWriteSource(cfg, s, c, r);
  }

  /** What a call with a copy of its own file may do, row writes apart. */
  lemma OwnEffect(s: Store, c: Call, r: Reply)
    requires Legal(c) && !Building(c) && !WritesRow(c.pc) && (c.spelled in s.cache ==> c.spelled == c.req.id)
    requires Owns(s, c.req.owner, c.req.id) && KeyBelongs(c.file) && c.file.id == c.req.id && c.file.owner == c.req.owner
    ensures ConcernsOwner(s, c.req.owner, Decide(s, c, r).effect)
  {
  }

  lemma CopyEffectConcernsOwner(cfg: Config, s: Store, c: Call, r: Reply)
    requires CallInv(cfg, s, c) && HoldsCopy(c) && !WritesRow(c.pc) && (c.spelled in s.cache ==> c.spelled == c.req.id)
    requires Owns(s, c.req.owner, c.req.id) && KeyBelongs(c.file)
    ensures ConcernsOwner(s, c.req.owner, Decide(s, c, r).effect)
  {
    assert CopyOk(cfg, s, c);
    OwnEffect(s, c, r);
  }

  lemma SideConcernsOwner(cfg: Config, s: Store, c: Call, r: Reply)
    requires StoreInv(cfg, s) && CallInv(cfg, s, c) && HoldsCopy(c) && !WritesRow(c.pc)
    requires Owns(s, c.req.owner, c.req.id) && KeyBelongs(c.file)
    ensures ConcernsOwner(s, c.req.owner, Decide(s, c, r).effect)
  {
    if c.spelled in s.cache { HitIsCanonical(cfg, s, c); }
    CopyEffectConcernsOwner(cfg, s, c, r);
  }

  lemma CopyConcernsOwner(cfg: Config, s: Store, c: Call, r: Reply)
    requires StoreInv(cfg, s) && CallInv(cfg, s, c) && HoldsCopy(c)
    requires Owns(s, c.req.owner, c.req.id) && KeyBelongs(c.file)
    ensures ConcernsOwner(s, c.req.owner, Decide(s, c, r).effect)
  {
    if WritesRow(c.pc) {
      if Decide(s, c, r).effect.PutRow? { WriteConcernsOwner(cfg, s, c, r); } else { WriteOrNothing(s, c, r); }
    } else {
      SideConcernsOwner(cfg, s, c, r);
    }
  }

  lemma BuildingConcernsOwner(cfg: Config, s: Store, c: Call, r: Reply)
    requires CallInv(cfg, s, c) && Building(c) && KeyBelongs(c.file)
    ensures ConcernsOwner(s, c.req.owner, Decide(s, c, r).effect)
  {
  }

  /** Every statement of a call concerns the files of its own owner, and nobody else's. */
  lemma StepConcernsOwner(cfg: Config, s: Store, c: Call, r: Reply)
    requires StoreInv(cfg, s) && CallInv(cfg, s, c)
    requires forall id | id in s.rows :: KeyBelongs(s.rows[id])
    requires Building(c) ==> KeyBelongs(c.file)
    ensures ConcernsOwner(s, c.req.owner, Decide(s, c, r).effect)
  {
    if HoldsCopy(c) {
      assert KeyBelongs(s.rows[c.req.id]) && SameFile(c.file, s.rows[c.req.id]);
      CopyConcernsOwner(cfg, s, c, r);
    } else if c.pc == ReadRow || c.pc == ReadCache {
      assert Decide(s, c, r).effect == NoEffect;
    } else if Building(c) {
      BuildingConcernsOwner(cfg, s, c, r);
    }
  }

  /** The action is an arrival, or a statement or event that concerns o. */
  ghost predicate ActsFor(sys: System, a: Action, o: string) {
    match a
    case Invoke(_, _, _) => true
    case Advance(tid, _) => tid in sys.calls ==> sys.calls[tid].req.owner == o
    case Evict(id) => Owns(sys.store, o, id)
    case ClientPut(key) => ObjectKeys.KeyOwner(key) == o
  }

  /** Only calls of o execute statements; calls of anybody may arrive. */
  ghost predicate OnlyOwner(cfg: Config, sys: System, actions: seq<Action>, o: string) {
    actions == [] ||
    var front := actions[..|actions| - 1];
    OnlyOwner(cfg, sys, front, o) && ActsFor(Run(cfg, sys, front), actions[|actions| - 1], o)
  }

  lemma NextKeepsOthers(cfg: Config, sys: System, a: Action, o: string, p: string)
    requires SystemInv(cfg, sys) && Everywhere(sys, KeyBelongs) && ActsFor(sys, a, o) && p != o
    ensures SameFor(sys.store, Next(cfg, sys, a).store, p)
  {
    match a
    case Invoke(_, _, _) =>
    case Advance(tid, r) =>
      if tid in sys.calls {
        StepConcernsOwner(cfg, sys.store, sys.calls[tid], r);
        EffectKeepsOthers(cfg, sys.store, o, Decide(sys.store, sys.calls[tid], r).effect, p);
      }
    case Evict(id) => EffectKeepsOthers(cfg, sys.store, o, DropCache(id), p);
    case ClientPut(key) => EffectKeepsOthers(cfg, sys.store, o, PutObject(key), p);
  }

  lemma KeyBelongsEstablished(cfg: Config)
    ensures OfIdentity(KeyBelongs) && Established(cfg, KeyBelongs)
  {
    forall req: Request, now: int64 | Building(Begin(cfg, req, now)) ensures KeyBelongs(Begin(cfg, req, now).file) {
      BeginIdentity(cfg, req, now);
    }
  }

  lemma {:induction false} RunKeepsOthers(cfg: Config, sys: System, actions: seq<Action>, o: string, p: string)
    requires SystemInv(cfg, sys) && Everywhere(sys, KeyBelongs)
    requires OnlyOwner(cfg, sys, actions, o) && p != o
    ensures SameFor(sys.store, Run(cfg, sys, actions).store, p)
    decreases |actions|
  {
    if actions != [] {
      var front := actions[..|actions| - 1];
      RunKeepsOthers(cfg, sys, front, o, p);
      RunKeepsInv(cfg, sys, front);
      KeyBelongsEstablished(cfg);
      RunKeepsEverywhere(cfg, sys, front, KeyBelongs);
      NextKeepsOthers(cfg, Run(cfg, sys, front), actions[|actions| - 1], o, p);
      SameForTransitive(sys.store, Run(cfg, sys, front).store, Run(cfg, sys, actions).store, p);
    }
  }

  /** Owner frame over whole runs: from any reachable state, while only calls of o execute, in any
      interleaving, successful or not, the rows, parts, cache entries, uploads, objects and events
      of every other owner stay exactly as they are. */
  lemma OthersAreUntouched(cfg: Config, sys: System, actions: seq<Action>, o: string, p: string)
    requires Reachable(cfg, sys) && OnlyOwner(cfg, sys, actions, o) && p != o
    ensures SameFor(sys.store, Run(cfg, sys, actions).store, p)
  {
    ReachableInv(cfg, sys);
    IdentitiesHold(cfg, sys);
    RunKeepsOthers(cfg, sys, actions, o, p);
  }
}
