/**
 The process-wide open registry of `crates/redlinedb/src/registry.rs`: a double-checked open over a
 map of weak entries and a map of weak locks, both keyed by path, run by any number of threads.
 */
module Registry {
  import opened Chars

  type Path = nat

  /**
   What the maps are keyed by: a directory under one of its spellings. Spelling 0 is the one
   `canonicalize` returns.
   */
  datatype Key = Key(dir: Path, spelling: nat)

  predicate Canonical(k: Key) {
    k.spelling == 0
  }

  type ThreadId = nat
  type LockId = nat
  type HandleId = nat

  // ---- Options -------------------------------------------------------------------------------

  /** The structured options (optimizer, query memory, statistics) are compared as whole values. */
  datatype Fingerprint = Fingerprint(
    readOnly: bool, durability: nat, memoryCacheBytes: nat, optimizer: nat, queryMemory: nat, stats: nat,
    statementCacheCapacity: nat, processOwnerLock: bool, tempDir: Option<Path>, leanEphemeral: bool)

  /** `OpenFingerprint::compatible_with`. */
  predicate CompatibleWith(a: Fingerprint, b: Fingerprint) {
    && a.durability == b.durability
    && a.memoryCacheBytes == b.memoryCacheBytes
    && a.optimizer == b.optimizer
    && a.queryMemory == b.queryMemory
    && a.stats == b.stats
    && a.statementCacheCapacity == b.statementCacheCapacity
    && a.processOwnerLock == b.processOwnerLock
    && a.tempDir == b.tempDir
    && a.leanEphemeral == b.leanEphemeral
  }

  datatype Verdict = Accept | Busy | Misuse

  /** An open instance can serve a request with its very options, or with them but read-only. */
  predicate Serves(existing: Fingerprint, request: Fingerprint) {
    existing == request || existing == request.(readOnly := false)
  }

  /** `validate_existing_entry`: accepts exactly the entries that can serve the request. */
  function Validate(existing: Fingerprint, request: Fingerprint): (v: Verdict)
    ensures v.Accept? <==> existing == request || existing == request.(readOnly := false)
    ensures v.Busy? <==> existing.readOnly && !request.readOnly
  {
    if existing.readOnly && !request.readOnly then Busy
    else if !CompatibleWith(existing, request) then Misuse
    else Accept
  }

  // ---- The two maps --------------------------------------------------------------------------

  /** `id` tells apart two entries opened under the same key at different times. */
  datatype Entry = Entry(id: nat, key: Key, fingerprint: Fingerprint)

  /** `entries.get(path).and_then(Weak::upgrade)`: an entry upgrades while some handle holds it. */
  function Upgrade(entries: map<Key, Entry>, live: set<Entry>, key: Key): Option<Entry> {
    if key in entries && entries[key] in live then Some(entries[key]) else None
  }

  /** `open_lock_for_path`: `newLock` is the identity a new lock would get. */
  function OpenLockForPath(locks: map<Key, LockId>, held: set<LockId>, key: Key, newLock: LockId)
    : (map<Key, LockId>, LockId)
  {
    if key in locks && locks[key] in held then (locks, locks[key]) else (locks[key := newLock], newLock)
  }

  datatype Found = Existing(entry: Entry) | Rejected(reason: Verdict) | MayOpen(lock: LockId)

  /** The first critical section of an open. */
  function LookUpIn(entries: map<Key, Entry>, live: set<Entry>, locks: map<Key, LockId>, held: set<LockId>,
                    key: Key, request: Fingerprint, newLock: LockId): (map<Key, LockId>, Found)
  {
    match Upgrade(entries, live, key)
    case Some(e) =>
      (var v := Validate(e.fingerprint, request); (locks, if v.Accept? then Existing(e) else Rejected(v)))
    case None =>
      (var (locks', l) := OpenLockForPath(locks, held, key, newLock); (locks', MayOpen(l)))
  }

  /** The `Registry` structure; `live` and `held` are what the weak references still reach. */
  class Maps {
    var entries: map<Key, Entry>
    var openLocks: map<Key, LockId>

    constructor ()
      ensures entries == map[] && openLocks == map[]
    {
      entries, openLocks := map[], map[];
    }

    method LookUp(key: Key, request: Fingerprint, live: set<Entry>, held: set<LockId>, newLock: LockId)
      returns (r: Found)
      modifies this`openLocks
      ensures (openLocks, r) == LookUpIn(entries, live, old(openLocks), held, key, request, newLock)
      ensures key in entries && entries[key] in live ==>
                && openLocks == old(openLocks)
                && (r == Existing(entries[key]) <==> Serves(entries[key].fingerprint, request))
                && (r == Rejected(Busy) <==> entries[key].fingerprint.readOnly && !request.readOnly)
                && !r.MayOpen?
      ensures !(key in entries && entries[key] in live) ==>
                if key in old(openLocks) && old(openLocks)[key] in held then
                  r == MayOpen(old(openLocks)[key]) && openLocks == old(openLocks)
                else r == MayOpen(newLock) && openLocks == old(openLocks)[key := newLock]
    {
      if key in entries && entries[key] in live {
        var existing := entries[key];
        var v := Validate(existing.fingerprint, request);
        if v != Accept {
          return Rejected(v);
        }
        return Existing(existing);
      }
      if key in openLocks && openLocks[key] in held {
        return MayOpen(openLocks[key]);
      }
      openLocks := openLocks[key := newLock];
      return MayOpen(newLock);
    }

    method Insert(entry: Entry)
      modifies this`entries
      ensures entries == old(entries)[entry.key := entry]
    {
      entries := entries[entry.key := entry];
    }
  }

  // ---- The protocol --------------------------------------------------------------------------

  datatype Node = Absent | RegularFile(zeroLength: bool) | Directory(empty: bool)

  datatype Kind = OpenFile(create: bool) | Session(privateMemory: bool)

  /**
   How far an open has come: before the first critical section; holding the lock object; owning
   its mutex; past the re-check; directory in place; create or recovery chosen; entry built; or
   done and about to release the mutex.
   */
  datatype Stage = Started | Waiting | Guarded | Opening | Prepared | Chosen(createNew: bool) | Built | Leaving

  datatype Opener = Opener(key: Key, kind: Kind, request: Fingerprint, stage: Stage, lock: LockId)

  datatype Grant = Grant(key: Key, request: Fingerprint, entry: Entry)

  /** `clock` counts steps and numbers new locks, entries and handles; `grants` records every return. */
  datatype System = System(
    entries: map<Key, Entry>, openLocks: map<Key, LockId>, threads: map<ThreadId, Opener>,
    handles: map<HandleId, Entry>, files: map<Path, Node>, grants: seq<Grant>, clock: nat)

  function Init(files: map<Path, Node>): System {
    System(map[], map[], map[], map[], files, [], 0)
  }

  datatype Action =
    | Start(t: ThreadId, key: Key, kind: Kind, request: Fingerprint)
    | LookUp(t: ThreadId)
    | Acquire(t: ThreadId)
    | Recheck(t: ThreadId)
    | Prepare(t: ThreadId, ioOk: bool)
    | Choose(t: ThreadId)
    | RunEngine(t: ThreadId, ok: bool, wrote: bool)
    | Insert(t: ThreadId)
    | Leave(t: ThreadId)
    | CloneHandle(h: HandleId)
    | DropHandle(h: HandleId)

  predicate HoldsLock(o: Opener) {
    o.stage != Started
  }

  predicate Inside(o: Opener) {
    o.stage != Started && o.stage != Waiting
  }

  /** Between the re-check and the insertion of the new entry. */
  predicate InOpen(o: Opener) {
    o.stage == Opening || o.stage == Prepared || o.stage.Chosen? || o.stage == Built
  }

  function HeldLocks(s: System): set<LockId> {
    set t <- s.threads | HoldsLock(s.threads[t]) :: s.threads[t].lock
  }

  function NodeAt(s: System, p: Path): Node {
    if p in s.files then s.files[p] else Absent
  }

  predicate At(s: System, t: ThreadId, stage: Stage) {
    t in s.threads && s.threads[t].stage == stage
  }

  /** Whether the open takes the lock on `owner.lock` in the directory. */
  predicate TakesOwner(f: Fingerprint) {
    f.processOwnerLock && !f.readOnly
  }

  /** No other open of the directory, under whatever key, has its owner lock. */
  predicate OwnerFree(s: System, t: ThreadId)
    requires t in s.threads
  {
    var d := s.threads[t].key.dir;
    && (forall h <- s.handles :: s.handles[h].key.dir == d ==> !TakesOwner(s.handles[h].fingerprint))
    && (forall u <- s.threads :: u != t && s.threads[u].key.dir == d && s.threads[u].stage == Built ==>
          !TakesOwner(s.threads[u].request))
  }

  predicate Enabled(s: System, a: Action) {
    match a
    case Start(t, _, _, _) => t !in s.threads
    case LookUp(t) => At(s, t, Started)
    case Acquire(t) =>
      At(s, t, Waiting) && forall u <- s.threads :: Inside(s.threads[u]) ==> s.threads[u].lock != s.threads[t].lock
    case Recheck(t) => At(s, t, Guarded)
    case Prepare(t, _) => At(s, t, Opening)
    case Choose(t) => At(s, t, Prepared)
    case RunEngine(t, ok, _) =>
      && t in s.threads && s.threads[t].stage.Chosen?
      && (ok && s.threads[t].kind.OpenFile? && TakesOwner(s.threads[t].request) ==> OwnerFree(s, t))
    case Insert(t) => At(s, t, Built)
    case Leave(t) => At(s, t, Leaving)
    case CloneHandle(h) => h in s.handles
    case DropHandle(h) => h in s.handles
  }

  /**
   `normalize_path`: the key an open goes on with. A missing directory that is not to be created
   keeps the spelling it was given; a session's path is not normalised at all.
   */
  function NormalKey(node: Node, given: Key, kind: Kind): Key {
    if kind.Session? || (node == Absent && !kind.create) then given else Key(given.dir, 0)
  }

  /** `normalize_path`: what it leaves at the path, or None when the open stops there. */
  function Normalized(node: Node, kind: Kind): Option<Node> {
    if kind.Session? then Some(node)
    else match node
      case RegularFile(zeroLength) => if kind.create && zeroLength then Some(Directory(true)) else None
      case Directory(_) => Some(node)
      case Absent => Some(if kind.create then Directory(true) else Absent)
  }

  /** The directory step after the re-check, or None for an I/O error or `NotFound`. */
  function PreparedNode(node: Node, kind: Kind): Option<Node> {
    match kind
    case OpenFile(create) =>
      if node == Absent then (if create then Some(Directory(true)) else None)
      else if create && node.RegularFile? then None
      else Some(node)
    case Session(privateMemory) =>
      if node.RegularFile? then None
      else if privateMemory && node.Directory? then Some(node)
      else Some(Directory(true))
  }

  /** Create or recover, or None when the directory cannot be listed. */
  function Choice(node: Node, kind: Kind): Option<bool> {
    match kind
    case OpenFile(create) =>
      if !create then Some(false) else if node.Directory? then Some(node.empty) else None
    case Session(_) => Some(true)
  }

  /** What the engine step leaves: a created image fills the directory; a failed session removes it. */
  function AfterEngine(node: Node, kind: Kind, createNew: bool, ok: bool, wrote: bool): Node {
    if kind.Session? && !ok then Absent
    else if node.Directory? && (wrote || (ok && createNew && kind.OpenFile?)) then Directory(false)
    else node
  }

  /**
   What a step does for the open it belongs to: where the open goes (None when it returns), what is
   left of its directory, the entry it is given, and the two maps.
   */
  datatype Effect = Effect(
    opener: Option<Opener>, node: Node, grant: Option<Entry>, entries: map<Key, Entry>, locks: map<Key, LockId>)

  function EffectOf(s: System, a: Action): Effect
    requires Enabled(s, a) && !a.CloneHandle? && !a.DropHandle?
  {
    var o := OpenerOf(s, a);
    var node := NodeAt(s, o.key.dir);
    var quiet := Effect(Some(o), node, None, s.entries, s.openLocks);
    match a
    case Start(t, key, kind, request) =>
      (match Normalized(node, kind)
       case None => quiet.(opener := None)
       case Some(dir) => quiet.(node := dir))
    case LookUp(t) =>
      var (locks, found) :=
        LookUpIn(s.entries, s.handles.Values, s.openLocks, HeldLocks(s), o.key, o.request, s.clock);
      (match found
       case Existing(e) => quiet.(opener := None, grant := Some(e))
       case Rejected(_) => quiet.(opener := None)
       case MayOpen(l) => quiet.(opener := Some(o.(stage := Waiting, lock := l)), locks := locks))
    case Acquire(t) => quiet.(opener := Some(o.(stage := Guarded)))
    case Recheck(t) =>
      (match Upgrade(s.entries, s.handles.Values, o.key)
       case None => quiet.(opener := Some(o.(stage := Opening)))
       case Some(e) =>
         var ok := Validate(e.fingerprint, o.request).Accept?;
         quiet.(opener := Some(o.(stage := Leaving)), grant := if ok then Some(e) else None))
    case Prepare(t, ioOk) =>
      (match PreparedNode(node, o.kind)
       case None => quiet.(opener := Some(o.(stage := Leaving)))
       case Some(dir) =>
         if ioOk then quiet.(opener := Some(o.(stage := Prepared)), node := dir)
         else quiet.(opener := Some(o.(stage := Leaving))))
    case Choose(t) =>
      (match Choice(node, o.kind)
       case None => quiet.(opener := Some(o.(stage := Leaving)))
       case Some(createNew) => quiet.(opener := Some(o.(stage := Chosen(createNew)))))
    case RunEngine(t, ok, wrote) =>
      quiet.(opener := Some(o.(stage := if ok then Built else Leaving)),
             node := AfterEngine(node, o.kind, o.stage.createNew, ok, wrote))
    case Insert(t) =>
      var e := Entry(s.clock, o.key, o.request);
      quiet.(opener := Some(o.(stage := Leaving)), grant := Some(e), entries := s.entries[o.key := e])
    case Leave(t) => quiet.(opener := None)
  }

  /** The open a step belongs to; a new one is about to enter its first critical section. */
  function OpenerOf(s: System, a: Action): Opener
    requires Enabled(s, a) && !a.CloneHandle? && !a.DropHandle?
  {
    if a.Start? then Opener(NormalKey(NodeAt(s, a.key.dir), a.key, a.kind), a.kind, a.request, Started, 0)
    else s.threads[a.t]
  }

  function Apply(s: System, a: Action): System
    requires Enabled(s, a)
  {
    if a.CloneHandle? then s.(handles := s.handles[s.clock := s.handles[a.h]], clock := s.clock + 1)
    else if a.DropHandle? then s.(handles := s.handles - {a.h}, clock := s.clock + 1)
    else
      var o, e := OpenerOf(s, a), EffectOf(s, a);
      System(
        e.entries, e.locks,
        if e.opener.Some? then s.threads[a.t := e.opener.value] else s.threads - {a.t},
        if e.grant.Some? then s.handles[s.clock := e.grant.value] else s.handles,
        s.files[o.key.dir := e.node],
        if e.grant.Some? then s.grants + [Grant(o.key, o.request, e.grant.value)] else s.grants,
        s.clock + 1)
  }

  ghost predicate CanRun(s: System, acts: seq<Action>)
    decreases |acts|
  {
    acts == [] || (Enabled(s, acts[0]) && CanRun(Apply(s, acts[0]), acts[1..]))
  }

  ghost function Run(s: System, acts: seq<Action>): System
    requires CanRun(s, acts)
    decreases |acts|
  {
    if acts == [] then s else Run(Apply(s, acts[0]), acts[1..])
  }

  // ---- The invariant -------------------------------------------------------------------------

  /** Whoever holds a lock object holds the one registered for the key, and keys do not share. */
  ghost predicate LocksOk(s: System) {
    && (forall t <- s.threads :: HoldsLock(s.threads[t]) ==>
          s.threads[t].key in s.openLocks && s.openLocks[s.threads[t].key] == s.threads[t].lock)
    && (forall p <- s.openLocks :: s.openLocks[p] < s.clock)
    && (forall p, q :: p in s.openLocks && q in s.openLocks && s.openLocks[p] == s.openLocks[q] ==> p == q)
  }

  predicate Shares(a: Opener, b: Opener) {
    Inside(a) && Inside(b) && a.lock == b.lock
  }

  /** One thread per lock is past the mutex. */
  ghost predicate ExclusionOk(s: System) {
    forall t, u :: t in s.threads && u in s.threads && Shares(s.threads[t], s.threads[u]) ==> t == u
  }

  /** Every handle holds the entry registered for its key. */
  ghost predicate EntriesOk(s: System) {
    && (forall h <- s.handles :: s.handles[h].key in s.entries && s.entries[s.handles[h].key] == s.handles[h])
    && (forall p <- s.entries :: s.entries[p].key == p)
    && (forall h <- s.handles :: h < s.clock)
  }

  /** A key being opened has no live entry. */
  ghost predicate OpeningOk(s: System) {
    forall t, h :: t in s.threads && h in s.handles && InOpen(s.threads[t]) ==>
      s.handles[h].key != s.threads[t].key
  }

  ghost predicate GrantsOk(s: System) {
    forall g <- s.grants :: g.entry.key == g.key && Validate(g.entry.fingerprint, g.request).Accept?
  }

  /** Whoever creates the directory knows its canonical name. */
  ghost predicate KeysOk(s: System) {
    forall t <- s.threads :: s.threads[t].kind == OpenFile(true) ==> Canonical(s.threads[t].key)
  }

  ghost predicate Inv(s: System) {
    LocksOk(s) && ExclusionOk(s) && EntriesOk(s) && OpeningOk(s) && GrantsOk(s) && KeysOk(s)
  }

  // ---- What a step can change ----------------------------------------------------------------

  predicate OnHandle(a: Action) {
    a.CloneHandle? || a.DropHandle?
  }

  lemma OthersStay(s: System, a: Action, u: ThreadId)
    requires Enabled(s, a) && (OnHandle(a) || u != a.t)
    ensures u in Apply(s, a).threads <==> u in s.threads
    ensures u in s.threads ==> Apply(s, a).threads[u] == s.threads[u]
  {
  }

  /** The open named by the step is where its effect says. */
  lemma ActorMoves(s: System, a: Action)
    requires Enabled(s, a) && !OnHandle(a)
    ensures a.t in Apply(s, a).threads <==> EffectOf(s, a).opener.Some?
    ensures a.t in Apply(s, a).threads ==> Apply(s, a).threads[a.t] == EffectOf(s, a).opener.value
  {
  }

  lemma ActorKeepsItsLock(s: System, a: Action)
    requires Enabled(s, a) && !OnHandle(a) && EffectOf(s, a).opener.Some?
    ensures var o' := EffectOf(s, a).opener.value;
            HoldsLock(o') && !a.LookUp? ==> HoldsLock(OpenerOf(s, a)) && o' == OpenerOf(s, a).(stage := o'.stage)
    ensures HoldsLock(OpenerOf(s, a)) ==> a.t in s.threads && OpenerOf(s, a) == s.threads[a.t]
    ensures Inside(EffectOf(s, a).opener.value) ==> !a.LookUp? && (Inside(OpenerOf(s, a)) || a.Acquire?)
  {
  }

  lemma ActorOpens(s: System, a: Action)
    requires Enabled(s, a) && !OnHandle(a) && EffectOf(s, a).opener.Some? && InOpen(EffectOf(s, a).opener.value)
    ensures a.t in s.threads && OpenerOf(s, a) == s.threads[a.t]
    ensures EffectOf(s, a).opener.value.key == OpenerOf(s, a).key && EffectOf(s, a).grant == None
    ensures var o := OpenerOf(s, a);
            InOpen(o) || (a.Recheck? && Upgrade(s.entries, s.handles.Values, o.key) == None)
  {
    hide Normalized, PreparedNode, AfterEngine, Validate, HeldLocks, Choice, Upgrade, LookUpIn, NodeAt;
  }

  lemma ActorChooses(s: System, a: Action)
    requires Enabled(s, a) && !OnHandle(a) && EffectOf(s, a).opener.Some?
    requires EffectOf(s, a).opener.value.stage == Chosen(true) && EffectOf(s, a).opener.value.kind.OpenFile?
    ensures a.Choose? && EffectOf(s, a).node == NodeAt(s, OpenerOf(s, a).key.dir) == Directory(true)
    ensures EffectOf(s, a).opener.value == OpenerOf(s, a).(stage := Chosen(true))
  {
  }

  lemma ActorLeaves(s: System, a: Action)
    requires Enabled(s, a) && !OnHandle(a)
    ensures NodeAt(Apply(s, a), OpenerOf(s, a).key.dir) == EffectOf(s, a).node
  {
  }

  lemma NewHandles(s: System, a: Action, h: HandleId)
    requires Enabled(s, a) && h in Apply(s, a).handles
    ensures var e := Apply(s, a).handles[h];
            e in s.handles.Values || (a.Insert? && e == Entry(s.clock, s.threads[a.t].key, s.threads[a.t].request))
  {
    hide Normalized, PreparedNode, AfterEngine, Validate, HeldLocks, Choice, NodeAt;
    if !OnHandle(a) {
      assert EffectOf(s, a).grant == None || EffectOf(s, a).grant.value in s.handles.Values || a.Insert?;
    }
  }

  /**
   Without a lock only a missing or plain-file node changes, and it becomes a directory; the other
   changes are made by an open of the directory that owns the mutex of its key.
   */
  lemma ChangedFiles(s: System, a: Action, d: Path)
    requires Enabled(s, a) && NodeAt(Apply(s, a), d) != NodeAt(s, d)
    ensures (a.Start? && !NodeAt(s, d).Directory? && NodeAt(Apply(s, a), d) == Directory(true)) ||
            ((a.Prepare? || a.RunEngine?) && Inside(s.threads[a.t]) && s.threads[a.t].key.dir == d)
  {
    hide PreparedNode, AfterEngine, Choice, Validate, HeldLocks, Upgrade, LookUpIn;
    assert !OnHandle(a) && d == OpenerOf(s, a).key.dir && EffectOf(s, a).node != NodeAt(s, d);
  }

  // ---- Every step keeps the invariant --------------------------------------------------------

  lemma StepKeepsLocks(s: System, a: Action)
    requires LocksOk(s) && Enabled(s, a)
    ensures LocksOk(Apply(s, a))
  {
    if a.LookUp? {
      LookUpKeepsLocks(s, a.t);
    } else {
      OtherStepsKeepLocks(s, a);
    }
  }

  lemma OtherStepsKeepLocks(s: System, a: Action)
    requires LocksOk(s) && Enabled(s, a) && !a.LookUp?
    ensures LocksOk(Apply(s, a))
  {
    hide Enabled, Apply;
    var s' := Apply(s, a);
    LockMapStays(s, a);
    forall t | t in s'.threads && HoldsLock(s'.threads[t])
      ensures s'.threads[t].key in s'.openLocks && s'.openLocks[s'.threads[t].key] == s'.threads[t].lock
    {
      if !OnHandle(a) && t == a.t {
        ActorMoves(s, a);
        ActorKeepsItsLock(s, a);
      } else {
        OthersStay(s, a, t);
      }
    }
  }

  lemma LockMapStays(s: System, a: Action)
    requires Enabled(s, a) && !a.LookUp?
    ensures Apply(s, a).openLocks == s.openLocks && Apply(s, a).clock == s.clock + 1
  {
    hide Normalized, PreparedNode, AfterEngine, Validate, HeldLocks, Choice, Upgrade, LookUpIn, NodeAt;
  }

  lemma LookUpKeepsLocks(s: System, t: ThreadId)
    requires LocksOk(s) && Enabled(s, LookUp(t))
    ensures LocksOk(Apply(s, LookUp(t)))
  {
    var p := s.threads[t].key;
    if Upgrade(s.entries, s.handles.Values, p) == None && !(p in s.openLocks && s.openLocks[p] in HeldLocks(s)) {
      forall u | u in s.threads && HoldsLock(s.threads[u])
        ensures s.threads[u].key != p
      {
        assert s.threads[u].lock in HeldLocks(s);
      }
    }
  }

  lemma StepKeepsExclusion(s: System, a: Action)
    requires ExclusionOk(s) && Enabled(s, a)
    ensures ExclusionOk(Apply(s, a))
  {
    hide Enabled, Apply, ExclusionOk;
    var s' := Apply(s, a);
    forall t, u | t in s'.threads && u in s'.threads && Shares(s'.threads[t], s'.threads[u])
      ensures t == u
    {
      if t != u {
        WereInside(s, a, t, u);
      }
    }
    ExclusionIntro(s');
  }

  lemma ExclusionIntro(s: System)
    requires forall t, u :: t in s.threads && u in s.threads && Shares(s.threads[t], s.threads[u]) ==> t == u
    ensures ExclusionOk(s)
  {
  }

  /** Two threads inside after a step were both inside before it, unless one just took the mutex. */
  lemma WereInside(s: System, a: Action, t: ThreadId, u: ThreadId)
    requires ExclusionOk(s) && Enabled(s, a)
    requires var s' := Apply(s, a);
             t in s'.threads && u in s'.threads && Shares(s'.threads[t], s'.threads[u])
    ensures t == u
  {
    hide Enabled, Apply;
    if t != u {
      var v, w := if !OnHandle(a) && t == a.t then t else u, if !OnHandle(a) && t == a.t then u else t;
      OthersStay(s, a, w);
      if !OnHandle(a) && v == a.t {
        ActorMoves(s, a);
        ActorKeepsItsLock(s, a);
        if a.Acquire? {
          MutexWasFree(s, v, w);
        }
      } else {
        OthersStay(s, a, v);
      }
    }
  }

  lemma MutexWasFree(s: System, t: ThreadId, u: ThreadId)
    requires Enabled(s, Acquire(t)) && u in s.threads && Inside(s.threads[u])
    ensures s.threads[u].lock != s.threads[t].lock
  {
  }

  /** Two threads inside on one key hold the same lock, hence are the same thread. */
  lemma OneInsidePerKey(s: System, t: ThreadId, u: ThreadId)
    requires LocksOk(s) && ExclusionOk(s)
    requires t in s.threads && u in s.threads && Inside(s.threads[t]) && Inside(s.threads[u])
    requires s.threads[t].key == s.threads[u].key
    ensures t == u
  {
  }

  lemma StepKeepsEntries(s: System, a: Action)
    requires EntriesOk(s) && OpeningOk(s) && Enabled(s, a)
    ensures EntriesOk(Apply(s, a))
  {
    if a.Insert? {
      assert forall h <- s.handles :: s.handles[h].key != s.threads[a.t].key;
    } else {
      hide Enabled, Apply;
      EntryMapStays(s, a);
      var s' := Apply(s, a);
      forall h | h in s'.handles
        ensures s'.handles[h].key in s'.entries && s'.entries[s'.handles[h].key] == s'.handles[h]
      {
        NewHandles(s, a, h);
      }
    }
  }

  lemma EntryMapStays(s: System, a: Action)
    requires Enabled(s, a) && !a.Insert? && forall h <- s.handles :: h < s.clock
    ensures Apply(s, a).entries == s.entries
    ensures forall h <- Apply(s, a).handles :: h < Apply(s, a).clock
  {
    hide Normalized, PreparedNode, AfterEngine, Validate, HeldLocks, Choice, Upgrade, LookUpIn, NodeAt;
  }

  lemma StepKeepsOpening(s: System, a: Action)
    requires LocksOk(s) && ExclusionOk(s) && EntriesOk(s) && OpeningOk(s) && Enabled(s, a)
    ensures OpeningOk(Apply(s, a))
  {
    hide Enabled, Apply, LocksOk, ExclusionOk, EntriesOk, OpeningOk;
    var s' := Apply(s, a);
    forall t, h | t in s'.threads && h in s'.handles && InOpen(s'.threads[t])
      ensures s'.handles[h].key != s'.threads[t].key
    {
      OpeningStays(s, a, t, h);
    }
    OpeningIntro(s');
  }

  lemma OpeningIntro(s: System)
    requires forall t, h :: t in s.threads && h in s.handles && InOpen(s.threads[t]) ==>
               s.handles[h].key != s.threads[t].key
    ensures OpeningOk(s)
  {
  }

  lemma OpeningStays(s: System, a: Action, t: ThreadId, h: HandleId)
    requires LocksOk(s) && ExclusionOk(s) && EntriesOk(s) && OpeningOk(s) && Enabled(s, a)
    requires t in Apply(s, a).threads && h in Apply(s, a).handles && InOpen(Apply(s, a).threads[t])
    ensures Apply(s, a).handles[h].key != Apply(s, a).threads[t].key
  {
    hide Enabled, Apply, LocksOk, ExclusionOk;
    NewHandles(s, a, h);
    if !OnHandle(a) && t == a.t {
      ActorMoves(s, a);
      ActorOpens(s, a);
    } else {
      OthersStay(s, a, t);
      if a.Insert? {
        InsertIsInside(s, a);
        if s.threads[t].key == s.threads[a.t].key {
          OneInsidePerKey(s, t, a.t);
        }
      }
    }
  }

  lemma InsertIsInside(s: System, a: Action)
    requires Enabled(s, a) && (a.Insert? || a.Prepare? || a.RunEngine?)
    ensures a.t in s.threads && Inside(s.threads[a.t]) && (a.Insert? ==> s.threads[a.t].stage == Built)
  {
  }

  lemma StepKeepsGrants(s: System, a: Action)
    requires EntriesOk(s) && GrantsOk(s) && Enabled(s, a)
    ensures GrantsOk(Apply(s, a))
  {
  }

  lemma StepKeepsKeys(s: System, a: Action)
    requires KeysOk(s) && Enabled(s, a)
    ensures KeysOk(Apply(s, a))
  {
    hide Enabled, Apply;
    var s' := Apply(s, a);
    forall t | t in s'.threads && s'.threads[t].kind == OpenFile(true)
      ensures Canonical(s'.threads[t].key)
    {
      if !OnHandle(a) && t == a.t {
        ActorMoves(s, a);
        ActorKeepsItsRequest(s, a);
      } else {
        OthersStay(s, a, t);
      }
    }
  }

  lemma StepKeepsInv(s: System, a: Action)
    requires Inv(s) && Enabled(s, a)
    ensures Inv(Apply(s, a))
  {
    hide Enabled, Apply, LocksOk, ExclusionOk, EntriesOk, OpeningOk, GrantsOk, KeysOk;
    StepKeepsLocks(s, a);
    StepKeepsExclusion(s, a);
    StepKeepsEntries(s, a);
    StepKeepsOpening(s, a);
    StepKeepsGrants(s, a);
    StepKeepsKeys(s, a);
  }

  // ---- Every run -----------------------------------------------------------------------------

  lemma InitOk(files: map<Path, Node>)
    ensures Inv(Init(files))
  {
  }

  lemma {:induction false} RunKeepsInv(s: System, acts: seq<Action>)
    requires Inv(s) && CanRun(s, acts)
    ensures Inv(Run(s, acts))
    decreases |acts|
  {
    hide Inv, Enabled, Apply;
    if acts != [] {
      StepKeepsInv(s, acts[0]);
      RunKeepsInv(Apply(s, acts[0]), acts[1..]);
    }
  }

  /** Openers of one key share one lock object, openers of different keys share none. */
  lemma LocksFollowKeys(files: map<Path, Node>, acts: seq<Action>, t: ThreadId, u: ThreadId)
    requires CanRun(Init(files), acts)
    requires var s := Run(Init(files), acts);
             t in s.threads && u in s.threads && HoldsLock(s.threads[t]) && HoldsLock(s.threads[u])
    ensures var s := Run(Init(files), acts);
            s.threads[t].key == s.threads[u].key <==> s.threads[t].lock == s.threads[u].lock
  {
    hide CanRun, Run, Init;
    InitOk(files);
    RunKeepsInv(Init(files), acts);
  }

  /** At most one open per key is between taking the mutex and releasing it. */
  lemma OpensAreExclusive(files: map<Path, Node>, acts: seq<Action>, t: ThreadId, u: ThreadId)
    requires CanRun(Init(files), acts)
    requires var s := Run(Init(files), acts);
             && t in s.threads && u in s.threads && Inside(s.threads[t]) && Inside(s.threads[u])
             && s.threads[t].key == s.threads[u].key
    ensures t == u
  {
    hide CanRun, Run, Init, LocksOk, ExclusionOk;
    InitOk(files);
    RunKeepsInv(Init(files), acts);
    OneInsidePerKey(Run(Init(files), acts), t, u);
  }

  /** Live handles under one key hold the same entry. */
  lemma OneLiveEntryPerKey(files: map<Path, Node>, acts: seq<Action>, g: HandleId, h: HandleId)
    requires CanRun(Init(files), acts)
    requires var s := Run(Init(files), acts);
             g in s.handles && h in s.handles && s.handles[g].key == s.handles[h].key
    ensures var s := Run(Init(files), acts); s.handles[g] == s.handles[h]
  {
    hide CanRun, Run, Init;
    InitOk(files);
    RunKeepsInv(Init(files), acts);
  }

  /** An open under the key of a live handle looks it up, or finds it when it has the mutex. */
  predicate Meets(s: System, a: Action, h: HandleId) {
    && ((a.LookUp? && At(s, a.t, Started)) || (a.Recheck? && At(s, a.t, Guarded)))
    && h in s.handles && s.handles[h].key == s.threads[a.t].key
  }

  /** What a live handle makes of an open that meets it: its entry exactly when that serves, else nothing. */
  lemma LiveEntryAnswers(s: System, a: Action, h: HandleId)
    requires EntriesOk(s) && Meets(s, a, h) && Enabled(s, a)
    ensures var s', e, o := Apply(s, a), s.handles[h], s.threads[a.t];
            && (if Serves(e.fingerprint, o.request) then
                  s'.grants == s.grants + [Grant(o.key, o.request, e)] && s'.handles == s.handles[s.clock := e]
                else s'.grants == s.grants && s'.handles == s.handles)
            && (if a.LookUp? then a.t !in s'.threads else At(s', a.t, Leaving))
            && s'.entries == s.entries && s'.openLocks == s.openLocks
  {
    var e := s.handles[h];
    assert e in s.handles.Values && s.entries[e.key] == e;
  }

  /** In every run, a second open of a live database gets the live entry exactly when its options allow it. */
  lemma LiveEntryIsShared(files: map<Path, Node>, acts: seq<Action>, a: Action, h: HandleId)
    requires CanRun(Init(files), acts) && Meets(Run(Init(files), acts), a, h) && Enabled(Run(Init(files), acts), a)
    ensures var s := Run(Init(files), acts);
            var s', e, o := Apply(s, a), s.handles[h], s.threads[a.t];
            && (if e.fingerprint == o.request || e.fingerprint == o.request.(readOnly := false) then
                  s'.grants == s.grants + [Grant(o.key, o.request, e)] && s'.handles == s.handles[s.clock := e]
                else s'.grants == s.grants && s'.handles == s.handles)
            && (if a.LookUp? then a.t !in s'.threads else At(s', a.t, Leaving))
  {
    hide CanRun, Run, Init, Meets, Apply, Enabled, LocksOk, ExclusionOk, EntriesOk, OpeningOk, GrantsOk, KeysOk;
    InitOk(files);
    RunKeepsInv(Init(files), acts);
    LiveEntryAnswers(Run(Init(files), acts), a, h);
  }

  /** In every run, an open with nothing live under its key goes on to open it. */
  lemma DeadEntryIsReopened(files: map<Path, Node>, acts: seq<Action>, a: Action)
    requires CanRun(Init(files), acts) && Enabled(Run(Init(files), acts), a) && (a.LookUp? || a.Recheck?)
    requires var s := Run(Init(files), acts); forall h <- s.handles :: s.handles[h].key != s.threads[a.t].key
    ensures var s := Run(Init(files), acts);
            At(Apply(s, a), a.t, if a.LookUp? then Waiting else Opening) && Apply(s, a).grants == s.grants
  {
    hide CanRun, Run, Init, LocksOk, ExclusionOk, OpeningOk, GrantsOk, KeysOk;
    InitOk(files);
    RunKeepsInv(Init(files), acts);
    var s := Run(Init(files), acts);
    assert forall e <- s.handles.Values :: e.key != s.threads[a.t].key;
  }

  /** Every entry an open ever returned is for its key and serves its options. */
  lemma GrantsServeTheRequest(files: map<Path, Node>, acts: seq<Action>, g: Grant)
    requires CanRun(Init(files), acts) && g in Run(Init(files), acts).grants
    ensures g.entry.key == g.key && CompatibleWith(g.entry.fingerprint, g.request)
    ensures g.entry.fingerprint.readOnly ==> g.request.readOnly
  {
    hide CanRun, Run, Init;
    InitOk(files);
    RunKeepsInv(Init(files), acts);
  }

  // ---- Recovery is never skipped -------------------------------------------------------------

  /** No session open touches the directory, now or in the steps to come. */
  ghost predicate FileBacked(s: System, acts: seq<Action>, d: Path) {
    && (forall t <- s.threads :: s.threads[t].key.dir == d ==> s.threads[t].kind.OpenFile?)
    && (forall a <- acts :: a.Start? && a.key.dir == d ==> a.kind.OpenFile?)
  }

  lemma FileBackedStays(s: System, acts: seq<Action>, d: Path)
    requires acts != [] && Enabled(s, acts[0]) && FileBacked(s, acts, d)
    ensures FileBacked(Apply(s, acts[0]), acts[1..], d)
  {
    hide Enabled, Apply;
    var a := acts[0];
    var s' := Apply(s, a);
    forall t | t in s'.threads && s'.threads[t].key.dir == d
      ensures s'.threads[t].kind.OpenFile?
    {
      if !OnHandle(a) && t == a.t {
        ActorMoves(s, a);
        ActorKeepsItsRequest(s, a);
      } else {
        OthersStay(s, a, t);
      }
    }
  }

  lemma ActorKeepsItsRequest(s: System, a: Action)
    requires Enabled(s, a) && !OnHandle(a) && EffectOf(s, a).opener.Some?
    ensures var o' := EffectOf(s, a).opener.value;
            if a.Start? then o' == OpenerOf(s, a) && o'.key.dir == a.key.dir && o'.kind == a.kind
            else a.t in s.threads && o'.key == s.threads[a.t].key && o'.kind == s.threads[a.t].kind
  {
  }

  lemma StepKeepsImage(s: System, a: Action, d: Path)
    requires Enabled(s, a) && FileBacked(s, [a], d) && NodeAt(s, d) == Directory(false)
    ensures NodeAt(Apply(s, a), d) == Directory(false)
  {
    if NodeAt(Apply(s, a), d) != NodeAt(s, d) {
      ChangedFiles(s, a, d);
    }
  }

  /** Once a file-backed directory holds anything it always will, and every later choice is recovery. */
  lemma {:induction false} ImagesAreRecovered(s: System, acts: seq<Action>, d: Path)
    requires CanRun(s, acts) && FileBacked(s, acts, d) && NodeAt(s, d) == Directory(false)
    ensures NodeAt(Run(s, acts), d) == Directory(false)
    ensures forall t :: Enabled(Run(s, acts), Choose(t)) && Run(s, acts).threads[t].key.dir == d ==>
              Apply(Run(s, acts), Choose(t)).threads[t].stage == Chosen(false)
    decreases |acts|
  {
    if acts == [] {
      forall t | Enabled(s, Choose(t)) && s.threads[t].key.dir == d
        ensures Apply(s, Choose(t)).threads[t].stage == Chosen(false)
      {
        RecoveryIsChosen(s, t);
      }
    } else {
      hide Enabled, Apply;
      assert FileBacked(s, [acts[0]], d);
      StepKeepsImage(s, acts[0], d);
      FileBackedStays(s, acts, d);
      ImagesAreRecovered(Apply(s, acts[0]), acts[1..], d);
    }
  }

  lemma RecoveryIsChosen(s: System, t: ThreadId)
    requires Enabled(s, Choose(t)) && s.threads[t].kind.OpenFile? && NodeAt(s, s.threads[t].key.dir) == Directory(false)
    ensures Apply(s, Choose(t)).threads[t].stage == Chosen(false)
  {
  }

  // ---- Sessions ------------------------------------------------------------------------------

  /**
   A named session starts in an empty directory of its own; a private one keeps a directory it finds.
   Either is always created, and nothing is left of one whose engine fails.
   */
  lemma SessionsStartAfresh(s: System, a: Action)
    requires Enabled(s, a) && (a.Prepare? || a.Choose? || a.RunEngine?) && s.threads[a.t].kind.Session?
    ensures var s', d, node := Apply(s, a), s.threads[a.t].key.dir, NodeAt(s, s.threads[a.t].key.dir);
            && (a.Prepare? && a.ioOk && !node.RegularFile? ==>
                  && At(s', a.t, Prepared)
                  && NodeAt(s', d) == if s.threads[a.t].kind.privateMemory && node.Directory? then node else Directory(true))
            && (a.Prepare? && (!a.ioOk || node.RegularFile?) ==> At(s', a.t, Leaving) && NodeAt(s', d) == node)
            && (a.Choose? ==> At(s', a.t, Chosen(true)) && NodeAt(s', d) == node)
            && (a.RunEngine? && !a.ok ==> At(s', a.t, Leaving) && NodeAt(s', d) == Absent)
  {
  }

  /** A database that is created fills its directory; one that is recovered never empties it. */
  lemma EngineFillsDirectory(s: System, a: Action)
    requires Enabled(s, a) && a.RunEngine? && s.threads[a.t].kind.OpenFile?
    ensures var s', o, node := Apply(s, a), s.threads[a.t], NodeAt(s, s.threads[a.t].key.dir);
            && At(s', a.t, if a.ok then Built else Leaving)
            && NodeAt(s', o.key.dir) == if !node.Directory? then node
                                        else Directory(node.empty && !a.wrote && !(a.ok && o.stage == Chosen(true)))
  {
  }

  /**
   With `create` on, an open makes a missing directory, stops at a plain file, and creates a database
   exactly in an empty directory. With it off, only a missing directory stops it, and it never creates.
   */
  lemma OpensCreateExactly(s: System, a: Action)
    requires Enabled(s, a) && (a.Prepare? || a.Choose?) && s.threads[a.t].kind.OpenFile?
    ensures var s', d, create := Apply(s, a), s.threads[a.t].key.dir, s.threads[a.t].kind.create;
            var node := NodeAt(s, d);
            && (a.Prepare? ==>
                  var passes := a.ioOk && (node.Directory? || (create <==> node == Absent));
                  && At(s', a.t, if passes then Prepared else Leaving)
                  && NodeAt(s', d) == if passes && node == Absent then Directory(true) else node)
            && (a.Choose? ==>
                  && (At(s', a.t, Chosen(true)) <==> create && node == Directory(true))
                  && (At(s', a.t, Chosen(false)) <==> !create || node == Directory(false))
                  && NodeAt(s', d) == node)
  {
  }

  /** What an open of a file path does before it looks anything up, and when it stops there. */
  lemma StartsExactly(s: System, a: Action)
    requires Enabled(s, a) && a.Start? && a.kind.OpenFile?
    ensures var s', d, create := Apply(s, a), a.key.dir, a.kind.create;
            var node := NodeAt(s, d);
            && (At(s', a.t, Started) <==> !node.RegularFile? || (create && node.zeroLength))
            && NodeAt(s', d) == (if create && (node == Absent || node == RegularFile(true)) then Directory(true) else node)
            && (At(s', a.t, Started) ==> s'.threads[a.t].key == if node == Absent && !create then a.key else Key(d, 0))
  {
  }

  // ---- One directory, many spellings ---------------------------------------------------------

  /** Between the directory step and the insertion of the new entry. */
  predicate Past(o: Opener) {
    o.stage == Prepared || o.stage.Chosen? || o.stage == Built
  }

  /** An open that kept a spelling of its own finds the directory in place after all. */
  predicate StrayPasses(s: System, a: Action, d: Path)
    requires Enabled(s, a)
  {
    && a.Prepare? && s.threads[a.t].key.dir == d && !Canonical(s.threads[a.t].key)
    && NodeAt(s, d) != Absent
  }

  ghost predicate NoStrayPasses(s: System, acts: seq<Action>, d: Path)
    requires CanRun(s, acts)
    decreases |acts|
  {
    acts == [] || (!StrayPasses(s, acts[0], d) && NoStrayPasses(Apply(s, acts[0]), acts[1..], d))
  }

  /** What is open or being opened in the directory goes by its canonical key. */
  ghost predicate Sorted(s: System, d: Path) {
    && (forall t <- s.threads :: s.threads[t].key.dir == d && Past(s.threads[t]) ==> Canonical(s.threads[t].key))
    && (forall h <- s.handles :: s.handles[h].key.dir == d ==> Canonical(s.handles[h].key))
  }

  /** Create is still the right choice when the engine runs. */
  ghost predicate EmptyWhenCreated(s: System, d: Path) {
    forall t <- s.threads :: s.threads[t].key.dir == d && s.threads[t].stage == Chosen(true) ==>
      NodeAt(s, d) == Directory(true)
  }

  lemma ActorPasses(s: System, a: Action, d: Path)
    requires Enabled(s, a) && !OnHandle(a) && EffectOf(s, a).opener.Some? && Past(EffectOf(s, a).opener.value)
    requires FileBacked(s, [a], d) && KeysOk(s) && !StrayPasses(s, a, d) && OpenerOf(s, a).key.dir == d
    ensures Past(OpenerOf(s, a)) || (a.Prepare? && Canonical(OpenerOf(s, a).key))
    ensures a.t in s.threads && OpenerOf(s, a) == s.threads[a.t]
  {
  }

  lemma StepKeepsSorted(s: System, a: Action, d: Path)
    requires Enabled(s, a) && FileBacked(s, [a], d) && KeysOk(s) && !StrayPasses(s, a, d) && Sorted(s, d)
    ensures Sorted(Apply(s, a), d)
  {
    hide Enabled, Apply, FileBacked, StrayPasses, KeysOk;
    var s' := Apply(s, a);
    forall t | t in s'.threads && s'.threads[t].key.dir == d && Past(s'.threads[t])
      ensures Canonical(s'.threads[t].key)
    {
      if !OnHandle(a) && t == a.t {
        ActorMoves(s, a);
        ActorKeepsItsRequest(s, a);
        PassedCanonically(s, a, d);
      } else {
        OthersStay(s, a, t);
      }
    }
    forall h | h in s'.handles && s'.handles[h].key.dir == d
      ensures Canonical(s'.handles[h].key)
    {
      NewHandles(s, a, h);
      if a.Insert? {
        InsertIsInside(s, a);
      }
    }
  }

  lemma PassedCanonically(s: System, a: Action, d: Path)
    requires Enabled(s, a) && FileBacked(s, [a], d) && !StrayPasses(s, a, d) && Sorted(s, d) && KeysOk(s) && !OnHandle(a)
    requires EffectOf(s, a).opener.Some? && Past(EffectOf(s, a).opener.value)
    requires EffectOf(s, a).opener.value.key.dir == d
    ensures Canonical(EffectOf(s, a).opener.value.key)
  {
    hide Enabled, FileBacked, StrayPasses, EffectOf, KeysOk;
    ActorKeepsItsRequest(s, a);
    ActorPasses(s, a, d);
  }

  lemma StepKeepsEmpty(s: System, a: Action, d: Path)
    requires LocksOk(s) && ExclusionOk(s) && Enabled(s, a) && FileBacked(s, [a], d)
    requires Sorted(s, d) && EmptyWhenCreated(s, d)
    ensures EmptyWhenCreated(Apply(s, a), d)
  {
    hide Enabled, Apply, LocksOk, ExclusionOk, FileBacked;
    var s' := Apply(s, a);
    forall t | t in s'.threads && s'.threads[t].key.dir == d && s'.threads[t].stage == Chosen(true)
      ensures NodeAt(s', d) == Directory(true)
    {
      if !OnHandle(a) && t == a.t {
        ActorMoves(s, a);
        ActorKeepsItsRequest(s, a);
        BackedActor(s, a, d);
        ActorChooses(s, a);
        ActorLeaves(s, a);
      } else {
        OthersStay(s, a, t);
        if NodeAt(s', d) != NodeAt(s, d) {
          ChangedFiles(s, a, d);
          InsertIsInside(s, a);
          ChangerIsPast(s, a, d);
          OneInsidePerKey(s, t, a.t);
        }
      }
    }
  }

  lemma BackedActor(s: System, a: Action, d: Path)
    requires Enabled(s, a) && !OnHandle(a) && FileBacked(s, [a], d) && OpenerOf(s, a).key.dir == d
    ensures OpenerOf(s, a).kind.OpenFile?
  {
  }

  /** Of a directory in place only the engine changes anything. */
  lemma ChangerIsPast(s: System, a: Action, d: Path)
    requires Enabled(s, a) && FileBacked(s, [a], d) && (a.Prepare? || a.RunEngine?) && s.threads[a.t].key.dir == d
    requires NodeAt(s, d).Directory? && NodeAt(Apply(s, a), d) != NodeAt(s, d)
    ensures a.RunEngine? && Past(s.threads[a.t])
  {
  }

  ghost predicate Ordered(s: System, d: Path) {
    Inv(s) && Sorted(s, d) && EmptyWhenCreated(s, d)
  }

  lemma {:induction false} RunKeepsOrdered(s: System, acts: seq<Action>, d: Path)
    requires Ordered(s, d) && CanRun(s, acts) && FileBacked(s, acts, d) && NoStrayPasses(s, acts, d)
    ensures Ordered(Run(s, acts), d)
    decreases |acts|
  {
    hide Inv, Enabled, Apply, Sorted, EmptyWhenCreated, StrayPasses, FileBacked;
    if acts != [] {
      BackedStep(s, acts, d);
      InvHasKeysOk(s);
      StepKeepsInv(s, acts[0]);
      StepKeepsSorted(s, acts[0], d);
      StepOfInvKeepsEmpty(s, acts[0], d);
      FileBackedStays(s, acts, d);
      RunKeepsOrdered(Apply(s, acts[0]), acts[1..], d);
    }
  }

  lemma InvHasKeysOk(s: System)
    requires Inv(s)
    ensures KeysOk(s)
  {
  }

  lemma BackedStep(s: System, acts: seq<Action>, d: Path)
    requires acts != [] && FileBacked(s, acts, d)
    ensures FileBacked(s, [acts[0]], d)
  {
  }

  lemma StepOfInvKeepsEmpty(s: System, a: Action, d: Path)
    requires Ordered(s, d) && Enabled(s, a) && FileBacked(s, [a], d)
    ensures EmptyWhenCreated(Apply(s, a), d)
  {
    hide Enabled, Apply, LocksOk, ExclusionOk, EntriesOk, OpeningOk, GrantsOk, Sorted, EmptyWhenCreated, FileBacked;
    StepKeepsEmpty(s, a, d);
  }

  /** A run that lets no stray open pass into the directory, which no session uses. */
  ghost predicate Straight(files: map<Path, Node>, acts: seq<Action>, d: Path) {
    CanRun(Init(files), acts) && FileBacked(Init(files), acts, d) && NoStrayPasses(Init(files), acts, d)
  }

  lemma StraightIsOrdered(files: map<Path, Node>, acts: seq<Action>, d: Path)
    requires Straight(files, acts, d)
    ensures Ordered(Run(Init(files), acts), d)
  {
    hide Inv, CanRun, Run, FileBacked, NoStrayPasses;
    InitOk(files);
    RunKeepsOrdered(Init(files), acts, d);
  }

  /** One open per directory, whatever it was called: at most one is past its directory step. */
  lemma OneOpenPerDirectory(files: map<Path, Node>, acts: seq<Action>, d: Path, t: ThreadId, u: ThreadId)
    requires Straight(files, acts, d)
    requires var s := Run(Init(files), acts);
             && t in s.threads && Past(s.threads[t]) && s.threads[t].key.dir == d
             && u in s.threads && Past(s.threads[u]) && s.threads[u].key.dir == d
    ensures t == u
  {
    hide CanRun, Run, Init, LocksOk, ExclusionOk, EntriesOk, OpeningOk, GrantsOk, Straight;
    StraightIsOrdered(files, acts, d);
    assert CanRun(Init(files), acts) by { StraightRuns(files, acts, d); }
    OneInsidePerKey(Run(Init(files), acts), t, u);
  }

  lemma StraightRuns(files: map<Path, Node>, acts: seq<Action>, d: Path)
    requires Straight(files, acts, d)
    ensures CanRun(Init(files), acts)
  {
  }

  ghost predicate OneLive(s: System, d: Path) {
    forall g, h :: g in s.handles && h in s.handles && s.handles[g].key.dir == d && s.handles[h].key.dir == d ==>
      s.handles[g] == s.handles[h]
  }

  /** One database instance per directory: live handles on a directory hold the same entry. */
  lemma OneLiveEntryPerDirectory(files: map<Path, Node>, acts: seq<Action>, d: Path)
    requires Straight(files, acts, d)
    ensures CanRun(Init(files), acts) && OneLive(Run(Init(files), acts), d)
  {
    hide CanRun, Run, Init, Straight;
    StraightRuns(files, acts, d);
    StraightIsOrdered(files, acts, d);
    OrderedIsOneLive(Run(Init(files), acts), d);
  }

  lemma OrderedIsOneLive(s: System, d: Path)
    requires Ordered(s, d)
    ensures OneLive(s, d)
  {
  }

  /** The engine creates a database only in a directory that is empty at that moment. */
  lemma CreateRunsOnEmptyDirectory(files: map<Path, Node>, acts: seq<Action>, d: Path, t: ThreadId)
    requires Straight(files, acts, d)
    requires var s := Run(Init(files), acts);
             t in s.threads && s.threads[t].key.dir == d && s.threads[t].stage == Chosen(true)
    ensures NodeAt(Run(Init(files), acts), d) == Directory(true)
  {
    hide CanRun, Run, Init, LocksOk, ExclusionOk, EntriesOk, OpeningOk, GrantsOk, Straight;
    StraightIsOrdered(files, acts, d);
  }

  // ---- The owner lock ------------------------------------------------------------------------

  predicate OwnsBuilt(s: System, t: ThreadId, d: Path) {
    t in s.threads && s.threads[t].key.dir == d && s.threads[t].stage == Built && TakesOwner(s.threads[t].request)
  }

  predicate OwnsLive(s: System, h: HandleId, d: Path) {
    h in s.handles && s.handles[h].key.dir == d && TakesOwner(s.handles[h].fingerprint)
  }

  ghost predicate OwnersOk(s: System, d: Path) {
    && (forall g, h :: OwnsLive(s, g, d) && OwnsLive(s, h, d) ==> s.handles[g] == s.handles[h])
    && (forall t, h :: OwnsBuilt(s, t, d) ==> !OwnsLive(s, h, d))
    && (forall t, u :: OwnsBuilt(s, t, d) && OwnsBuilt(s, u, d) ==> t == u)
  }

  lemma ActorBuilds(s: System, a: Action, d: Path)
    requires Enabled(s, a) && !OnHandle(a) && FileBacked(s, [a], d) && OwnsBuilt(Apply(s, a), a.t, d)
    ensures a.RunEngine? && a.t in s.threads && s.threads[a.t].key.dir == d && OwnerFree(s, a.t)
  {
  }

  lemma OwnerFreeMeans(s: System, t: ThreadId, d: Path)
    requires t in s.threads && s.threads[t].key.dir == d && OwnerFree(s, t)
    ensures forall h :: !OwnsLive(s, h, d)
    ensures forall u :: OwnsBuilt(s, u, d) ==> u == t
  {
  }

  /** Who is built and owning after a step was so before, or has just found the owner lock free. */
  lemma BuiltBefore(s: System, a: Action, d: Path, t: ThreadId)
    requires Enabled(s, a) && FileBacked(s, [a], d) && OwnsBuilt(Apply(s, a), t, d)
    ensures if !OnHandle(a) && t == a.t then
              a.RunEngine? && (forall h :: !OwnsLive(s, h, d)) && (forall u :: OwnsBuilt(s, u, d) ==> u == t)
            else OwnsBuilt(s, t, d)
  {
    hide Enabled, Apply, FileBacked, OwnerFree;
    if !OnHandle(a) && t == a.t {
      ActorBuilds(s, a, d);
      OwnerFreeMeans(s, t, d);
    } else {
      OthersStay(s, a, t);
    }
  }

  /** What is live and owning after a step was so before, or was built. */
  lemma LiveBefore(s: System, a: Action, d: Path, h: HandleId)
    requires Enabled(s, a) && OwnsLive(Apply(s, a), h, d)
    ensures if a.Insert? && Apply(s, a).handles[h] !in s.handles.Values then
              && OwnsBuilt(s, a.t, d) && a.t in s.threads
              && Apply(s, a).handles[h] == Entry(s.clock, s.threads[a.t].key, s.threads[a.t].request)
            else exists g :: OwnsLive(s, g, d) && s.handles[g] == Apply(s, a).handles[h]
  {
    hide Enabled, Apply;
    NewHandles(s, a, h);
    if a.Insert? && Apply(s, a).handles[h] !in s.handles.Values {
      InsertIsInside(s, a);
    } else {
      var g :| g in s.handles && s.handles[g] == Apply(s, a).handles[h];
      assert OwnsLive(s, g, d);
    }
  }

  lemma StepKeepsOwners(s: System, a: Action, d: Path)
    requires Enabled(s, a) && FileBacked(s, [a], d) && OwnersOk(s, d)
    ensures OwnersOk(Apply(s, a), d)
  {
    hide Enabled, Apply, FileBacked, OwnsLive, OwnsBuilt;
    var s' := Apply(s, a);
    forall g, h | OwnsLive(s', g, d) && OwnsLive(s', h, d)
      ensures g in s'.handles && h in s'.handles && s'.handles[g] == s'.handles[h]
    {
      LiveBefore(s, a, d, g);
      LiveBefore(s, a, d, h);
      LiveIsThere(s', g, d);
      LiveIsThere(s', h, d);
    }
    forall t, h | OwnsBuilt(s', t, d)
      ensures !OwnsLive(s', h, d)
    {
      BuiltBefore(s, a, d, t);
      if OwnsLive(s', h, d) {
        LiveBefore(s, a, d, h);
      }
    }
    forall t, u | OwnsBuilt(s', t, d) && OwnsBuilt(s', u, d)
      ensures t == u
    {
      BuiltBefore(s, a, d, t);
      BuiltBefore(s, a, d, u);
    }
  }

  lemma LiveIsThere(s: System, h: HandleId, d: Path)
    requires OwnsLive(s, h, d)
    ensures h in s.handles
  {
  }

  lemma {:induction false} RunKeepsOwners(s: System, acts: seq<Action>, d: Path)
    requires CanRun(s, acts) && FileBacked(s, acts, d) && OwnersOk(s, d)
    ensures OwnersOk(Run(s, acts), d)
    decreases |acts|
  {
    hide Enabled, Apply, OwnersOk, FileBacked;
    if acts != [] {
      BackedStep(s, acts, d);
      StepKeepsOwners(s, acts[0], d);
      FileBackedStays(s, acts, d);
      RunKeepsOwners(Apply(s, acts[0]), acts[1..], d);
    }
  }

  /** With its owner lock taken a directory has one instance under all its spellings, in every run. */
  lemma OneOwnerPerDirectory(files: map<Path, Node>, acts: seq<Action>, d: Path, g: HandleId, h: HandleId)
    requires CanRun(Init(files), acts) && FileBacked(Init(files), acts, d)
    requires OwnsLive(Run(Init(files), acts), g, d) && OwnsLive(Run(Init(files), acts), h, d)
    ensures Run(Init(files), acts).handles[g] == Run(Init(files), acts).handles[h]
  {
    hide CanRun, Run, FileBacked;
    RunKeepsOwners(Init(files), acts, d);
  }

  // ---- The open that goes astray -------------------------------------------------------------

  /** Nobody else works under the key, and nothing is open under it. */
  ghost predicate Alone(s: System, t: ThreadId, k: Key) {
    && (forall u <- s.threads :: u != t ==> s.threads[u].key != k)
    && (forall h <- s.handles :: s.handles[h].key != k)
  }

  ghost predicate AloneAt(s: System, t: ThreadId, k: Key, stage: Stage) {
    && Inv(s) && At(s, t, stage) && s.threads[t].key == k && s.threads[t].kind.OpenFile? && Alone(s, t, k)
    && NodeAt(s, k.dir).Directory? && OwnerFree(s, t)
  }

  /** What one stretch of an undisturbed open leaves as it was. */
  ghost predicate Undisturbed(s: System, s': System, t: ThreadId) {
    && s'.handles == s.handles && t in s.threads && t in s'.threads && s'.threads[t].request == s.threads[t].request
    && (forall u :: u != t ==> (u in s'.threads <==> u in s.threads))
    && (forall u <- s.threads :: u != t ==> s'.threads[u] == s.threads[u])
  }

  lemma NothingToUpgrade(s: System, t: ThreadId, k: Key)
    requires EntriesOk(s) && Alone(s, t, k)
    ensures Upgrade(s.entries, s.handles.Values, k) == None
  {
    assert forall e <- s.handles.Values :: e.key != k;
  }

  lemma AloneLooksUp(s: System, t: ThreadId, k: Key)
    requires AloneAt(s, t, k, Started)
    ensures Enabled(s, LookUp(t)) && AloneAt(Apply(s, LookUp(t)), t, k, Waiting)
    ensures Undisturbed(s, Apply(s, LookUp(t)), t)
  {
    hide LocksOk, ExclusionOk, OpeningOk, GrantsOk;
    StepKeepsInv(s, LookUp(t));
    NothingToUpgrade(s, t, k);
  }

  lemma AloneAcquires(s: System, t: ThreadId, k: Key)
    requires AloneAt(s, t, k, Waiting)
    ensures Enabled(s, Acquire(t)) && AloneAt(Apply(s, Acquire(t)), t, k, Guarded)
    ensures Undisturbed(s, Apply(s, Acquire(t)), t)
  {
    hide ExclusionOk, OpeningOk, GrantsOk, EntriesOk;
    forall u | u in s.threads && Inside(s.threads[u])
      ensures s.threads[u].lock != s.threads[t].lock
    {
    }
    assert Enabled(s, Acquire(t));
    StepKeepsInv(s, Acquire(t));
  }

  lemma AloneRechecks(s: System, t: ThreadId, k: Key)
    requires AloneAt(s, t, k, Guarded)
    ensures Enabled(s, Recheck(t)) && AloneAt(Apply(s, Recheck(t)), t, k, Opening)
    ensures Undisturbed(s, Apply(s, Recheck(t)), t)
  {
    hide LocksOk, ExclusionOk, OpeningOk, GrantsOk;
    StepKeepsInv(s, Recheck(t));
    NothingToUpgrade(s, t, k);
  }

  lemma AlonePrepares(s: System, t: ThreadId, k: Key)
    requires AloneAt(s, t, k, Opening)
    ensures Enabled(s, Prepare(t, true)) && AloneAt(Apply(s, Prepare(t, true)), t, k, Prepared)
    ensures Undisturbed(s, Apply(s, Prepare(t, true)), t)
  {
    hide LocksOk, ExclusionOk, OpeningOk, GrantsOk, EntriesOk;
    StepKeepsInv(s, Prepare(t, true));
  }

  lemma AloneRunsEngine(s: System, t: ThreadId, k: Key) returns (m: System)
    requires AloneAt(s, t, k, Prepared)
    ensures Enabled(s, Choose(t)) && m == Apply(s, Choose(t)) && Enabled(m, RunEngine(t, true, true))
    ensures AloneAt(Apply(m, RunEngine(t, true, true)), t, k, Built)
    ensures Undisturbed(s, Apply(m, RunEngine(t, true, true)), t)
  {
    hide LocksOk, ExclusionOk, OpeningOk, GrantsOk, EntriesOk;
    StepKeepsInv(s, Choose(t));
    m := Apply(s, Choose(t));
    StepKeepsInv(m, RunEngine(t, true, true));
  }

  lemma AloneInserts(s: System, t: ThreadId, k: Key) returns (m: System)
    requires AloneAt(s, t, k, Built)
    ensures Enabled(s, Insert(t)) && m == Apply(s, Insert(t)) && Enabled(m, Leave(t))
    ensures var s' := Apply(m, Leave(t));
            && Inv(s') && NodeAt(s', k.dir).Directory?
            && s.clock in s'.handles && s'.handles[s.clock].key == k
            && s'.handles[s.clock].fingerprint == s.threads[t].request
            && s'.handles == s.handles[s.clock := s'.handles[s.clock]] && s.clock !in s.handles
            && s'.threads == s.threads - {t}
  {
    hide LocksOk, ExclusionOk, OpeningOk, GrantsOk;
    StepKeepsInv(s, Insert(t));
    m := Apply(s, Insert(t));
    StepKeepsInv(m, Leave(t));
  }

  function RestOf(t: ThreadId): seq<Action> {
    [LookUp(t), Acquire(t), Recheck(t), Prepare(t, true), Choose(t), RunEngine(t, true, true), Insert(t), Leave(t)]
  }

  /** An open left to itself goes through, and what was open stays open. */
  lemma RestGoesThrough(s: System, t: ThreadId, k: Key) returns (h: HandleId)
    requires AloneAt(s, t, k, Started)
    ensures CanRun(s, RestOf(t))
    ensures var s' := Run(s, RestOf(t));
            && Inv(s') && NodeAt(s', k.dir).Directory?
            && h in s'.handles && s'.handles[h].key == k && h !in s.handles
            && s'.handles[h].fingerprint == s.threads[t].request
            && s'.handles == s.handles[h := s'.handles[h]]
            && s'.threads.Keys == s.threads.Keys - {t}
            && (forall u <- s'.threads :: s'.threads[u] == s.threads[u])
  {
    hide Inv, Enabled, Apply, Alone, NodeAt, CanRun, Run;
    AloneLooksUp(s, t, k);
    var s1 := Apply(s, LookUp(t));
    AloneAcquires(s1, t, k);
    var s2 := Apply(s1, Acquire(t));
    AloneRechecks(s2, t, k);
    var s3 := Apply(s2, Recheck(t));
    AlonePrepares(s3, t, k);
    var s4 := Apply(s3, Prepare(t, true));
    var s5 := AloneRunsEngine(s4, t, k);
    var s6 := Apply(s5, RunEngine(t, true, true));
    var s7 := AloneInserts(s6, t, k);
    h := s6.clock;
    RunOfEight(s, t, s1, s2, s3, s4, s5, s6, s7);
  }

  lemma RunOfEight(s: System, t: ThreadId, s1: System, s2: System, s3: System, s4: System, s5: System, s6: System, s7: System)
    requires Enabled(s, LookUp(t)) && s1 == Apply(s, LookUp(t))
    requires Enabled(s1, Acquire(t)) && s2 == Apply(s1, Acquire(t))
    requires Enabled(s2, Recheck(t)) && s3 == Apply(s2, Recheck(t))
    requires Enabled(s3, Prepare(t, true)) && s4 == Apply(s3, Prepare(t, true))
    requires Enabled(s4, Choose(t)) && s5 == Apply(s4, Choose(t))
    requires Enabled(s5, RunEngine(t, true, true)) && s6 == Apply(s5, RunEngine(t, true, true))
    requires Enabled(s6, Insert(t)) && s7 == Apply(s6, Insert(t)) && Enabled(s7, Leave(t))
    ensures CanRun(s, RestOf(t)) && Run(s, RestOf(t)) == Apply(s7, Leave(t))
  {
    hide Enabled, Apply;
    var all := RestOf(t);
    assert all[8..] == [];
    assert CanRun(Apply(s7, Leave(t)), all[8..]);
    assert all[7..][1..] == all[8..] && CanRun(s7, all[7..]) && Run(s7, all[7..]) == Run(Apply(s7, Leave(t)), all[8..]);
    assert all[6..][1..] == all[7..] && CanRun(s6, all[6..]) && Run(s6, all[6..]) == Run(s7, all[7..]);
    assert all[5..][1..] == all[6..] && CanRun(s5, all[5..]) && Run(s5, all[5..]) == Run(s6, all[6..]);
    assert all[4..][1..] == all[5..] && CanRun(s4, all[4..]) && Run(s4, all[4..]) == Run(s5, all[5..]);
    assert all[3..][1..] == all[4..] && CanRun(s3, all[3..]) && Run(s3, all[3..]) == Run(s4, all[4..]);
    assert all[2..][1..] == all[3..] && CanRun(s2, all[2..]) && Run(s2, all[2..]) == Run(s3, all[3..]);
    assert all[1..][1..] == all[2..] && CanRun(s1, all[1..]) && Run(s1, all[1..]) == Run(s2, all[2..]);
  }

  lemma {:induction false} RunSplits(s: System, a: seq<Action>, b: seq<Action>)
    requires CanRun(s, a) && CanRun(Run(s, a), b)
    ensures CanRun(s, a + b) && Run(s, a + b) == Run(Run(s, a), b)
    decreases |a|
  {
    hide Enabled, Apply;
    if a == [] {
      assert a + b == b;
    } else {
      assert (a + b)[0] == a[0] && (a + b)[1..] == a[1..] + b;
      RunSplits(Apply(s, a[0]), a[1..], b);
    }
  }

  /** Nothing is open in the directory and nobody is opening it. */
  ghost predicate IdleAt(s: System, d: Path) {
    && (forall t <- s.threads :: s.threads[t].key.dir != d)
    && (forall h <- s.handles :: s.handles[h].key.dir != d)
  }

  /** Later opens of the directory create it or name it canonically. */
  ghost predicate Tidy(acts: seq<Action>, d: Path) {
    forall a <- acts :: a.Start? && a.key.dir == d ==> a.kind.OpenFile? && (a.kind.create || Canonical(a.key))
  }

  function Unowned(request: Fingerprint): Fingerprint {
    request.(processOwnerLock := false)
  }

  /**
   The rest of the run: another thread creates the directory and opens it without its owner lock;
   then the first goes on.
   */
  function Detour(t: ThreadId, u: ThreadId, d: Path, request: Fingerprint): seq<Action> {
    [Start(u, Key(d, 0), OpenFile(true), Unowned(request))] + RestOf(u) + RestOf(t)
  }

  lemma StartEffect(s: System, t: ThreadId, k: Key, create: bool, request: Fingerprint)
    requires t !in s.threads && NodeAt(s, k.dir) == Absent
    ensures var s' := Apply(s, Start(t, k, OpenFile(create), request));
            && s'.handles == s.handles
            && s'.threads == s.threads[t := Opener(if create then Key(k.dir, 0) else k, OpenFile(create), request, Started, 0)]
            && NodeAt(s', k.dir) == if create then Directory(true) else Absent
  {
  }

  /** After both have started, the second is alone under the canonical key and the first under its own. */
  lemma BothStart(s: System, t: ThreadId, u: ThreadId, k: Key, request: Fingerprint) returns (s1: System, s2: System)
    requires Inv(s) && IdleAt(s, k.dir) && NodeAt(s, k.dir) == Absent && !Canonical(k)
    requires t !in s.threads && u !in s.threads && t != u
    ensures s1 == Apply(s, Start(t, k, OpenFile(false), request))
    ensures Enabled(s1, Start(u, Key(k.dir, 0), OpenFile(true), Unowned(request)))
    ensures s2 == Apply(s1, Start(u, Key(k.dir, 0), OpenFile(true), Unowned(request)))
    ensures AloneAt(s2, u, Key(k.dir, 0), Started)
    ensures forall w <- s2.threads :: w == t || w == u || s2.threads[w].key.dir != k.dir
    ensures forall h <- s2.handles :: s2.handles[h].key.dir != k.dir
    ensures At(s2, t, Started) && s2.threads[t].key == k && s2.threads[t].kind == OpenFile(false)
    ensures s2.threads[u].request == Unowned(request)
  {
    hide Inv, Apply, NodeAt;
    StartEffect(s, t, k, false, request);
    s1 := Apply(s, Start(t, k, OpenFile(false), request));
    StartEffect(s1, u, Key(k.dir, 0), true, Unowned(request));
    StepKeepsInv(s, Start(t, k, OpenFile(false), request));
    s2 := Apply(s1, Start(u, Key(k.dir, 0), OpenFile(true), Unowned(request)));
    StepKeepsInv(s1, Start(u, Key(k.dir, 0), OpenFile(true), Unowned(request)));
  }

  /** The open of a missing directory under a spelling of its own can end in a second instance. */
  lemma StraySplitsDirectory(s: System, t: ThreadId, u: ThreadId, k: Key, request: Fingerprint)
    requires Inv(s) && IdleAt(s, k.dir) && NodeAt(s, k.dir) == Absent && !Canonical(k)
    requires t !in s.threads && u !in s.threads && t != u
    ensures var s1 := Apply(s, Start(t, k, OpenFile(false), request));
            && CanRun(s1, Detour(t, u, k.dir, request)) && Tidy(Detour(t, u, k.dir, request), k.dir)
            && !OneLive(Run(s1, Detour(t, u, k.dir, request)), k.dir)
  {
    hide CanRun, Run, RestOf, Inv, Enabled, Apply, NodeAt, Tidy;
    var create := Start(u, Key(k.dir, 0), OpenFile(true), Unowned(request));
    var s1, s2 := BothStart(s, t, u, k, request);
    var g := RestGoesThrough(s2, u, Key(k.dir, 0));
    var s3 := Run(s2, RestOf(u));
    assert Alone(s3, t, k) && At(s3, t, Started);
    assert OwnerFree(s3, t);
    var h := RestGoesThrough(s3, t, k);
    OneStep(s1, create);
    RunSplits(s1, [create], RestOf(u));
    RunSplits(s1, [create] + RestOf(u), RestOf(t));
    DetourIsTidy(t, u, k.dir, request);
    var s4 := Run(s3, RestOf(t));
    assert g in s4.handles && h in s4.handles && s4.handles[g] != s4.handles[h];
  }

  lemma OneStep(s: System, a: Action)
    requires Enabled(s, a)
    ensures CanRun(s, [a]) && Run(s, [a]) == Apply(s, a)
  {
    assert [a][1..] == [];
  }

  lemma DetourIsTidy(t: ThreadId, u: ThreadId, d: Path, request: Fingerprint)
    ensures Tidy(Detour(t, u, d, request), d)
  {
  }

  /** In a fresh process: one thread opens a missing "db", another creates it, and both get an instance. */
  lemma TwoInstances(request: Fingerprint)
    ensures var acts := [Start(0, Key(0, 1), OpenFile(false), request)] + Detour(0, 1, 0, request);
            CanRun(Init(map[]), acts) && !OneLive(Run(Init(map[]), acts), 0)
  {
    hide CanRun, Run, Inv, OneLive, Detour;
    var a := Start(0, Key(0, 1), OpenFile(false), request);
    InitOk(map[]);
    StraySplitsDirectory(Init(map[]), 0, 1, Key(0, 1), request);
    OneStep(Init(map[]), a);
    RunSplits(Init(map[]), [a], Detour(0, 1, 0, request));
  }

  // ---- Exactly when an open is safe ----------------------------------------------------------

  /** Nobody opens or has open the directory under a spelling of their own. */
  ghost predicate NoStrays(s: System, d: Path) {
    && (forall t <- s.threads :: s.threads[t].key.dir == d ==> Canonical(s.threads[t].key) && s.threads[t].kind.OpenFile?)
    && (forall h <- s.handles :: s.handles[h].key.dir == d ==> Canonical(s.handles[h].key))
  }

  lemma StepKeepsNoStrays(s: System, a: Action, d: Path)
    requires Enabled(s, a) && NoStrays(s, d) && Tidy([a], d)
    ensures NoStrays(Apply(s, a), d)
  {
    hide Enabled, Apply;
    var s' := Apply(s, a);
    forall t | t in s'.threads && s'.threads[t].key.dir == d
      ensures Canonical(s'.threads[t].key) && s'.threads[t].kind.OpenFile?
    {
      if !OnHandle(a) && t == a.t {
        ActorMoves(s, a);
        ActorKeepsItsRequest(s, a);
        assert [a][0] == a;
      } else {
        OthersStay(s, a, t);
      }
    }
    forall h | h in s'.handles && s'.handles[h].key.dir == d
      ensures Canonical(s'.handles[h].key)
    {
      NewHandles(s, a, h);
      if a.Insert? {
        InsertIsInside(s, a);
      }
    }
  }

  lemma {:induction false} RunKeepsNoStrays(s: System, acts: seq<Action>, d: Path)
    requires Inv(s) && CanRun(s, acts) && NoStrays(s, d) && Tidy(acts, d)
    ensures OneLive(Run(s, acts), d)
    decreases |acts|
  {
    hide Inv, Enabled, Apply, NoStrays;
    if acts == [] {
      NoStraysIsOneLive(s, d);
    } else {
      assert Tidy([acts[0]], d) && Tidy(acts[1..], d);
      StepKeepsInv(s, acts[0]);
      StepKeepsNoStrays(s, acts[0], d);
      RunKeepsNoStrays(Apply(s, acts[0]), acts[1..], d);
    }
  }

  lemma NoStraysIsOneLive(s: System, d: Path)
    requires Inv(s) && NoStrays(s, d)
    ensures OneLive(s, d)
  {
  }

  /**
   The first open of an idle directory is safe in every continuation exactly when it creates the
   directory, names it canonically, or finds something there.
   */
  lemma OpenIsSafeExactly(s: System, t: ThreadId, u: ThreadId, k: Key, create: bool, request: Fingerprint)
    requires Inv(s) && IdleAt(s, k.dir) && t !in s.threads && u !in s.threads && t != u
    ensures var s1 := Apply(s, Start(t, k, OpenFile(create), request));
            (forall acts :: CanRun(s1, acts) && Tidy(acts, k.dir) ==> OneLive(Run(s1, acts), k.dir)) <==>
            create || Canonical(k) || NodeAt(s, k.dir) != Absent
  {
    hide CanRun, Run, Inv, OneLive, Tidy, Detour;
    var a := Start(t, k, OpenFile(create), request);
    var s1 := Apply(s, a);
    StepKeepsInv(s, a);
    if create || Canonical(k) || NodeAt(s, k.dir) != Absent {
      assert NoStrays(s1, k.dir);
      forall acts | CanRun(s1, acts) && Tidy(acts, k.dir)
        ensures OneLive(Run(s1, acts), k.dir)
      {
        RunKeepsNoStrays(s1, acts, k.dir);
      }
    } else {
      StraySplitsDirectory(s, t, u, k, request);
    }
  }
}
