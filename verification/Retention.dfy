/**
 Replication slots and the persisted WAL horizon: slot creation and removal, checkpoints, crashes
 and `retention_from_state` in `crates/redlinedb/src/phase8.rs`, one system call at a time and
 however the operations overlap.
 */
module Retention {
  import opened Chars

  type Lsn = nat
  type OpId = nat

  // ---- The minimum ---------------------------------------------------------------------------

  /** The largest position that neither the log nor any slot still needs. */
  ghost predicate IsHorizon(h: Lsn, durable: Lsn, restarts: iset<Lsn>) {
    h <= durable && (forall r <- restarts :: h <= r) && (h == durable || h in restarts)
  }

  ghost function Restarts(slots: seq<Lsn>): iset<Lsn> {
    iset r | r in slots
  }

  /** The loop of `retention_from_state` over the restart positions of the slots. */
  method RetentionFromState(durable: Lsn, slots: seq<Lsn>) returns (walRecycle: Lsn)
    ensures IsHorizon(walRecycle, durable, Restarts(slots))
  {
    walRecycle := durable;
    for i := 0 to |slots|
      invariant IsHorizon(walRecycle, durable, Restarts(slots[..i]))
    {
      assert slots[..i + 1] == slots[..i] + [slots[i]];
      assert Restarts(slots[..i + 1]) == Restarts(slots[..i]) + iset{slots[i]};
      walRecycle := if slots[i] < walRecycle then slots[i] else walRecycle;
    }
    assert slots[..|slots|] == slots;
  }

  /** `compute_retention_horizon`: the slot just written bounds the horizon once more. */
  method ComputeRetentionHorizon(durable: Lsn, slots: seq<Lsn>, restart: Lsn) returns (walRecycle: Lsn)
    ensures IsHorizon(walRecycle, durable, Restarts(slots) + iset{restart})
  {
    var h := RetentionFromState(durable, slots);
    walRecycle := if restart < h then restart else h;
  }

  // ---- Operations as steps -------------------------------------------------------------------

  /** A slot's file and the temporary file it is written through, in the slot directory. */
  datatype File = SlotFile(name: string) | TempFile(name: string)

  datatype Content = Absent | Torn | Whole(lsn: Lsn)

  /**
   An operation between two of its calls. Creation reads the durable position, writes the slot
   through its temporary file, then recomputes; removal and checkpoint go straight to recomputing,
   which reads the durable position, scans the slot directory file by file, and writes the result
   through a temporary file. `low` is the lowest position met so far, and `start` when the scan began.
   */
  datatype Phase =
    | SlotReady(name: string, restart: Lsn)
    | TempReady(name: string, restart: Lsn)
    | SlotRenamed(restart: Lsn)
    | Recompute(bound: Option<Lsn>)
    | HasDurable(low: Lsn)
    | Scanning(start: nat, low: Lsn, done: set<File>)
    | HorizonReady(horizon: Lsn)
    | DraftReady(horizon: Lsn)
    | HorizonRenamed

  /**
   `past` is what each file of the slot directory has been since the directory was last synced, and
   `older` the same for the persisted horizon; `draft` is the temporary file of the horizon, `born`
   when a file last appeared, and `recycled` the highest horizon ever persisted: the log below it may
   be deleted.
   */
  datatype System = System(
    durable: Lsn, files: map<File, Content>, past: map<File, set<Content>>, born: map<File, nat>,
    horizon: Content, older: set<Content>, draft: Content, recycled: Lsn, ops: map<OpId, Phase>, clock: nat)

  function Init(durable: Lsn): System {
    System(durable, map[], map[], map[], Absent, {}, Absent, 0, map[], 0)
  }

  datatype Action =
    | Advance(lsn: Lsn)
    | Create(op: OpId, name: string)
    | WriteTemp(op: OpId)
    | TearTemp(op: OpId)
    | RenameSlot(op: OpId)
    | SyncSlots(op: OpId)
    | Drop(op: OpId, name: string)
    | Checkpoint(op: OpId)
    | ReadDurable(op: OpId)
    | BeginScan(op: OpId)
    | ScanFile(op: OpId, file: File)
    | EndScan(op: OpId)
    | WriteDraft(op: OpId)
    | TearDraft(op: OpId)
    | RenameHorizon(op: OpId)
    | SyncHorizon(op: OpId)
    | Fail(op: OpId)
    | Crash(back: map<File, Content>, horizon: Content)

  function At(s: System, f: File): Content {
    if f in s.files then s.files[f] else Absent
  }

  function PastOf(s: System, f: File): set<Content> {
    if f in s.past then s.past[f] else {}
  }

  /** A file changes, and until the directory is synced a crash may bring back what it was. */
  function Edit(s: System, f: File, c: Content): System {
    s.(files := s.files[f := c], past := s.past[f := PastOf(s, f) + {At(s, f)}],
       born := if At(s, f) == Absent then s.born[f := s.clock] else s.born)
  }

  /** The file has been there since the scan began, so the scan lists it. */
  predicate IsListed(s: System, f: File, start: nat) {
    At(s, f) != Absent && (f in s.born ==> s.born[f] < start)
  }

  predicate MayCrash(s: System, back: map<File, Content>, horizon: Content) {
    horizon in s.older + {s.horizon} && forall f <- back :: back[f] in PastOf(s, f)
  }

  predicate In(s: System, op: OpId, a: Action) {
    op in s.ops &&
    var p := s.ops[op];
    match a
    case WriteTemp(_) => p.SlotReady?
    case TearTemp(_) => p.SlotReady?
    case RenameSlot(_) => p.TempReady? && At(s, TempFile(p.name)) != Absent
    case SyncSlots(_) => p.SlotRenamed?
    case ReadDurable(_) => p.Recompute?
    case BeginScan(_) => p.HasDurable?
    case ScanFile(_, f) => p.Scanning? && At(s, f).Whole?
    case EndScan(_) => p.Scanning? && forall f <- s.files :: IsListed(s, f, p.start) ==> f in p.done
    case WriteDraft(_) => p.HorizonReady?
    case TearDraft(_) => p.HorizonReady?
    case RenameHorizon(_) => p.DraftReady? && s.draft != Absent
    case SyncHorizon(_) => p.HorizonRenamed?
    case Fail(_) => true
    case _ => false
  }

  predicate Begins(a: Action) {
    a.Create? || a.Drop? || a.Checkpoint?
  }

  predicate Enabled(s: System, a: Action) {
    match a
    case Advance(lsn) => lsn >= s.durable
    case Crash(back, horizon) => MayCrash(s, back, horizon)
    case _ => if Begins(a) then a.op !in s.ops else In(s, a.op, a)
  }

  function Higher(a: Lsn, b: Lsn): Lsn {
    if a < b then b else a
  }

  function Lower(a: Lsn, b: Lsn): Lsn {
    if b < a then b else a
  }

  /** The phase an operation goes on with, or None when it is over. */
  function NextPhase(s: System, a: Action): Option<Phase>
    requires Enabled(s, a) && !a.Advance? && !a.Crash?
  {
    match a
    case Create(_, name) => Some(SlotReady(name, s.durable))
    case Drop(_, _) => Some(Recompute(None))
    case Checkpoint(_) => Some(Recompute(None))
    case WriteTemp(op) => Some(TempReady(s.ops[op].name, s.ops[op].restart))
    case RenameSlot(op) => Some(SlotRenamed(s.ops[op].restart))
    case SyncSlots(op) => Some(Recompute(Some(s.ops[op].restart)))
    case ReadDurable(op) =>
      var bound := s.ops[op].bound;
      Some(HasDurable(if bound.Some? then Lower(s.durable, bound.value) else s.durable))
    case BeginScan(op) => Some(Scanning(s.clock, s.ops[op].low, {}))
    case ScanFile(op, f) =>
      var p := s.ops[op];
      Some(Scanning(p.start, Lower(p.low, At(s, f).lsn), p.done + {f}))
    case EndScan(op) => Some(HorizonReady(s.ops[op].low))
    case WriteDraft(op) => Some(DraftReady(s.ops[op].horizon))
    case RenameHorizon(_) => Some(HorizonRenamed)
    case _ => None
  }

  function Stepped(s: System, a: Action): map<OpId, Phase>
    requires Enabled(s, a)
  {
    if a.Advance? then s.ops
    else if a.Crash? then map[]
    else
      var p := NextPhase(s, a);
      if p.Some? then s.ops[a.op := p.value] else s.ops - {a.op}
  }

  /** What a step does to the disk. */
  function Disk(s: System, a: Action): System
    requires Enabled(s, a)
  {
    match a
    case Advance(lsn) => s.(durable := lsn)
    case WriteTemp(op) => Edit(s, TempFile(s.ops[op].name), Whole(s.ops[op].restart))
    case TearTemp(op) => Edit(s, TempFile(s.ops[op].name), Torn)
    case RenameSlot(op) =>
      var n := s.ops[op].name;
      Edit(Edit(s, SlotFile(n), At(s, TempFile(n))), TempFile(n), Absent)
    case SyncSlots(_) => s.(past := map[])
    case Drop(_, name) => Edit(s, SlotFile(name), Absent)
    case WriteDraft(op) => s.(draft := Whole(s.ops[op].horizon))
    case TearDraft(_) => s.(draft := Torn)
    case RenameHorizon(_) =>
      s.(horizon := s.draft, older := s.older + {s.horizon}, draft := Absent,
         recycled := if s.draft.Whole? then Higher(s.recycled, s.draft.lsn) else s.recycled)
    case SyncHorizon(_) => s.(older := {})
    case Crash(back, horizon) =>
      s.(files := s.files + back, past := map[], horizon := horizon, older := {})
    case _ => s
  }

  function Apply(s: System, a: Action): System
    requires Enabled(s, a)
  {
    Disk(s, a).(ops := Stepped(s, a), clock := s.clock + 1)
  }

  // ---- What a step does to one file ----------------------------------------------------------

  predicate Changes(s: System, a: Action, f: File) {
    match a
    case WriteTemp(op) => op in s.ops && s.ops[op].SlotReady? && f == TempFile(s.ops[op].name)
    case TearTemp(op) => op in s.ops && s.ops[op].SlotReady? && f == TempFile(s.ops[op].name)
    case RenameSlot(op) =>
      op in s.ops && s.ops[op].TempReady? && (f == SlotFile(s.ops[op].name) || f == TempFile(s.ops[op].name))
    case Drop(_, name) => f == SlotFile(name)
    case _ => false
  }

  ghost predicate FileKept(s: System, s': System, f: File) {
    && At(s', f) == At(s, f) && PastOf(s', f) == PastOf(s, f)
    && (f in s'.born <==> f in s.born) && (f in s.born ==> s'.born[f] == s.born[f])
  }

  lemma EditOne(s: System, g: File, c: Content, f: File)
    ensures f != g ==> FileKept(s, Edit(s, g, c), f)
    ensures At(Edit(s, g, c), g) == c && PastOf(Edit(s, g, c), g) == PastOf(s, g) + {At(s, g)}
  {
  }

  lemma DiskIsSeen(s: System, a: Action, f: File)
    requires Enabled(s, a)
    ensures FileKept(Disk(s, a), Apply(s, a), f)
  {
    hide Disk, Stepped;
  }

  lemma DiskStep(s: System, a: Action, f: File)
    requires Enabled(s, a) && !a.Crash? && !a.SyncSlots?
    ensures !Changes(s, a, f) ==> FileKept(s, Disk(s, a), f)
    ensures PastOf(Disk(s, a), f) == PastOf(s, f) + if Changes(s, a, f) then {At(s, f)} else {}
  {
    hide Edit, At, PastOf, IsListed;
    if a.WriteTemp? {
      EditOne(s, TempFile(s.ops[a.op].name), Whole(s.ops[a.op].restart), f);
    } else if a.TearTemp? {
      EditOne(s, TempFile(s.ops[a.op].name), Torn, f);
    } else if a.Drop? {
      EditOne(s, SlotFile(a.name), Absent, f);
    } else if a.RenameSlot? {
      var n := s.ops[a.op].name;
      EditOne(s, SlotFile(n), At(s, TempFile(n)), f);
      EditOne(s, SlotFile(n), At(s, TempFile(n)), TempFile(n));
      EditOne(Edit(s, SlotFile(n), At(s, TempFile(n))), TempFile(n), Absent, f);
    } else {
      SameFiles(s, Disk(s, a), f);
    }
  }

  lemma SameFiles(s: System, s': System, f: File)
    requires s'.files == s.files && s'.past == s.past && s'.born == s.born
    ensures FileKept(s, s', f)
  {
  }

  lemma FileStep(s: System, a: Action, f: File)
    requires Enabled(s, a) && !a.Crash?
    ensures !Changes(s, a, f) && !a.SyncSlots? ==> FileKept(s, Apply(s, a), f)
    ensures !a.SyncSlots? ==> PastOf(Apply(s, a), f) == PastOf(s, f) + if Changes(s, a, f) then {At(s, f)} else {}
    ensures a.SyncSlots? ==> Apply(s, a).past == map[] && FileKept(s.(past := map[]), Apply(s, a), f)
  {
    hide Changes, At, PastOf, Apply, Disk;
    DiskIsSeen(s, a, f);
    if a.SyncSlots? {
      SyncStep(s, a, f);
    } else {
      DiskStep(s, a, f);
    }
  }

  lemma SyncStep(s: System, a: Action, f: File)
    requires Enabled(s, a) && a.SyncSlots?
    ensures Apply(s, a).past == map[] && FileKept(s.(past := map[]), Apply(s, a), f)
    ensures !Changes(s, a, f) && At(s.(past := map[]), f) == At(s, f)
  {
    hide NextPhase;
  }

  lemma FileUnchanged(s: System, a: Action, f: File)
    requires Enabled(s, a) && !a.Crash? && !Changes(s, a, f)
    ensures At(Apply(s, a), f) == At(s, f) && (f in Apply(s, a).born <==> f in s.born)
    ensures f in s.born ==> Apply(s, a).born[f] == s.born[f]
  {
    hide Changes, At, PastOf, Apply, Enabled;
    FileStep(s, a, f);
    if a.SyncSlots? {
      SyncStep(s, a, f);
    }
  }

  lemma FileUntouched(s: System, a: Action, f: File)
    requires Enabled(s, a) && !Touches(s, a, f)
    ensures At(Apply(s, a), f) == At(s, f)
  {
    hide Changes, At, Apply, Enabled;
    if a.Crash? {
      CrashStep(s, a, f);
    } else {
      FileUnchanged(s, a, f);
    }
  }

  lemma SlotIsRenamed(s: System, op: OpId)
    requires Enabled(s, RenameSlot(op))
    ensures var n := s.ops[op].name;
            At(Apply(s, RenameSlot(op)), SlotFile(n)) == At(s, TempFile(n))
  {
  }

  lemma TempIsWritten(s: System, op: OpId)
    requires Enabled(s, WriteTemp(op))
    ensures At(Apply(s, WriteTemp(op)), TempFile(s.ops[op].name)) == Whole(s.ops[op].restart)
  {
  }

  lemma CrashStep(s: System, a: Action, f: File)
    requires Enabled(s, a) && a.Crash?
    ensures At(Apply(s, a), f) == if f in a.back then a.back[f] else At(s, f)
    ensures Apply(s, a).past == map[] && Apply(s, a).recycled == s.recycled
  {
  }

  // ---- Traces --------------------------------------------------------------------------------

  /** `ss[k]` is the state after the first `k` of the steps. */
  ghost predicate IsTrace(ss: seq<System>, acts: seq<Action>) {
    && |ss| == |acts| + 1 && ss[0] == Init(ss[0].durable)
    && forall k :: 0 <= k < |acts| ==> Enabled(ss[k], acts[k]) && ss[k + 1] == Apply(ss[k], acts[k])
  }

  /** No slot needs the log below what may already be deleted. */
  ghost predicate Safe(s: System) {
    forall n :: At(s, SlotFile(n)).Whole? ==> s.recycled <= At(s, SlotFile(n)).lsn
  }

  ghost predicate AlwaysSafe(ss: seq<System>) {
    forall k :: 0 <= k < |ss| ==> Safe(ss[k])
  }

  predicate Ends(a: Action, op: OpId) {
    a in {WriteTemp(op), TearTemp(op), WriteDraft(op), TearDraft(op), SyncHorizon(op), Fail(op)} || a.Crash?
  }

  /** The operation has neither ended nor written a temporary file strictly between two steps. */
  ghost predicate Pending(acts: seq<Action>, op: OpId, i: nat, k: nat) {
    i < k <= |acts| && forall j :: i < j < k ==> !Ends(acts[j], op)
  }

  predicate Touches(s: System, a: Action, f: File) {
    Changes(s, a, f) || (a.Crash? && f in a.back)
  }

  /** Nothing changes the file strictly between two steps. */
  ghost predicate Stands(ss: seq<System>, acts: seq<Action>, i: nat, k: nat, f: File) {
    i < k <= |acts| <= |ss| && forall j :: i < j < k ==> !Touches(ss[j], acts[j], f)
  }

  ghost predicate DraftStands(acts: seq<Action>, m: nat, k: nat) {
    m < k <= |acts| && forall j :: m < j < k ==>
      !acts[j].WriteDraft? && !acts[j].TearDraft? && !acts[j].RenameHorizon? && !acts[j].Crash?
  }

  /** The slot directory is not synced strictly between two steps. */
  ghost predicate Unsynced(acts: seq<Action>, p: nat, c: nat) {
    p < c <= |acts| && forall j :: p < j < c ==> !acts[j].SyncSlots? && !acts[j].Crash?
  }

  function SlotWritten(s: System, a: Action): Option<(string, Lsn)> {
    if a.RenameSlot? && a.op in s.ops && s.ops[a.op].TempReady? && At(s, TempFile(s.ops[a.op].name)).Whole? then
      Some((s.ops[a.op].name, At(s, TempFile(s.ops[a.op].name)).lsn))
    else None
  }

  function HorizonWritten(s: System, a: Action): Option<Lsn> {
    if a.RenameHorizon? && s.draft.Whole? then Some(s.draft.lsn) else None
  }

  /** `acts[w]` publishes the temporary file that `acts[m]` wrote for the creation begun by `acts[i]`. */
  ghost predicate CreatedAt(ss: seq<System>, acts: seq<Action>, i: nat, m: nat, w: nat) {
    && i < m < w < |acts| <= |ss| && acts[i].Create? && acts[m] == WriteTemp(acts[i].op)
    && Pending(acts, acts[i].op, i, m)
    && SlotWritten(ss[w], acts[w]).Some? && SlotWritten(ss[w], acts[w]).value.0 == acts[i].name
    && Stands(ss, acts, m, w, TempFile(acts[i].name))
  }

  /** `acts[x]` publishes the horizon that `acts[m]` wrote for the scan begun by `acts[b]`. */
  ghost predicate ScannedAt(acts: seq<Action>, b: nat, m: nat, x: nat) {
    && b < m < x < |acts| && acts[b].BeginScan? && acts[m] == WriteDraft(acts[b].op)
    && Pending(acts, acts[b].op, b, m) && acts[x].RenameHorizon? && DraftStands(acts, m, x)
  }

  // ---- What can come too late ----------------------------------------------------------------

  /** A horizon above a creation's position is written between its read of it and its slot. */
  ghost predicate SlotIsLate(ss: seq<System>, acts: seq<Action>, i: nat, m: nat, x: nat, w: nat) {
    && i < x < w && CreatedAt(ss, acts, i, m, w)
    && HorizonWritten(ss[x], acts[x]).Some? && HorizonWritten(ss[x], acts[x]).value > ss[i].durable
  }

  /** A recomputation writes a horizon above a slot that was written after its scan had begun. */
  ghost predicate HorizonIsLate(ss: seq<System>, acts: seq<Action>, b: nat, m: nat, w: nat, x: nat) {
    && b < w < x && |acts| <= |ss| && ScannedAt(acts, b, m, x)
    && SlotWritten(ss[w], acts[w]).Some? && Stands(ss, acts, w, x, SlotFile(SlotWritten(ss[w], acts[w]).value.0))
    && HorizonWritten(ss[x], acts[x]).Some?
    && HorizonWritten(ss[x], acts[x]).value > SlotWritten(ss[w], acts[w]).value.1
  }

  /** A crash undoes the removal or replacement of a slot after which a horizon above it was written. */
  ghost predicate RevivalIsLate(ss: seq<System>, acts: seq<Action>, n: string, p: nat, x: nat, c: nat) {
    && p < x < c < |acts| <= |ss| && Changes(ss[p], acts[p], SlotFile(n)) && At(ss[p], SlotFile(n)).Whole?
    && Unsynced(acts, p, c) && acts[c].Crash? && SlotFile(n) in acts[c].back
    && acts[c].back[SlotFile(n)] == At(ss[p], SlotFile(n))
    && HorizonWritten(ss[x], acts[x]).Some? && HorizonWritten(ss[x], acts[x]).value > At(ss[p], SlotFile(n)).lsn
  }

  ghost predicate NoLateSlot(ss: seq<System>, acts: seq<Action>) {
    forall i: nat, m: nat, x: nat, w: nat :: !SlotIsLate(ss, acts, i, m, x, w)
  }

  ghost predicate NoLateHorizon(ss: seq<System>, acts: seq<Action>) {
    forall b: nat, m: nat, w: nat, x: nat :: !HorizonIsLate(ss, acts, b, m, w, x)
  }

  ghost predicate NoLateRevival(ss: seq<System>, acts: seq<Action>) {
    forall n, p: nat, x: nat, c: nat :: !RevivalIsLate(ss, acts, n, p, x, c)
  }

  // ---- Facts about every trace ---------------------------------------------------------------

  predicate PhaseOk(s: System, p: Phase) {
    match p
    case SlotReady(_, restart) => restart <= s.durable
    case TempReady(_, restart) => restart <= s.durable
    case HasDurable(low) => low <= s.durable
    case Scanning(start, low, _) => start <= s.clock && low <= s.durable
    case HorizonReady(h) => h <= s.durable
    case DraftReady(h) => h <= s.durable
    case _ => true
  }

  predicate UpTo(c: Content, lsn: Lsn) {
    c.Whole? ==> c.lsn <= lsn
  }

  ghost predicate Sound(s: System) {
    && s.recycled <= s.durable && UpTo(s.draft, s.durable)
    && UpTo(s.horizon, s.recycled) && (forall c <- s.older :: UpTo(c, s.recycled))
    && (forall f <- s.born :: s.born[f] < s.clock)
    && forall op <- s.ops :: PhaseOk(s, s.ops[op])
  }

  lemma StepKeepsSound(s: System, a: Action)
    requires Sound(s) && Enabled(s, a)
    ensures Sound(Apply(s, a)) && s.durable <= Apply(s, a).durable && s.recycled <= Apply(s, a).recycled
  {
    hide PhaseOk, Stepped, IsListed;
    var s' := Apply(s, a);
    forall op | op in s'.ops
      ensures PhaseOk(s', s'.ops[op])
    {
      PhaseStaysOk(s, a, op);
    }
    if a.WriteDraft? {
      DraftIsOk(s, s.ops[a.op]);
    }
  }

  lemma DraftIsOk(s: System, p: Phase)
    requires PhaseOk(s, p) && p.HorizonReady?
    ensures p.horizon <= s.durable
  {
  }

  lemma PhaseStaysOk(s: System, a: Action, op: OpId)
    requires Enabled(s, a) && op in Apply(s, a).ops && (op in s.ops ==> PhaseOk(s, s.ops[op]))
    ensures PhaseOk(Apply(s, a), Apply(s, a).ops[op])
  {
    hide Edit, At, IsListed;
    assert Apply(s, a).clock == s.clock + 1 && Apply(s, a).durable >= s.durable by { ClockTicks(s, a); }
  }

  lemma ClockTicks(s: System, a: Action)
    requires Enabled(s, a)
    ensures Apply(s, a).clock == s.clock + 1 && Apply(s, a).durable >= s.durable
  {
    hide Stepped, At, IsListed;
  }

  lemma {:induction false} TraceIsSound(ss: seq<System>, acts: seq<Action>, k: nat)
    requires IsTrace(ss, acts) && k <= |acts|
    ensures Sound(ss[k])
    decreases k
  {
    hide Sound, Enabled, Apply;
    if k > 0 {
      TraceIsSound(ss, acts, k - 1);
      assert Enabled(ss[k - 1], acts[k - 1]);
      StepKeepsSound(ss[k - 1], acts[k - 1]);
    } else {
      InitIsSound(ss[0].durable);
    }
  }

  /** Renaming a slot into place changes nothing about whether a scan under way has to list it. */
  lemma RenamedSlotIsListedAsBefore(ss: seq<System>, acts: seq<Action>, k: nat, scan: OpId, op: OpId)
    requires IsTrace(ss, acts) && k < |ss| && scan != op && Enabled(ss[k], RenameSlot(op))
    requires scan in ss[k].ops && ss[k].ops[scan].Scanning?
    ensures var s, s', f, start := ss[k], Apply(ss[k], RenameSlot(op)), SlotFile(ss[k].ops[op].name), ss[k].ops[scan].start;
            && (IsListed(s', f, start) <==> IsListed(s, f, start))
            && (Enabled(s, EndScan(scan)) ==> Enabled(s', EndScan(scan)))
  {
    TraceIsSound(ss, acts, k);
  }

  /** What a creation knows of the position of its slot. */
  predicate Within(p: Phase, restart: Lsn) {
    match p
    case SlotReady(_, r) => r == restart
    case TempReady(_, r) => r == restart
    case SlotRenamed(r) => r == restart
    case Recompute(bound) => bound == Some(restart)
    case HasDurable(low) => low <= restart
    case Scanning(_, low, _) => low <= restart
    case HorizonReady(h) => h <= restart
    case DraftReady(h) => h <= restart
    case HorizonRenamed => true
  }

  lemma WithinStep(s: System, a: Action, op: OpId, restart: Lsn)
    requires Enabled(s, a) && op in s.ops && op in Apply(s, a).ops && Within(s.ops[op], restart)
    ensures Within(Apply(s, a).ops[op], restart)
  {
    hide IsListed, Disk;
  }

  /**
   The horizon a creation computes is at or below the position its slot was given, even if the slot
   is removed or replaced before the scan.
   */
  lemma {:induction false} CreationBoundsHorizon(ss: seq<System>, acts: seq<Action>, op: OpId, i: nat, k: nat)
    requires IsTrace(ss, acts) && i < k < |ss| && acts[i].Create? && acts[i].op == op
    requires forall j :: i < j <= k ==> op in ss[j].ops
    ensures Within(ss[k].ops[op], ss[i].durable)
    ensures ss[k].ops[op].HorizonReady? || ss[k].ops[op].DraftReady? ==> ss[k].ops[op].horizon <= ss[i].durable
    decreases k
  {
    hide Enabled, Apply, Within;
    assert Enabled(ss[k - 1], acts[k - 1]) && ss[k] == Apply(ss[k - 1], acts[k - 1]);
    if k == i + 1 {
      CreationBegins(ss[i], acts[i]);
    } else {
      CreationBoundsHorizon(ss, acts, op, i, k - 1);
      WithinStep(ss[k - 1], acts[k - 1], op, ss[i].durable);
    }
    assert ss[k].ops[op].HorizonReady? || ss[k].ops[op].DraftReady? ==> ss[k].ops[op].horizon <= ss[i].durable by {
      WithinHorizon(ss[k].ops[op], ss[i].durable);
    }
  }

  lemma CreationBegins(s: System, a: Action)
    requires Enabled(s, a) && a.Create?
    ensures a.op in Apply(s, a).ops && Within(Apply(s, a).ops[a.op], s.durable)
  {
  }

  lemma WithinHorizon(p: Phase, restart: Lsn)
    requires Within(p, restart)
    ensures p.HorizonReady? || p.DraftReady? ==> p.horizon <= restart
  {
  }

  lemma InitIsSound(durable: Lsn)
    ensures Sound(Init(durable)) && Safe(Init(durable))
  {
  }

  lemma {:induction false} PositionsGrow(ss: seq<System>, acts: seq<Action>, i: nat, k: nat)
    requires IsTrace(ss, acts) && i <= k <= |acts|
    ensures ss[i].durable <= ss[k].durable && ss[i].recycled <= ss[k].recycled
    decreases k
  {
    hide Sound, Enabled, Apply;
    if i < k {
      PositionsGrow(ss, acts, i, k - 1);
      TraceIsSound(ss, acts, k - 1);
      assert Enabled(ss[k - 1], acts[k - 1]);
      StepKeepsSound(ss[k - 1], acts[k - 1]);
    }
  }

  lemma HorizonRaises(ss: seq<System>, acts: seq<Action>, x: nat)
    requires IsTrace(ss, acts) && x < |acts| && HorizonWritten(ss[x], acts[x]).Some?
    ensures var h := HorizonWritten(ss[x], acts[x]).value;
            h <= ss[x + 1].recycled && ss[x + 1].horizon == Whole(h) && h <= ss[x].durable
    ensures ss[x + 1].files == ss[x].files
  {
    TraceIsSound(ss, acts, x);
    assert Enabled(ss[x], acts[x]) && ss[x + 1] == Apply(ss[x], acts[x]);
  }

  lemma RecycledStep(s: System, a: Action)
    requires Enabled(s, a) && Apply(s, a).recycled != s.recycled
    ensures HorizonWritten(s, a) == Some(Apply(s, a).recycled)
  {
    hide IsListed, NextPhase;
  }

  /** What may be deleted was once written as a horizon. */
  lemma {:induction false} FindHorizon(ss: seq<System>, acts: seq<Action>, k: nat) returns (x: nat)
    requires IsTrace(ss, acts) && k <= |acts| && ss[k].recycled > 0
    ensures x < k && HorizonWritten(ss[x], acts[x]) == Some(ss[k].recycled)
    decreases k
  {
    hide Enabled, Apply, HorizonWritten;
    if k > 0 {
      x := k - 1;
      assert Enabled(ss[x], acts[x]) && ss[k] == Apply(ss[x], acts[x]);
      if ss[x].recycled != ss[k].recycled {
        RecycledStep(ss[x], acts[x]);
      } else {
        x := FindHorizon(ss, acts, k - 1);
      }
    }
  }

  lemma SlotReadyStep(s: System, a: Action, op: OpId)
    requires Enabled(s, a) && op in Apply(s, a).ops && Apply(s, a).ops[op].SlotReady?
    ensures !Ends(a, op)
    ensures (a == Create(op, Apply(s, a).ops[op].name) && Apply(s, a).ops[op].restart == s.durable) ||
            (op in s.ops && s.ops[op] == Apply(s, a).ops[op])
  {
    hide IsListed, Disk, At;
  }

  lemma {:induction false} FindCreate(ss: seq<System>, acts: seq<Action>, k: nat, op: OpId) returns (i: nat)
    requires IsTrace(ss, acts) && k <= |acts| && op in ss[k].ops && ss[k].ops[op].SlotReady?
    ensures i < k && acts[i] == Create(op, ss[k].ops[op].name) && Pending(acts, op, i, k)
    ensures ss[k].ops[op].restart == ss[i].durable
    decreases k
  {
    hide Enabled, Apply, Ends;
    if k > 0 {
      i := k - 1;
      assert Enabled(ss[i], acts[i]) && ss[k] == Apply(ss[i], acts[i]);
      SlotReadyStep(ss[i], acts[i], op);
      if !(acts[i] == Create(op, ss[k].ops[op].name) && ss[k].ops[op].restart == ss[i].durable) {
        i := FindCreate(ss, acts, k - 1, op);
      }
    }
  }

  lemma TempReadyStep(s: System, a: Action, op: OpId)
    requires Enabled(s, a) && op in Apply(s, a).ops && Apply(s, a).ops[op].TempReady?
    ensures !a.Crash?
    ensures (a == WriteTemp(op) && Changes(s, a, TempFile(Apply(s, a).ops[op].name))) ||
            (op in s.ops && s.ops[op] == Apply(s, a).ops[op])
  {
    hide IsListed, Disk, At;
  }

  lemma TempStep(s: System, a: Action, n: string)
    requires Enabled(s, a) && !a.Crash? && At(Apply(s, a), TempFile(n)).Whole? && Changes(s, a, TempFile(n))
    ensures a.WriteTemp? && a.op in s.ops && s.ops[a.op] == SlotReady(n, At(Apply(s, a), TempFile(n)).lsn)
  {
    hide IsListed, Stepped;
  }

  /** While a creation is about to rename, its temporary file is what the last writer left there. */
  lemma {:induction false} FindTemp(ss: seq<System>, acts: seq<Action>, k: nat, op: OpId) returns (m: nat)
    requires IsTrace(ss, acts) && k <= |acts| && op in ss[k].ops && ss[k].ops[op].TempReady?
    requires At(ss[k], TempFile(ss[k].ops[op].name)).Whole?
    ensures m < k && acts[m].WriteTemp? && Stands(ss, acts, m, k, TempFile(ss[k].ops[op].name))
    ensures acts[m].op in ss[m].ops
    ensures ss[m].ops[acts[m].op] == SlotReady(ss[k].ops[op].name, At(ss[k], TempFile(ss[k].ops[op].name)).lsn)
    decreases k
  {
    hide Enabled, Apply, Changes, At;
    if k > 0 {
      m := k - 1;
      var n := ss[k].ops[op].name;
      assert Enabled(ss[m], acts[m]) && ss[k] == Apply(ss[m], acts[m]);
      TempReadyStep(ss[m], acts[m], op);
      if Changes(ss[m], acts[m], TempFile(n)) {
        TempStep(ss[m], acts[m], n);
      } else {
        FileUnchanged(ss[m], acts[m], TempFile(n));
        m := FindTemp(ss, acts, k - 1, op);
      }
    }
  }

  lemma DraftReadyStep(s: System, a: Action, op: OpId)
    requires Enabled(s, a) && op in Apply(s, a).ops && Apply(s, a).ops[op].DraftReady? && Apply(s, a).draft.Whole?
    ensures !a.TearDraft? && !a.RenameHorizon? && !a.Crash?
    ensures if a.WriteDraft? then a.op in s.ops && s.ops[a.op] == HorizonReady(Apply(s, a).draft.lsn)
            else Apply(s, a).draft == s.draft && op in s.ops && s.ops[op] == Apply(s, a).ops[op]
  {
    hide IsListed, At;
  }

  lemma {:induction false} FindDraft(ss: seq<System>, acts: seq<Action>, k: nat, op: OpId) returns (m: nat)
    requires IsTrace(ss, acts) && k <= |acts| && op in ss[k].ops && ss[k].ops[op].DraftReady? && ss[k].draft.Whole?
    ensures m < k && acts[m].WriteDraft? && DraftStands(acts, m, k)
    ensures acts[m].op in ss[m].ops && ss[m].ops[acts[m].op] == HorizonReady(ss[k].draft.lsn)
    decreases k
  {
    hide Enabled, Apply;
    if k > 0 {
      m := k - 1;
      assert Enabled(ss[m], acts[m]) && ss[k] == Apply(ss[m], acts[m]);
      DraftReadyStep(ss[m], acts[m], op);
      if !acts[m].WriteDraft? {
        m := FindDraft(ss, acts, k - 1, op);
      }
    }
  }

  predicate Scans(p: Phase) {
    p.Scanning? || p.HorizonReady?
  }

  lemma ScansStep(s: System, a: Action, op: OpId)
    requires Enabled(s, a) && op in Apply(s, a).ops && Scans(Apply(s, a).ops[op])
    ensures !Ends(a, op)
    ensures a == BeginScan(op) || (op in s.ops && Scans(s.ops[op]))
  {
    hide IsListed, Disk, At;
  }

  lemma {:induction false} FindScan(ss: seq<System>, acts: seq<Action>, k: nat, op: OpId) returns (b: nat)
    requires IsTrace(ss, acts) && k <= |acts| && op in ss[k].ops && Scans(ss[k].ops[op])
    ensures b < k && acts[b] == BeginScan(op) && Pending(acts, op, b, k)
    decreases k
  {
    hide Enabled, Apply, Ends, Scans;
    if k > 0 {
      b := k - 1;
      assert Enabled(ss[b], acts[b]) && ss[k] == Apply(ss[b], acts[b]);
      ScansStep(ss[b], acts[b], op);
      if acts[b] != BeginScan(op) {
        b := FindScan(ss, acts, k - 1, op);
      }
    } else {
      assert false;
    }
  }

  /** A scan that has begun and not ended knows the file if it has read it. */
  ghost predicate Knows(s: System, op: OpId, start: nat, f: File, r: Lsn) {
    && op in s.ops && At(s, f) == Whole(r) && (f in s.born ==> s.born[f] < start)
    && match s.ops[op]
       case Scanning(start', low, done) => start' == start && (f in done ==> low <= r)
       case HorizonReady(h) => h <= r
       case _ => false
  }

  lemma KnowsStep(s: System, a: Action, op: OpId, start: nat, f: File, r: Lsn)
    requires Knows(s, op, start, f, r) && Enabled(s, a) && !Ends(a, op) && !Changes(s, a, f)
    ensures Knows(Apply(s, a), op, start, f, r)
  {
    hide Disk, Changes;
    FileUnchanged(s, a, f);
    if a == EndScan(op) {
      assert f in s.files && IsListed(s, f, start);
    }
  }

  lemma BeginsToKnow(s: System, op: OpId, f: File, r: Lsn)
    requires Sound(s) && Enabled(s, BeginScan(op)) && At(s, f) == Whole(r)
    ensures Knows(Apply(s, BeginScan(op)), op, s.clock, f, r)
  {
  }

  /** A file that stays as it is throughout a scan bounds what the scan yields. */
  lemma {:induction false} ScanCovers(ss: seq<System>, acts: seq<Action>, b: nat, k: nat, op: OpId, f: File, r: Lsn)
    requires IsTrace(ss, acts) && Pending(acts, op, b, k) && acts[b] == BeginScan(op)
    requires At(ss[b], f) == Whole(r) && Stands(ss, acts, b, k, f)
    ensures Knows(ss[k], op, ss[b].clock, f, r)
    decreases k
  {
    hide Enabled, Apply, Ends, Changes, Knows, At;
    assert Enabled(ss[k - 1], acts[k - 1]) && ss[k] == Apply(ss[k - 1], acts[k - 1]);
    if k == b + 1 {
      TraceIsSound(ss, acts, b);
      BeginsToKnow(ss[b], op, f, r);
    } else {
      ScanCovers(ss, acts, b, k - 1, op, f, r);
      KnowsStep(ss[k - 1], acts[k - 1], op, ss[b].clock, f, r);
    }
  }

  lemma SlotChange(s: System, a: Action, n: string)
    requires Enabled(s, a) && Changes(s, a, SlotFile(n)) && At(Apply(s, a), SlotFile(n)).Whole?
    ensures SlotWritten(s, a) == Some((n, At(Apply(s, a), SlotFile(n)).lsn))
  {
    hide IsListed, Stepped;
  }

  /** A slot was there at step `b`, or was written since. */
  lemma {:induction false} FindSlot(ss: seq<System>, acts: seq<Action>, b: nat, k: nat, n: string)
    returns (w: nat)
    requires IsTrace(ss, acts) && b < k <= |acts| && At(ss[k], SlotFile(n)).Whole?
    requires forall j :: b < j < k ==> !acts[j].Crash?
    requires acts[b].BeginScan?
    ensures (At(ss[b], SlotFile(n)) == At(ss[k], SlotFile(n)) && Stands(ss, acts, b, k, SlotFile(n))) ||
            (b < w < k && SlotWritten(ss[w], acts[w]) == Some((n, At(ss[k], SlotFile(n)).lsn)) &&
             Stands(ss, acts, w, k, SlotFile(n)))
    decreases k
  {
    hide Enabled, Apply, SlotWritten, At;
    w := k - 1;
    assert Enabled(ss[w], acts[w]) && ss[k] == Apply(ss[w], acts[w]);
    if Changes(ss[w], acts[w], SlotFile(n)) {
      SlotChange(ss[w], acts[w], n);
    } else {
      FileUnchanged(ss[w], acts[w], SlotFile(n));
      if b + 1 < k {
        w := FindSlot(ss, acts, b, k - 1, n);
      }
    }
  }

  /** What a crash can bring back was there, and its change is not synced. */
  lemma {:induction false} FindChange(ss: seq<System>, acts: seq<Action>, k: nat, f: File, c: Content) returns (p: nat)
    requires IsTrace(ss, acts) && k <= |acts| && c in PastOf(ss[k], f)
    ensures p < k && Changes(ss[p], acts[p], f) && At(ss[p], f) == c && Unsynced(acts, p, k)
    decreases k
  {
    hide Enabled, Apply, Changes, At, PastOf;
    if k == 0 {
      assert PastOf(ss[0], f) == {} by { NoPast(ss[0], f); }
    } else {
      p := k - 1;
      assert Enabled(ss[p], acts[p]) && ss[k] == Apply(ss[p], acts[p]);
      if acts[p].Crash? {
        CrashStep(ss[p], acts[p], f);
        NoPast(ss[k], f);
      } else {
        FileStep(ss[p], acts[p], f);
        if acts[p].SyncSlots? {
          NoPast(ss[k], f);
        }
        if c in PastOf(ss[p], f) {
          p := FindChange(ss, acts, k - 1, f, c);
        }
      }
    }
  }

  lemma NoPast(s: System, f: File)
    requires s.past == map[]
    ensures PastOf(s, f) == {}
  {
  }

  // ---- The three conditions are enough -------------------------------------------------------

  lemma SlotIsInTime(ss: seq<System>, acts: seq<Action>, k: nat)
    requires IsTrace(ss, acts) && k < |acts| && NoLateSlot(ss, acts) && SlotWritten(ss[k], acts[k]).Some?
    ensures ss[k].recycled <= SlotWritten(ss[k], acts[k]).value.1
  {
    hide Enabled, Apply, Ends, HorizonWritten, Pending, Stands, At;
    var m := FindTemp(ss, acts, k, acts[k].op);
    var i := FindCreate(ss, acts, m, acts[m].op);
    if ss[k].recycled > 0 {
      var x := FindHorizon(ss, acts, k);
      HorizonRaises(ss, acts, x);
      if x < i {
        PositionsGrow(ss, acts, x, i);
      } else {
        assert x != i by { NotBoth(ss[i], acts[i]); }
        assert CreatedAt(ss, acts, i, m, k);
        assert !SlotIsLate(ss, acts, i, m, x, k);
      }
    }
  }

  lemma NotBoth(s: System, a: Action)
    requires !a.RenameHorizon?
    ensures HorizonWritten(s, a) == None
  {
  }

  lemma HorizonIsInTime(ss: seq<System>, acts: seq<Action>, k: nat, n: string)
    requires IsTrace(ss, acts) && k < |acts| && NoLateHorizon(ss, acts) && At(ss[k], SlotFile(n)).Whole?
    requires HorizonWritten(ss[k], acts[k]).Some?
    ensures HorizonWritten(ss[k], acts[k]).value <= At(ss[k], SlotFile(n)).lsn
  {
    hide Apply, Stands, SlotWritten, At, Changes;
    assert Enabled(ss[k], acts[k]);
    var m := FindDraft(ss, acts, k, acts[k].op);
    var op := acts[m].op;
    var b := FindScan(ss, acts, m, op);
    assert ScannedAt(acts, b, m, k);
    var w := FindSlot(ss, acts, b, k, n);
    if At(ss[b], SlotFile(n)) == At(ss[k], SlotFile(n)) && Stands(ss, acts, b, k, SlotFile(n)) {
      StandsShorter(ss, acts, b, m, k, SlotFile(n));
      ScanCovers(ss, acts, b, m, op, SlotFile(n), At(ss[k], SlotFile(n)).lsn);
    } else {
      assert !HorizonIsLate(ss, acts, b, m, w, k);
    }
  }

  lemma StandsShorter(ss: seq<System>, acts: seq<Action>, b: nat, m: nat, k: nat, f: File)
    requires b < m <= k && Stands(ss, acts, b, k, f)
    ensures Stands(ss, acts, b, m, f)
  {
  }

  lemma RevivalIsInTime(ss: seq<System>, acts: seq<Action>, k: nat, n: string)
    requires IsTrace(ss, acts) && k < |acts| && NoLateRevival(ss, acts) && acts[k].Crash?
    requires SlotFile(n) in acts[k].back && acts[k].back[SlotFile(n)].Whole?
    requires forall j :: 0 <= j <= k ==> Safe(ss[j])
    ensures ss[k].recycled <= acts[k].back[SlotFile(n)].lsn
  {
    hide Apply, HorizonWritten, Unsynced, At, PastOf, Changes;
    assert Enabled(ss[k], acts[k]);
    var p := FindChange(ss, acts, k, SlotFile(n), acts[k].back[SlotFile(n)]);
    assert Safe(ss[p]);
    if ss[k].recycled > 0 {
      var x := FindHorizon(ss, acts, k);
      if x < p {
        HorizonRaises(ss, acts, x);
        PositionsGrow(ss, acts, x + 1, p);
      } else {
        assert x != p by { ChangeIsNoHorizon(ss[p], acts[p], SlotFile(n)); }
        assert !RevivalIsLate(ss, acts, n, p, x, k);
      }
    }
  }

  lemma ChangeIsNoHorizon(s: System, a: Action, f: File)
    requires Changes(s, a, f)
    ensures HorizonWritten(s, a) == None && !a.Crash?
  {
  }

  lemma OtherStepsAreSafe(s: System, a: Action, n: string)
    requires Enabled(s, a) && !a.Crash? && !Changes(s, a, SlotFile(n)) && HorizonWritten(s, a) == None && Safe(s)
    ensures At(Apply(s, a), SlotFile(n)).Whole? ==> Apply(s, a).recycled <= At(Apply(s, a), SlotFile(n)).lsn
  {
    hide Apply, At, Changes, Enabled;
    FileUnchanged(s, a, SlotFile(n));
    if Apply(s, a).recycled != s.recycled {
      RecycledStep(s, a);
    }
  }

  lemma StepIsSafe(ss: seq<System>, acts: seq<Action>, k: nat)
    requires IsTrace(ss, acts) && k < |acts| && (forall j :: 0 <= j <= k ==> Safe(ss[j]))
    requires NoLateSlot(ss, acts) && NoLateHorizon(ss, acts) && NoLateRevival(ss, acts)
    ensures Safe(ss[k + 1])
  {
    hide NoLateSlot, NoLateHorizon, NoLateRevival, Enabled, Apply, At, Changes, SlotWritten, HorizonWritten;
    assert Safe(ss[k]) && Enabled(ss[k], acts[k]) && ss[k + 1] == Apply(ss[k], acts[k]);
    var s, s', a := ss[k], ss[k + 1], acts[k];
    forall n | At(s', SlotFile(n)).Whole?
      ensures s'.recycled <= At(s', SlotFile(n)).lsn
    {
      if a.Crash? {
        CrashStep(s, a, SlotFile(n));
        if SlotFile(n) in a.back {
          RevivalIsInTime(ss, acts, k, n);
        }
      } else if Changes(s, a, SlotFile(n)) {
        SlotChange(s, a, n);
        SlotIsInTime(ss, acts, k);
        ChangeIsNoHorizon(s, a, SlotFile(n));
        if s'.recycled != s.recycled {
          RecycledStep(s, a);
        }
      } else if HorizonWritten(s, a).Some? {
        HorizonKeepsFiles(s, a);
        HorizonIsInTime(ss, acts, k, n);
      } else {
        OtherStepsAreSafe(s, a, n);
      }
    }
  }

  lemma HorizonKeepsFiles(s: System, a: Action)
    requires Enabled(s, a) && HorizonWritten(s, a).Some?
    ensures forall f :: At(Apply(s, a), f) == At(s, f)
    ensures Apply(s, a).recycled == Higher(s.recycled, HorizonWritten(s, a).value)
  {
  }

  lemma {:induction false} ConditionsSuffice(ss: seq<System>, acts: seq<Action>, k: nat)
    requires IsTrace(ss, acts) && k <= |acts|
    requires NoLateSlot(ss, acts) && NoLateHorizon(ss, acts) && NoLateRevival(ss, acts)
    ensures forall j :: 0 <= j <= k ==> Safe(ss[j])
    decreases k
  {
    hide NoLateSlot, NoLateHorizon, NoLateRevival, Safe;
    if k == 0 {
      InitIsSound(ss[0].durable);
    } else {
      ConditionsSuffice(ss, acts, k - 1);
      StepIsSafe(ss, acts, k - 1);
    }
  }

  // ---- Each of them is needed ----------------------------------------------------------------

  lemma PhaseStep(s: System, a: Action, op: OpId)
    requires Enabled(s, a) && op in s.ops && !Ends(a, op) && s.ops[op].SlotReady?
    ensures op in Apply(s, a).ops && Apply(s, a).ops[op] == s.ops[op]
  {
    hide IsListed, Disk, At;
  }

  lemma {:induction false} PhaseStays(ss: seq<System>, acts: seq<Action>, op: OpId, i: nat, k: nat)
    requires IsTrace(ss, acts) && Pending(acts, op, i, k)
    requires op in ss[i + 1].ops && ss[i + 1].ops[op].SlotReady?
    ensures op in ss[k].ops && ss[k].ops[op] == ss[i + 1].ops[op]
    decreases k
  {
    hide Enabled, Apply, Ends;
    if i + 1 < k {
      PhaseStays(ss, acts, op, i, k - 1);
      assert Enabled(ss[k - 1], acts[k - 1]);
      PhaseStep(ss[k - 1], acts[k - 1], op);
    }
  }

  lemma {:induction false} FileStays(ss: seq<System>, acts: seq<Action>, i: nat, k: nat, f: File)
    requires IsTrace(ss, acts) && Stands(ss, acts, i, k, f)
    ensures At(ss[k], f) == At(ss[i + 1], f)
    decreases k
  {
    hide Enabled, Apply, Changes, At;
    if i + 1 < k {
      FileStays(ss, acts, i, k - 1, f);
      assert Enabled(ss[k - 1], acts[k - 1]);
      FileUntouched(ss[k - 1], acts[k - 1], f);
    }
  }

  lemma LateSlotIsUnsafe(ss: seq<System>, acts: seq<Action>, i: nat, m: nat, x: nat, w: nat)
    requires IsTrace(ss, acts) && SlotIsLate(ss, acts, i, m, x, w)
    ensures !AlwaysSafe(ss)
  {
    hide HorizonWritten, Pending, Disk, Stands;
    var op, n := acts[i].op, acts[i].name;
    assert Enabled(ss[i], acts[i]) && ss[i + 1] == Apply(ss[i], acts[i]);
    assert Enabled(ss[m], acts[m]) && ss[m + 1] == Apply(ss[m], acts[m]);
    assert Enabled(ss[w], acts[w]) && ss[w + 1] == Apply(ss[w], acts[w]);
    PhaseStays(ss, acts, op, i, m);
    TempIsWritten(ss[m], op);
    FileStays(ss, acts, m, w, TempFile(n));
    SlotIsRenamed(ss[w], acts[w].op);
    HorizonRaises(ss, acts, x);
    PositionsGrow(ss, acts, x + 1, w + 1);
    assert At(ss[w + 1], SlotFile(n)) == Whole(ss[i].durable);
    assert !Safe(ss[w + 1]);
  }

  lemma LateHorizonIsUnsafe(ss: seq<System>, acts: seq<Action>, b: nat, m: nat, w: nat, x: nat)
    requires IsTrace(ss, acts) && HorizonIsLate(ss, acts, b, m, w, x)
    ensures !AlwaysSafe(ss)
  {
    hide Disk, Pending, Stands, HorizonWritten, DraftStands;
    var (n, r) := SlotWritten(ss[w], acts[w]).value;
    assert Enabled(ss[w], acts[w]) && ss[w + 1] == Apply(ss[w], acts[w]);
    SlotIsRenamed(ss[w], acts[w].op);
    FileStays(ss, acts, w, x, SlotFile(n));
    HorizonRaises(ss, acts, x);
    assert At(ss[x + 1], SlotFile(n)) == Whole(r) && !Safe(ss[x + 1]);
  }

  lemma RevivalIsUnsafe(ss: seq<System>, acts: seq<Action>, n: string, p: nat, x: nat, c: nat)
    requires IsTrace(ss, acts) && RevivalIsLate(ss, acts, n, p, x, c)
    ensures !AlwaysSafe(ss)
  {
    hide HorizonWritten, Unsynced, Enabled, Apply, Changes, At;
    assert Enabled(ss[c], acts[c]) && ss[c + 1] == Apply(ss[c], acts[c]);
    CrashStep(ss[c], acts[c], SlotFile(n));
    HorizonRaises(ss, acts, x);
    PositionsGrow(ss, acts, x + 1, c + 1);
    assert !Safe(ss[c + 1]);
  }

  // ---- Exactly -------------------------------------------------------------------------------

  /**
   However operations overlap, whatever call fails and whenever the process dies: no state of a run
   is unsafe exactly when no slot, no horizon and no undone change of a slot comes too late.
   */
  lemma OverlapIsSafeExactly(ss: seq<System>, acts: seq<Action>)
    requires IsTrace(ss, acts)
    ensures AlwaysSafe(ss) <==> NoLateSlot(ss, acts) && NoLateHorizon(ss, acts) && NoLateRevival(ss, acts)
  {
    hide IsTrace, SlotIsLate, HorizonIsLate, RevivalIsLate;
    if NoLateSlot(ss, acts) && NoLateHorizon(ss, acts) && NoLateRevival(ss, acts) {
      assert |ss| == |acts| + 1 by { TraceLength(ss, acts); }
      ConditionsSuffice(ss, acts, |acts|);
    } else {
      UnsafeOtherwise(ss, acts);
    }
  }

  lemma TraceLength(ss: seq<System>, acts: seq<Action>)
    requires IsTrace(ss, acts)
    ensures |ss| == |acts| + 1
  {
  }

  lemma UnsafeOtherwise(ss: seq<System>, acts: seq<Action>)
    requires IsTrace(ss, acts) && !(NoLateSlot(ss, acts) && NoLateHorizon(ss, acts) && NoLateRevival(ss, acts))
    ensures !AlwaysSafe(ss)
  {
    hide IsTrace, SlotIsLate, HorizonIsLate, RevivalIsLate, AlwaysSafe;
    if !NoLateSlot(ss, acts) {
      var i: nat, m: nat, x: nat, w: nat :| SlotIsLate(ss, acts, i, m, x, w);
      LateSlotIsUnsafe(ss, acts, i, m, x, w);
    } else if !NoLateHorizon(ss, acts) {
      var b: nat, m: nat, w: nat, x: nat :| HorizonIsLate(ss, acts, b, m, w, x);
      LateHorizonIsUnsafe(ss, acts, b, m, w, x);
    } else {
      var n, p: nat, x: nat, c: nat :| RevivalIsLate(ss, acts, n, p, x, c);
      RevivalIsUnsafe(ss, acts, n, p, x, c);
    }
  }
}
