/** The persisted WAL horizon when operations on slots are taken one at a time. */
module RetentionAlone {
  import opened Chars
  import opened Retention

  // ---- One operation at a time ---------------------------------------------------------------

  /** An operation begins only while no other runs. */
  ghost predicate OneAtATime(ss: seq<System>, acts: seq<Action>) {
    forall k :: 0 <= k < |acts| && k < |ss| && Begins(acts[k]) ==> ss[k].ops == map[]
  }

  ghost predicate Single(s: System) {
    forall o, p :: o in s.ops && p in s.ops ==> o == p
  }

  lemma StepKeepsSingle(s: System, a: Action)
    requires Single(s) && Enabled(s, a) && (Begins(a) ==> s.ops == map[])
    ensures Single(Apply(s, a))
  {
    hide NextPhase, Disk, IsListed, At;
  }

  lemma {:induction false} TraceIsSingle(ss: seq<System>, acts: seq<Action>, k: nat)
    requires IsTrace(ss, acts) && OneAtATime(ss, acts) && k <= |acts|
    ensures Single(ss[k])
    decreases k
  {
    hide Enabled, Apply;
    if k > 0 {
      TraceIsSingle(ss, acts, k - 1);
      assert Enabled(ss[k - 1], acts[k - 1]);
      StepKeepsSingle(ss[k - 1], acts[k - 1]);
    }
  }

  lemma TempWasReady(s: System, a: Action, op: OpId, n: string)
    requires Enabled(s, a) && op in Apply(s, a).ops && Apply(s, a).ops[op].TempReady? && Apply(s, a).ops[op].name == n
    requires !Changes(s, a, TempFile(n))
    ensures op in s.ops && s.ops[op] == Apply(s, a).ops[op]
  {
    hide Enabled, Apply, Changes;
    TempReadyStep(s, a, op);
  }

  /** An operation about to rename its temporary file has been so ever since the file was last written. */
  lemma {:induction false} TempIsWaiting(ss: seq<System>, acts: seq<Action>, m: nat, x: nat, w: nat, op: OpId)
    requires IsTrace(ss, acts) && m < x <= w <= |acts| && op in ss[w].ops && ss[w].ops[op].TempReady?
    requires Stands(ss, acts, m, w, TempFile(ss[w].ops[op].name))
    ensures op in ss[x].ops && ss[x].ops[op] == ss[w].ops[op]
    decreases w
  {
    hide Enabled, Apply, Changes;
    if x < w {
      assert Enabled(ss[w - 1], acts[w - 1]) && ss[w] == Apply(ss[w - 1], acts[w - 1]);
      TempWasReady(ss[w - 1], acts[w - 1], op, ss[w].ops[op].name);
      TempIsWaiting(ss, acts, m, x, w - 1, op);
    }
  }

  lemma DraftWasReady(s: System, a: Action, op: OpId)
    requires Enabled(s, a) && op in Apply(s, a).ops && Apply(s, a).ops[op].DraftReady? && !a.WriteDraft?
    ensures op in s.ops && s.ops[op] == Apply(s, a).ops[op]
  {
    hide Disk, IsListed, At;
  }

  lemma {:induction false} DraftIsWaiting(ss: seq<System>, acts: seq<Action>, m: nat, w: nat, x: nat, op: OpId)
    requires IsTrace(ss, acts) && m < w <= x <= |acts| && op in ss[x].ops && ss[x].ops[op].DraftReady?
    requires DraftStands(acts, m, x)
    ensures op in ss[w].ops && ss[w].ops[op] == ss[x].ops[op]
    decreases x
  {
    hide Enabled, Apply;
    if w < x {
      assert Enabled(ss[x - 1], acts[x - 1]) && ss[x] == Apply(ss[x - 1], acts[x - 1]);
      DraftWasReady(ss[x - 1], acts[x - 1], op);
      DraftIsWaiting(ss, acts, m, w, x - 1, op);
    }
  }

  lemma ScansOn(s: System, a: Action, op: OpId)
    requires Enabled(s, a) && op in s.ops && Scans(s.ops[op]) && !Ends(a, op)
    ensures op in Apply(s, a).ops && Scans(Apply(s, a).ops[op])
  {
    hide Disk, IsListed, At;
  }

  lemma {:induction false} ScanGoesOn(ss: seq<System>, acts: seq<Action>, op: OpId, b: nat, k: nat)
    requires IsTrace(ss, acts) && acts != [] && Pending(acts, op, b, k) && acts[b] == BeginScan(op)
    ensures op in ss[k].ops && Scans(ss[k].ops[op])
    decreases k
  {
    hide Enabled, Apply, Ends, Scans;
    assert Enabled(ss[k - 1], acts[k - 1]) && ss[k] == Apply(ss[k - 1], acts[k - 1]);
    if k == b + 1 {
      ScanBegins(ss[b], op);
    } else {
      ScanGoesOn(ss, acts, op, b, k - 1);
      ScansOn(ss[k - 1], acts[k - 1], op);
    }
  }

  lemma ScanBegins(s: System, op: OpId)
    requires Enabled(s, BeginScan(op))
    ensures op in Apply(s, BeginScan(op)).ops && Scans(Apply(s, BeginScan(op)).ops[op])
    ensures s.ops[op].HasDurable? && Apply(s, BeginScan(op)).ops[op] == Scanning(s.clock, s.ops[op].low, {})
  {
  }

  lemma NothingIsLate(ss: seq<System>, acts: seq<Action>)
    requires IsTrace(ss, acts) && OneAtATime(ss, acts)
    ensures NoLateSlot(ss, acts) && NoLateHorizon(ss, acts)
  {
    hide IsTrace, OneAtATime, CreatedAt, ScannedAt, HorizonWritten, SlotWritten, Stands;
    forall i: nat, m: nat, x: nat, w: nat
      ensures !SlotIsLate(ss, acts, i, m, x, w)
    {
      if SlotIsLate(ss, acts, i, m, x, w) {
        SlotWasAlone(ss, acts, i, m, x, w);
      }
    }
    forall b: nat, m: nat, w: nat, x: nat
      ensures !HorizonIsLate(ss, acts, b, m, w, x)
    {
      if HorizonIsLate(ss, acts, b, m, w, x) {
        HorizonWasAlone(ss, acts, b, m, w, x);
      }
    }
  }

  lemma SlotWasAlone(ss: seq<System>, acts: seq<Action>, i: nat, m: nat, x: nat, w: nat)
    requires IsTrace(ss, acts) && OneAtATime(ss, acts) && i < x < w && CreatedAt(ss, acts, i, m, w)
    ensures HorizonWritten(ss[x], acts[x]) == None
  {
    hide OneAtATime, Disk, Stands;
    assert Enabled(ss[i], acts[i]) && ss[i + 1] == Apply(ss[i], acts[i]);
    assert Enabled(ss[x], acts[x]);
    TraceIsSingle(ss, acts, x);
    if x <= m {
      PhaseStays(ss, acts, acts[i].op, i, x);
    } else {
      TempIsWaiting(ss, acts, m, x, w, acts[w].op);
    }
  }

  lemma HorizonWasAlone(ss: seq<System>, acts: seq<Action>, b: nat, m: nat, w: nat, x: nat)
    requires IsTrace(ss, acts) && OneAtATime(ss, acts) && b < w < x && ScannedAt(acts, b, m, x)
    ensures SlotWritten(ss[w], acts[w]) == None
  {
    hide OneAtATime, Disk, Apply, DraftStands;
    assert Enabled(ss[x], acts[x]);
    TraceIsSingle(ss, acts, w);
    if w <= m {
      ScanGoesOn(ss, acts, acts[b].op, b, w);
    } else {
      DraftIsWaiting(ss, acts, m, w, x, acts[x].op);
    }
  }

  /**
   One operation at a time, whatever call fails: the persisted horizon passes no slot, not even
   between two calls, exactly when no crash undoes the change of a slot too late.
   */
  lemma HorizonIsSafe(ss: seq<System>, acts: seq<Action>)
    requires IsTrace(ss, acts) && OneAtATime(ss, acts)
    ensures AlwaysSafe(ss) <==> NoLateRevival(ss, acts)
  {
    hide IsTrace, OneAtATime, AlwaysSafe, NoLateSlot, NoLateHorizon, NoLateRevival;
    NothingIsLate(ss, acts);
    OverlapIsSafeExactly(ss, acts);
  }

  // ---- When the horizon moves back -----------------------------------------------------------

  function Reach(c: Content): Lsn {
    if c.Whole? then c.lsn else 0
  }

  ghost predicate NeverMovesBack(ss: seq<System>) {
    forall i, k :: 0 <= i <= k < |ss| ==> Reach(ss[i].horizon) <= Reach(ss[k].horizon)
  }

  /** A crash undoes the last, unsynced writing of the horizon. */
  ghost predicate HorizonIsUndone(ss: seq<System>, acts: seq<Action>, c: nat) {
    c < |acts| <= |ss| && acts[c].Crash? && Reach(acts[c].horizon) < Reach(ss[c].horizon)
  }

  /** A crash brings back a file below what was persisted, and a later recomputation finds it. */
  ghost predicate FileIsLate(ss: seq<System>, acts: seq<Action>, f: File, c: nat, b: nat, m: nat, x: nat) {
    && c < b && ScannedAt(acts, b, m, x) && IsBroughtBack(ss, acts, f, c) && Stands(ss, acts, c, b, f)
  }

  ghost predicate IsBroughtBack(ss: seq<System>, acts: seq<Action>, f: File, c: nat) {
    && c < |acts| <= |ss| && acts[c].Crash? && f in acts[c].back && acts[c].back[f].Whole?
    && acts[c].back[f].lsn < ss[c].recycled
  }

  ghost predicate NothingUndone(ss: seq<System>, acts: seq<Action>) {
    && (forall c: nat :: !HorizonIsUndone(ss, acts, c))
    && (forall f, c: nat, b: nat, m: nat, x: nat :: !FileIsLate(ss, acts, f, c, b, m, x))
  }

  lemma RestartIsAbove(ss: seq<System>, acts: seq<Action>, k: nat, op: OpId)
    requires IsTrace(ss, acts) && OneAtATime(ss, acts) && k <= |acts| && op in ss[k].ops && ss[k].ops[op].SlotReady?
    ensures ss[k].recycled <= ss[k].ops[op].restart
  {
    hide Apply, Ends, OneAtATime, Disk;
    var i := FindCreate(ss, acts, k, op);
    if ss[k].recycled > 0 {
      var x := FindHorizon(ss, acts, k);
      HorizonRaises(ss, acts, x);
      if x < i {
        PositionsGrow(ss, acts, x, i);
      } else {
        assert Enabled(ss[x], acts[x]) && Enabled(ss[i], acts[i]);
        TraceIsSingle(ss, acts, x);
        CreateStarts(ss, acts, i);
        PhaseStays(ss, acts, op, i, x);
      }
    }
  }

  lemma CreateStarts(ss: seq<System>, acts: seq<Action>, i: nat)
    requires IsTrace(ss, acts) && i < |acts| && acts[i].Create?
    ensures acts[i].op in ss[i + 1].ops && ss[i + 1].ops[acts[i].op] == SlotReady(acts[i].name, ss[i].durable)
  {
    hide Disk;
    assert Enabled(ss[i], acts[i]) && ss[i + 1] == Apply(ss[i], acts[i]);
  }

  predicate Recomputes(p: Phase) {
    Scans(p) || p.DraftReady?
  }

  lemma RecomputerChangesNothing(s: System, a: Action, op: OpId, f: File)
    requires Single(s) && op in s.ops && Recomputes(s.ops[op]) && Enabled(s, a) && (Begins(a) ==> s.ops == map[])
    ensures !Changes(s, a, f)
  {
  }

  /** Nothing else happens while a recomputation runs alone. */
  lemma AloneStands(ss: seq<System>, acts: seq<Action>, b: nat, m: nat, x: nat, f: File)
    requires IsTrace(ss, acts) && OneAtATime(ss, acts) && ScannedAt(acts, b, m, x)
    ensures Stands(ss, acts, b, x, f)
  {
    hide Apply, Changes, Ends;
    forall j | b < j < x
      ensures !Touches(ss[j], acts[j], f)
    {
      assert Enabled(ss[j], acts[j]) && Enabled(ss[x], acts[x]);
      TraceIsSingle(ss, acts, j);
      if j <= m {
        ScanGoesOn(ss, acts, acts[b].op, b, j);
        RecomputerChangesNothing(ss[j], acts[j], acts[b].op, f);
        if j < m {
          NotEnded(acts, b, j, m);
        }
      } else {
        DraftIsWaiting(ss, acts, m, j, x, acts[x].op);
        RecomputerChangesNothing(ss[j], acts[j], acts[x].op, f);
      }
    }
  }

  lemma NotEnded(acts: seq<Action>, b: nat, j: nat, m: nat)
    requires b < j < m < |acts| && acts[b].BeginScan? && Pending(acts, acts[b].op, b, m)
    ensures !acts[j].Crash?
  {
    assert !Ends(acts[j], acts[b].op);
  }

  /** The horizon a recomputation running alone writes is at or below every file it finds. */
  lemma HorizonCoversFile(ss: seq<System>, acts: seq<Action>, b: nat, m: nat, x: nat, f: File)
    requires IsTrace(ss, acts) && OneAtATime(ss, acts) && ScannedAt(acts, b, m, x) && At(ss[b], f).Whole?
    ensures ss[x].draft.Whole? && ss[x].draft.lsn <= At(ss[b], f).lsn && At(ss[x], f) == At(ss[b], f)
  {
    hide Enabled, Apply, OneAtATime, Pending, Stands, At;
    AloneStands(ss, acts, b, m, x, f);
    StandsShorter(ss, acts, b, m, x, f);
    ScanCovers(ss, acts, b, m, acts[b].op, f, At(ss[b], f).lsn);
    assert Enabled(ss[m], acts[m]) && ss[m + 1] == Apply(ss[m], acts[m]);
    DraftIsWritten(ss[m], acts[m].op);
    DraftStays(ss, acts, m, x);
    FileStays(ss, acts, b, x, f);
    assert Enabled(ss[b], acts[b]) && ss[b + 1] == Apply(ss[b], acts[b]);
    ScanKeepsFiles(ss[b], acts[b].op, f);
  }

  lemma ScanKeepsFiles(s: System, op: OpId, f: File)
    requires Enabled(s, BeginScan(op))
    ensures At(Apply(s, BeginScan(op)), f) == At(s, f)
  {
  }

  lemma DraftIsWritten(s: System, op: OpId)
    requires Enabled(s, WriteDraft(op))
    ensures s.ops[op].HorizonReady? && Apply(s, WriteDraft(op)).draft == Whole(s.ops[op].horizon)
    ensures Apply(s, WriteDraft(op)).ops[op] == DraftReady(s.ops[op].horizon)
  {
  }

  lemma DraftStep(s: System, a: Action)
    requires Enabled(s, a) && !a.WriteDraft? && !a.TearDraft? && !a.RenameHorizon?
    ensures Apply(s, a).draft == s.draft && Apply(s, a).recycled == s.recycled
  {
    hide Stepped, At, IsListed;
  }

  lemma {:induction false} DraftStays(ss: seq<System>, acts: seq<Action>, m: nat, x: nat)
    requires IsTrace(ss, acts) && DraftStands(acts, m, x)
    ensures ss[x].draft == ss[m + 1].draft && ss[x].recycled == ss[m + 1].recycled
    decreases x
  {
    hide Enabled, Apply;
    if m + 1 < x {
      DraftStays(ss, acts, m, x - 1);
      assert Enabled(ss[x - 1], acts[x - 1]);
      DraftStep(ss[x - 1], acts[x - 1]);
    }
  }

  lemma FindRecompute(ss: seq<System>, acts: seq<Action>, x: nat) returns (b: nat, m: nat)
    requires IsTrace(ss, acts) && x < |acts| && HorizonWritten(ss[x], acts[x]).Some?
    ensures ScannedAt(acts, b, m, x) && acts[m].op in ss[m].ops
    ensures ss[m].ops[acts[m].op] == HorizonReady(HorizonWritten(ss[x], acts[x]).value)
  {
    hide Apply, Pending, DraftStands;
    assert Enabled(ss[x], acts[x]);
    m := FindDraft(ss, acts, x, acts[x].op);
    b := FindScan(ss, acts, m, acts[m].op);
  }

  /** Alone, a horizon is at or below every file there is when it is written. */
  lemma HorizonCoversAll(ss: seq<System>, acts: seq<Action>, x: nat, f: File)
    requires IsTrace(ss, acts) && OneAtATime(ss, acts) && x < |acts| && HorizonWritten(ss[x], acts[x]).Some?
    requires At(ss[x], f).Whole?
    ensures HorizonWritten(ss[x], acts[x]).value <= At(ss[x], f).lsn
  {
    hide Apply, At, OneAtATime, Stands, Pending, DraftStands;
    var b, m := FindRecompute(ss, acts, x);
    AloneStands(ss, acts, b, m, x, f);
    FileStays(ss, acts, b, x, f);
    assert Enabled(ss[b], acts[b]) && ss[b + 1] == Apply(ss[b], acts[b]);
    ScanKeepsFiles(ss[b], acts[b].op, f);
    HorizonCoversFile(ss, acts, b, m, x, f);
  }

  lemma FileChange(s: System, a: Action, f: File)
    requires Enabled(s, a) && Changes(s, a, f) && At(Apply(s, a), f).Whole?
    ensures if a.WriteTemp? then a.op in s.ops && s.ops[a.op] == SlotReady(f.name, At(Apply(s, a), f).lsn)
            else SlotWritten(s, a) == Some((f.name, At(Apply(s, a), f).lsn))
  {
    hide Apply, Changes, At;
    ChangeIsNoHorizon(s, a, f);
    if f.SlotFile? {
      SlotChange(s, a, f.name);
    } else {
      TempStep(s, a, f.name);
    }
  }

  /** Alone, only a crash leaves a file below what was persisted. */
  lemma {:induction false} FindCrash(ss: seq<System>, acts: seq<Action>, k: nat, f: File) returns (c: nat)
    requires IsTrace(ss, acts) && OneAtATime(ss, acts) && k <= |acts|
    requires At(ss[k], f).Whole? && At(ss[k], f).lsn < ss[k].recycled
    ensures c < k && IsBroughtBack(ss, acts, f, c) && acts[c].back[f] == At(ss[k], f) && Stands(ss, acts, c, k, f)
    decreases k
  {
    hide Enabled, Apply, At, Changes, OneAtATime, HorizonWritten, SlotWritten;
    assert k > 0 by { NothingAtFirst(ss[0].durable, f); }
    c := k - 1;
    assert Enabled(ss[c], acts[c]) && ss[k] == Apply(ss[c], acts[c]);
    if acts[c].Crash? && f in acts[c].back {
      CrashStep(ss[c], acts[c], f);
    } else {
      WasLowBefore(ss, acts, k, f);
      c := FindCrash(ss, acts, k - 1, f);
    }
  }

  lemma NothingAtFirst(durable: Lsn, f: File)
    ensures At(Init(durable), f) == Absent && Init(durable).recycled == 0
  {
  }

  lemma WasLowBefore(ss: seq<System>, acts: seq<Action>, k: nat, f: File)
    requires IsTrace(ss, acts) && OneAtATime(ss, acts) && 0 < k <= |acts|
    requires At(ss[k], f).Whole? && At(ss[k], f).lsn < ss[k].recycled
    requires !(acts[k - 1].Crash? && f in acts[k - 1].back)
    ensures At(ss[k - 1], f) == At(ss[k], f) && At(ss[k], f).lsn < ss[k - 1].recycled
    ensures !Touches(ss[k - 1], acts[k - 1], f)
  {
    hide Apply, At, Changes, OneAtATime, Enabled;
    var s, a := ss[k - 1], acts[k - 1];
    assert Enabled(s, a) && ss[k] == Apply(s, a);
    assert !Changes(s, a, f) by {
      if Changes(s, a, f) {
        WrittenIsAbove(ss, acts, k - 1, f);
      }
    }
    FileUntouched(s, a, f);
    if ss[k].recycled != s.recycled {
      RecycledStep(s, a);
      HorizonCoversAll(ss, acts, k - 1, f);
    }
  }

  lemma WrittenIsAbove(ss: seq<System>, acts: seq<Action>, k: nat, f: File)
    requires IsTrace(ss, acts) && OneAtATime(ss, acts) && k < |acts| && Changes(ss[k], acts[k], f)
    requires At(ss[k + 1], f).Whole?
    ensures ss[k + 1].recycled <= At(ss[k + 1], f).lsn
  {
    hide Apply, At, Changes, OneAtATime, Enabled, SlotWritten, NoLateSlot, NoLateHorizon;
    assert Enabled(ss[k], acts[k]) && ss[k + 1] == Apply(ss[k], acts[k]);
    FileChange(ss[k], acts[k], f);
    ChangeIsNoHorizon(ss[k], acts[k], f);
    if ss[k + 1].recycled != ss[k].recycled {
      RecycledStep(ss[k], acts[k]);
    }
    if acts[k].WriteTemp? {
      RestartIsAbove(ss, acts, k, acts[k].op);
    } else {
      NothingIsLate(ss, acts);
      SlotIsInTime(ss, acts, k);
    }
  }

  /** The lowest position an operation has met. */
  function Level(p: Phase): Option<Lsn> {
    match p
    case SlotReady(_, restart) => Some(restart)
    case TempReady(_, restart) => Some(restart)
    case SlotRenamed(restart) => Some(restart)
    case Recompute(bound) => bound
    case HasDurable(low) => Some(low)
    case Scanning(_, low, _) => Some(low)
    case HorizonReady(h) => Some(h)
    case _ => None
  }

  ghost predicate IsBelow(s: System, op: OpId) {
    op in s.ops && Level(s.ops[op]).Some? && Level(s.ops[op]).value < s.recycled
  }

  /** Alone, an operation falls below what was persisted only by reading a file that is below. */
  lemma FallsByReading(s: System, a: Action, op: OpId)
    requires Sound(s) && Single(s) && Enabled(s, a) && (Begins(a) ==> s.ops == map[])
    requires IsBelow(Apply(s, a), op) && !IsBelow(s, op)
    ensures a.ScanFile? && a.op == op && At(s, a.file).Whole? && At(s, a.file).lsn < s.recycled
    ensures op in Apply(s, a).ops && Scans(Apply(s, a).ops[op])
  {
    hide IsListed, At;
  }

  lemma StaysBelow(s: System, a: Action, op: OpId)
    requires Single(s) && Enabled(s, a) && (Begins(a) ==> s.ops == map[]) && IsBelow(Apply(s, a), op) && IsBelow(s, op)
    requires Scans(s.ops[op])
    ensures Scans(Apply(s, a).ops[op]) && !Ends(a, op)
  {
    hide Disk, IsListed, At;
  }

  /** What an operation running alone has scanned below the persisted horizon, a crash brought back. */
  lemma {:induction false} FindLateFile(ss: seq<System>, acts: seq<Action>, k: nat, op: OpId)
    returns (f: File, c: nat, b: nat)
    requires IsTrace(ss, acts) && OneAtATime(ss, acts) && k <= |acts| && IsBelow(ss[k], op)
    ensures c < b < k && acts[b] == BeginScan(op) && Pending(acts, op, b, k) && Scans(ss[k].ops[op])
    ensures IsBroughtBack(ss, acts, f, c) && Stands(ss, acts, c, b, f)
    decreases k
  {
    hide Enabled, Apply, At, Changes, IsBelow, Sound, Single, Ends, Scans, IsBroughtBack, Stands;
    assert k > 0 by { NothingBelowAtFirst(ss[0].durable, op); }
    var s, a := ss[k - 1], acts[k - 1];
    assert Enabled(s, a) && ss[k] == Apply(s, a);
    TraceIsSound(ss, acts, k - 1);
    TraceIsSingle(ss, acts, k - 1);
    if IsBelow(s, op) {
      f, c, b := FindLateFile(ss, acts, k - 1, op);
      StaysBelow(s, a, op);
    } else {
      FallsByReading(s, a, op);
      f := a.file;
      c := FindCrash(ss, acts, k - 1, f);
      b := FindScan(ss, acts, k, op);
      CrashCameBefore(ss, acts, f, c, b, k, op);
      StandsShorter(ss, acts, c, b, k - 1, f);
    }
  }

  lemma NothingBelowAtFirst(durable: Lsn, op: OpId)
    ensures !IsBelow(Init(durable), op)
  {
  }

  lemma CrashCameBefore(ss: seq<System>, acts: seq<Action>, f: File, c: nat, b: nat, k: nat, op: OpId)
    requires c < k <= |acts| && IsBroughtBack(ss, acts, f, c) && Pending(acts, op, b, k) && acts[b] == BeginScan(op)
    ensures c < b
  {
    assert Ends(acts[c], op);
  }

  /** Alone, what is about to be published is the operation's own. */
  lemma {:induction false} DraftIsOwn(ss: seq<System>, acts: seq<Action>, k: nat, op: OpId)
    requires IsTrace(ss, acts) && OneAtATime(ss, acts) && k <= |acts| && op in ss[k].ops && ss[k].ops[op].DraftReady?
    ensures ss[k].draft == Whole(ss[k].ops[op].horizon)
    decreases k
  {
    hide Enabled, Apply, OneAtATime, Single;
    if k > 0 {
      assert Enabled(ss[k - 1], acts[k - 1]) && ss[k] == Apply(ss[k - 1], acts[k - 1]);
      TraceIsSingle(ss, acts, k - 1);
      if acts[k - 1] == WriteDraft(op) {
        DraftIsWritten(ss[k - 1], op);
      } else {
        DraftStaysOwn(ss[k - 1], acts[k - 1], op);
        DraftIsOwn(ss, acts, k - 1, op);
      }
    }
  }

  lemma DraftStaysOwn(s: System, a: Action, op: OpId)
    requires Single(s) && Enabled(s, a) && op in Apply(s, a).ops && Apply(s, a).ops[op].DraftReady?
    requires a != WriteDraft(op)
    ensures op in s.ops && s.ops[op] == Apply(s, a).ops[op] && Apply(s, a).draft == s.draft
  {
    hide IsListed, At;
  }

  lemma LowWriteIsLate(ss: seq<System>, acts: seq<Action>, x: nat) returns (f: File, c: nat, b: nat, m: nat)
    requires IsTrace(ss, acts) && OneAtATime(ss, acts) && x < |acts| && HorizonWritten(ss[x], acts[x]).Some?
    requires HorizonWritten(ss[x], acts[x]).value < ss[x].recycled
    ensures FileIsLate(ss, acts, f, c, b, m, x)
  {
    hide Apply, OneAtATime, Pending, DraftStands, Stands, IsBroughtBack;
    b, m := FindRecompute(ss, acts, x);
    assert Enabled(ss[m], acts[m]) && ss[m + 1] == Apply(ss[m], acts[m]);
    DraftStays(ss, acts, m, x);
    WritingKeepsRecycled(ss[m], acts[m].op);
    f, c, b := FindLateFile(ss, acts, m, acts[m].op);
  }

  lemma WritesAbove(ss: seq<System>, acts: seq<Action>, x: nat)
    requires IsTrace(ss, acts) && OneAtATime(ss, acts) && NothingUndone(ss, acts)
    requires x < |acts| && acts[x].RenameHorizon?
    ensures HorizonWritten(ss[x], acts[x]).Some? && ss[x].recycled <= HorizonWritten(ss[x], acts[x]).value
  {
    hide Apply, OneAtATime, FileIsLate, HorizonIsUndone;
    assert Enabled(ss[x], acts[x]);
    DraftIsOwn(ss, acts, x, acts[x].op);
    if HorizonWritten(ss[x], acts[x]).value < ss[x].recycled {
      var f, c, b, m := LowWriteIsLate(ss, acts, x);
    }
  }

  lemma WritingKeepsRecycled(s: System, op: OpId)
    requires Enabled(s, WriteDraft(op))
    ensures Apply(s, WriteDraft(op)).recycled == s.recycled
  {
  }

  lemma KeptHorizon(s: System, a: Action)
    requires Enabled(s, a) && !a.RenameHorizon? && !a.Crash?
    ensures Apply(s, a).horizon == s.horizon && Apply(s, a).recycled == s.recycled
  {
    hide Stepped, At, IsListed;
  }

  lemma CrashedHorizon(s: System, a: Action)
    requires Sound(s) && Enabled(s, a) && a.Crash?
    ensures Apply(s, a).horizon == a.horizon && Apply(s, a).recycled == s.recycled && Reach(a.horizon) <= s.recycled
  {
  }

  lemma {:induction false} HorizonKeepsUp(ss: seq<System>, acts: seq<Action>, k: nat)
    requires IsTrace(ss, acts) && OneAtATime(ss, acts) && NothingUndone(ss, acts) && k <= |acts|
    ensures Reach(ss[k].horizon) == ss[k].recycled
    decreases k
  {
    hide Enabled, Apply, OneAtATime, Sound, FileIsLate, HorizonWritten;
    if k > 0 {
      var s, a := ss[k - 1], acts[k - 1];
      assert Enabled(s, a) && ss[k] == Apply(s, a);
      HorizonKeepsUp(ss, acts, k - 1);
      if a.RenameHorizon? {
        WritesAbove(ss, acts, k - 1);
        HorizonRaises(ss, acts, k - 1);
        HorizonKeepsFiles(s, a);
      } else if a.Crash? {
        TraceIsSound(ss, acts, k - 1);
        CrashedHorizon(s, a);
        assert !HorizonIsUndone(ss, acts, k - 1);
      } else {
        KeptHorizon(s, a);
      }
    }
  }

  lemma LateFileMovesBack(ss: seq<System>, acts: seq<Action>, f: File, c: nat, b: nat, m: nat, x: nat)
    requires IsTrace(ss, acts) && OneAtATime(ss, acts) && FileIsLate(ss, acts, f, c, b, m, x)
    ensures !NeverMovesBack(ss)
  {
    hide Apply, OneAtATime, At, Stands, DraftStands, Pending;
    assert Enabled(ss[c], acts[c]) && ss[c + 1] == Apply(ss[c], acts[c]);
    assert Enabled(ss[x], acts[x]) && ss[x + 1] == Apply(ss[x], acts[x]);
    CrashStep(ss[c], acts[c], f);
    FileStays(ss, acts, c, b, f);
    HorizonCoversFile(ss, acts, b, m, x, f);
    HorizonRaises(ss, acts, x);
    var j := FindHorizon(ss, acts, c);
    HorizonRaises(ss, acts, j);
    assert Reach(ss[j + 1].horizon) > Reach(ss[x + 1].horizon);
  }

  /**
   One operation at a time the persisted horizon never moves back exactly when no crash undoes an
   unsynced writing of it, or brings back a file below it that a later recomputation finds.
   */
  lemma MovesBackExactly(ss: seq<System>, acts: seq<Action>)
    requires IsTrace(ss, acts) && OneAtATime(ss, acts)
    ensures NeverMovesBack(ss) <==> NothingUndone(ss, acts)
  {
    hide IsTrace, OneAtATime, FileIsLate;
    TraceLength(ss, acts);
    if NothingUndone(ss, acts) {
      hide NothingUndone;
      forall i, k | 0 <= i <= k < |ss|
        ensures Reach(ss[i].horizon) <= Reach(ss[k].horizon)
      {
        HorizonKeepsUp(ss, acts, i);
        HorizonKeepsUp(ss, acts, k);
        PositionsGrow(ss, acts, i, k);
      }
    } else if c: nat :| HorizonIsUndone(ss, acts, c) {
      UndoneMovesBack(ss, acts, c);
    } else {
      var f, c: nat, b: nat, m: nat, x: nat :| FileIsLate(ss, acts, f, c, b, m, x);
      LateFileMovesBack(ss, acts, f, c, b, m, x);
    }
  }

  lemma UndoneMovesBack(ss: seq<System>, acts: seq<Action>, c: nat)
    requires IsTrace(ss, acts) && HorizonIsUndone(ss, acts, c)
    ensures !NeverMovesBack(ss)
  {
    hide Apply;
    assert Enabled(ss[c], acts[c]) && ss[c + 1] == Apply(ss[c], acts[c]);
    TraceIsSound(ss, acts, c);
    CrashedHorizon(ss[c], acts[c]);
    assert Reach(ss[c].horizon) > Reach(ss[c + 1].horizon);
  }

  // ---- How tight the horizon is --------------------------------------------------------------

  ghost function SlotRestarts(s: System): iset<Lsn> {
    iset n | At(s, SlotFile(n)).Whole? :: At(s, SlotFile(n)).lsn
  }

  ghost function TempRestarts(s: System): iset<Lsn> {
    iset n | At(s, TempFile(n)).Whole? :: At(s, TempFile(n)).lsn
  }

  /** What a scan has met: its lowest position is that of its start or of a file it has read. */
  ghost predicate ScanIsExact(s: System, op: OpId, low: Lsn) {
    && op in s.ops && s.ops[op].Scanning?
    && (forall f <- s.ops[op].done :: At(s, f).Whole?)
    && IsHorizon(s.ops[op].low, low, iset f | f in s.ops[op].done && At(s, f).Whole? :: At(s, f).lsn)
  }

  lemma ScanFileStep(s: System, op: OpId, f: File, low: Lsn)
    requires ScanIsExact(s, op, low) && Enabled(s, ScanFile(op, f))
    ensures ScanIsExact(Apply(s, ScanFile(op, f)), op, low) && Apply(s, ScanFile(op, f)).files == s.files
    ensures Apply(s, ScanFile(op, f)).born == s.born && Apply(s, ScanFile(op, f)).ops[op].start == s.ops[op].start
  {
    var s' := Apply(s, ScanFile(op, f));
    var done, done' := s.ops[op].done, s'.ops[op].done;
    assert s'.files == s.files && forall g :: At(s', g) == At(s, g);
    assert (iset g | g in done' && At(s', g).Whole? :: At(s', g).lsn) ==
           (iset g | g in done && At(s, g).Whole? :: At(s, g).lsn) + iset{At(s, f).lsn};
  }

  /** The operation scans from step `b` to step `e` and nothing else happens meanwhile. */
  ghost predicate ScansAlone(acts: seq<Action>, op: OpId, b: nat, e: nat) {
    && b < e < |acts| && acts[b] == BeginScan(op) && acts[e] == EndScan(op)
    && forall j :: b < j < e ==> acts[j].ScanFile? && acts[j].op == op
  }

  lemma {:induction false} ScanStaysExact(ss: seq<System>, acts: seq<Action>, op: OpId, b: nat, e: nat, k: nat)
    requires IsTrace(ss, acts) && ScansAlone(acts, op, b, e) && b < k <= e
    requires op in ss[b].ops && ss[b].ops[op].HasDurable?
    ensures ScanIsExact(ss[k], op, ss[b].ops[op].low) && ss[k].ops[op].start == ss[b].clock
    ensures ss[k].files == ss[b].files && ss[k].born == ss[b].born
    decreases k
  {
    hide Apply, ScanIsExact, At;
    assert Enabled(ss[k - 1], acts[k - 1]) && ss[k] == Apply(ss[k - 1], acts[k - 1]);
    if k == b + 1 {
      ScanStartsExact(ss[b], op);
    } else {
      ScanStaysExact(ss, acts, op, b, e, k - 1);
      ScanFileStep(ss[k - 1], op, acts[k - 1].file, ss[b].ops[op].low);
    }
  }

  lemma ScanStartsExact(s: System, op: OpId)
    requires Enabled(s, BeginScan(op))
    ensures var s' := Apply(s, BeginScan(op));
            && ScanIsExact(s', op, s.ops[op].low) && s'.ops[op].start == s.clock
            && s'.files == s.files && s'.born == s.born
  {
  }

  lemma EndedScan(s: System, op: OpId, low: Lsn)
    requires ScanIsExact(s, op, low) && Enabled(s, EndScan(op))
    requires forall f <- s.born :: s.born[f] < s.ops[op].start
    ensures op in Apply(s, EndScan(op)).ops && Apply(s, EndScan(op)).ops[op] == HorizonReady(s.ops[op].low)
    ensures IsHorizon(s.ops[op].low, low, SlotRestarts(s) + TempRestarts(s))
  {
    hide Apply;
    var done := s.ops[op].done;
    assert Apply(s, EndScan(op)).ops == s.ops[op := HorizonReady(s.ops[op].low)] by { EndScanEffect(s, op); }
    forall f | At(s, f).Whole?
      ensures f in done
    {
      assert f in s.files && IsListed(s, f, s.ops[op].start);
    }
    assert (iset f | f in done && At(s, f).Whole? :: At(s, f).lsn) == SlotRestarts(s) + TempRestarts(s) by {
      AllRestarts(s, done);
    }
  }

  lemma EndScanEffect(s: System, op: OpId)
    requires Enabled(s, EndScan(op))
    ensures Apply(s, EndScan(op)).ops == s.ops[op := HorizonReady(s.ops[op].low)]
  {
  }

  lemma AllRestarts(s: System, done: set<File>)
    requires forall f :: At(s, f).Whole? ==> f in done
    ensures (iset f | f in done && At(s, f).Whole? :: At(s, f).lsn) == SlotRestarts(s) + TempRestarts(s)
  {
    hide At;
    forall f | At(s, f).Whole?
      ensures At(s, f).lsn in SlotRestarts(s) + TempRestarts(s)
    {
      assert f == SlotFile(f.name) || f == TempFile(f.name);
    }
  }

  lemma MoreRestarts(h: Lsn, full: Lsn, low: Lsn, slots: iset<Lsn>, temps: iset<Lsn>)
    requires IsHorizon(h, low, slots + temps) && IsHorizon(full, low, slots)
    ensures h <= full && (h == full <==> forall r <- temps :: full <= r)
  {
  }

  /**
   A scan left to itself lets recycling go as far as the slots allow exactly when no temporary file
   left in the slot directory names a lower position.
   */
  lemma CompletedRecomputeIsTight(ss: seq<System>, acts: seq<Action>, op: OpId, b: nat, e: nat, full: Lsn)
    requires IsTrace(ss, acts) && ScansAlone(acts, op, b, e) && op in ss[b].ops && ss[b].ops[op].HasDurable?
    requires IsHorizon(full, ss[b].ops[op].low, SlotRestarts(ss[b]))
    ensures op in ss[e + 1].ops && ss[e + 1].ops[op].HorizonReady? && ss[e + 1].ops[op].horizon <= full
    ensures ss[e + 1].ops[op].horizon == full <==> forall r <- TempRestarts(ss[b]) :: full <= r
  {
    hide Apply, At, ScanIsExact, Enabled, SlotRestarts, TempRestarts;
    ScanStaysExact(ss, acts, op, b, e, e);
    TraceIsSound(ss, acts, b);
    assert Enabled(ss[e], acts[e]) && ss[e + 1] == Apply(ss[e], acts[e]);
    EndedScan(ss[e], op, ss[b].ops[op].low);
    SameRestarts(ss[b], ss[e]);
    MoreRestarts(ss[e + 1].ops[op].horizon, full, ss[b].ops[op].low, SlotRestarts(ss[b]), TempRestarts(ss[b]));
  }

  lemma SameRestarts(s: System, s': System)
    requires s'.files == s.files
    ensures SlotRestarts(s') == SlotRestarts(s) && TempRestarts(s') == TempRestarts(s)
  {
    assert forall f :: At(s', f) == At(s, f);
  }
}
