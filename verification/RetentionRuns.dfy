/** Runs in which the WAL horizon passes a slot or moves back. */
module RetentionRuns {
  import opened Chars
  import opened Retention
  import opened RetentionAlone

  /** The steps lead to the state, if asked for with one operation at a time. */
  ghost predicate Reaches(acts: seq<Action>, s: System, alone: bool) {
    exists ss :: IsTrace(ss, acts) && ss[|acts|] == s && (alone ==> OneAtATime(ss, acts))
  }

  lemma Begin(durable: Lsn)
    ensures Reaches([], Init(durable), true) && Reaches([], Init(durable), false)
  {
    assert IsTrace([Init(durable)], []) && OneAtATime([Init(durable)], []);
  }

  lemma Do(acts: seq<Action>, s: System, a: Action, alone: bool) returns (acts': seq<Action>, s': System)
    requires Reaches(acts, s, alone) && Enabled(s, a) && (alone && Begins(a) ==> s.ops == map[])
    ensures acts' == acts + [a] && s' == Apply(s, a) && Reaches(acts', s', alone)
  {
    hide Enabled, Apply, Init;
    acts', s' := acts + [a], Apply(s, a);
    var ss :| IsTrace(ss, acts) && ss[|acts|] == s && (alone ==> OneAtATime(ss, acts));
    assert IsTrace(ss + [s'], acts');
    assert alone ==> OneAtATime(ss + [s'], acts');
  }

  /** The slot directory holds nothing but, at most, the slot `name`. */
  ghost predicate OnlySlot(s: System, name: string) {
    forall f :: At(s, f) != Absent ==> f == SlotFile(name)
  }

  function Pass(op: OpId, read: seq<File>): seq<Action> {
    [ReadDurable(op), BeginScan(op)] + Reading(op, read) + [EndScan(op), WriteDraft(op), RenameHorizon(op)]
  }

  function Reading(op: OpId, read: seq<File>): seq<Action> {
    seq(|read|, i requires 0 <= i < |read| => ScanFile(op, read[i]))
  }

  /** What a recomputation leaves when its directory is not synced yet. */
  ghost predicate Passed(s: System, s': System, op: OpId, h: Lsn) {
    && s'.durable == s.durable && s'.files == s.files && s'.past == s.past && s'.horizon == Whole(h)
    && s'.older == s.older + {s.horizon} && s'.recycled == Higher(s.recycled, h)
    && s'.ops == s.ops[op := HorizonRenamed]
  }

  lemma PassEnds(acts: seq<Action>, s: System, op: OpId, alone: bool) returns (acts': seq<Action>, s': System)
    requires Reaches(acts, s, alone) && Enabled(s, EndScan(op))
    ensures acts' == acts + [EndScan(op), WriteDraft(op), RenameHorizon(op)] && Reaches(acts', s', alone)
    ensures Passed(s, s', op, s.ops[op].low)
  {
    hide Reaches, Edit, At;
    acts', s' := Do(acts, s, EndScan(op), alone);
    acts', s' := Do(acts', s', WriteDraft(op), alone);
    acts', s' := Do(acts', s', RenameHorizon(op), alone);
  }

  lemma PassEmpty(acts: seq<Action>, s: System, op: OpId, alone: bool) returns (acts': seq<Action>, s': System)
    requires Reaches(acts, s, alone) && op in s.ops && s.ops[op] == Recompute(None)
    requires forall f :: At(s, f) == Absent
    ensures acts' == acts + Pass(op, []) && Reaches(acts', s', alone) && Passed(s, s', op, s.durable)
  {
    hide Reaches, Edit, At;
    acts', s' := Do(acts, s, ReadDurable(op), alone);
    acts', s' := Do(acts', s', BeginScan(op), alone);
    SameAt(s, s');
    acts', s' := PassEnds(acts', s', op, alone);
    assert Reading(op, []) == [];
    assert acts' == acts + Pass(op, []);
  }

  lemma SameAt(s: System, s': System)
    requires s'.files == s.files
    ensures forall f :: At(s', f) == At(s, f)
  {
  }

  lemma PassSlot(acts: seq<Action>, s: System, op: OpId, name: string, alone: bool) returns (acts': seq<Action>, s': System)
    requires Reaches(acts, s, alone) && op in s.ops && s.ops[op].Recompute?
    requires OnlySlot(s, name) && At(s, SlotFile(name)).Whole?
    requires s.ops[op].bound.Some? ==> s.ops[op].bound.value == At(s, SlotFile(name)).lsn
    ensures acts' == acts + Pass(op, [SlotFile(name)]) && Reaches(acts', s', alone)
    ensures Passed(s, s', op, Lower(s.durable, At(s, SlotFile(name)).lsn))
  {
    hide Reaches, Edit, At;
    acts', s' := Do(acts, s, ReadDurable(op), alone);
    acts', s' := Do(acts', s', BeginScan(op), alone);
    SameAt(s, s');
    acts', s' := Do(acts', s', ScanFile(op, SlotFile(name)), alone);
    SameAt(s, s');
    assert s'.ops[op].done == {SlotFile(name)};
    acts', s' := PassEnds(acts', s', op, alone);
    assert Reading(op, [SlotFile(name)]) == [ScanFile(op, SlotFile(name))];
    assert acts' == acts + Pass(op, [SlotFile(name)]);
  }

  /** Writes and publishes the slot of a creation, which is left before its directory sync. */
  lemma Publish(acts: seq<Action>, s: System, op: OpId, alone: bool) returns (acts': seq<Action>, s': System)
    requires Reaches(acts, s, alone) && op in s.ops && s.ops[op].SlotReady? && OnlySlot(s, s.ops[op].name)
    ensures var n, r := s.ops[op].name, s.ops[op].restart;
            && acts' == acts + [WriteTemp(op), RenameSlot(op)] && Reaches(acts', s', alone)
            && At(s', SlotFile(n)) == Whole(r) && OnlySlot(s', n) && At(s, SlotFile(n)) in PastOf(s', SlotFile(n))
            && s'.durable == s.durable && s'.horizon == s.horizon && s'.older == s.older && s'.recycled == s.recycled
            && s'.ops == s.ops[op := SlotRenamed(r)]
  {
    hide Reaches, At, PastOf, Edit;
    var n, r := s.ops[op].name, s.ops[op].restart;
    acts', s' := Do(acts, s, WriteTemp(op), alone);
    var mid := s';
    OneEdit(s, TempFile(n), Whole(r));
    SameFilesAt(Edit(s, TempFile(n), Whole(r)), mid);
    acts', s' := Do(acts', mid, RenameSlot(op), alone);
    var half := Edit(mid, SlotFile(n), At(mid, TempFile(n)));
    OneEdit(mid, SlotFile(n), At(mid, TempFile(n)));
    OneEdit(half, TempFile(n), Absent);
    SameFilesAt(Edit(half, TempFile(n), Absent), s');
    assert acts' == acts + [WriteTemp(op), RenameSlot(op)];
  }

  lemma OneEdit(s: System, g: File, c: Content)
    ensures forall f :: At(Edit(s, g, c), f) == if f == g then c else At(s, f)
    ensures forall f :: PastOf(Edit(s, g, c), f) == PastOf(s, f) + if f == g then {At(s, g)} else {}
    ensures Edit(s, g, c) == s.(files := Edit(s, g, c).files, past := Edit(s, g, c).past, born := Edit(s, g, c).born)
  {
  }

  lemma SameFilesAt(s: System, s': System)
    requires s'.files == s.files && s'.past == s.past
    ensures forall f :: At(s', f) == At(s, f) && PastOf(s', f) == PastOf(s, f)
  {
  }

  /** A checkpoint between a creation's read and its write recycles past the new slot. */
  function Overlap(): seq<Action> {
    [Create(0, "s"), Advance(10), Checkpoint(1)] + Pass(1, []) + [WriteTemp(0), RenameSlot(0)]
  }

  lemma OverlapPassesTheSlot() returns (s: System)
    ensures Reaches(Overlap(), s, false) && !Safe(s)
  {
    hide Reaches, Pass, At;
    Begin(5);
    NoFiles(5);
    var acts: seq<Action> := [];
    s := Init(5);
    acts, s := Do(acts, s, Create(0, "s"), false);
    acts, s := Do(acts, s, Advance(10), false);
    acts, s := Do(acts, s, Checkpoint(1), false);
    SameAt(Init(5), s);
    acts, s := PassEmpty(acts, s, 1, false);
    SameAt(Init(5), s);
    acts, s := Publish(acts, s, 0, false);
    assert acts == Overlap();
    assert At(s, SlotFile("s")) == Whole(5) && s.recycled == 10;
  }

  lemma NoFiles(durable: Lsn)
    ensures forall f :: At(Init(durable), f) == Absent
  {
  }

  /** One slot at 5, synced, with the horizon at 5. */
  function OneSlot(): seq<Action> {
    [Create(0, "s")] + [WriteTemp(0), RenameSlot(0)] + [SyncSlots(0)] + Pass(0, [SlotFile("s")]) + [SyncHorizon(0)]
  }

  lemma SlotIsMade() returns (s: System)
    ensures Reaches(OneSlot(), s, true) && OnlySlot(s, "s") && At(s, SlotFile("s")) == Whole(5)
    ensures s.durable == 5 && s.recycled == 5 && s.horizon == Whole(5) && s.ops == map[]
  {
    hide Reaches, Pass, At;
    Begin(5);
    NoFiles(5);
    var acts: seq<Action> := [];
    s := Init(5);
    acts, s := Do(acts, s, Create(0, "s"), true);
    SameAt(Init(5), s);
    acts, s := Publish(acts, s, 0, true);
    var mid := s;
    acts, s := Do(acts, s, SyncSlots(0), true);
    SameAt(mid, s);
    mid := s;
    acts, s := PassSlot(acts, s, 0, "s", true);
    SameAt(mid, s);
    acts, s := Do(acts, s, SyncHorizon(0), true);
    SameAt(mid, s);
    assert acts == OneSlot();
    assert s.ops == map[];
  }

  /** One operation at a time: a crash after a removal brings the slot back below the new horizon. */
  function Removal(): seq<Action> {
    OneSlot() + [Advance(10), Drop(1, "s")] + Pass(1, []) + [SyncHorizon(1), Crash(map[SlotFile("s") := Whole(5)], Whole(10))]
  }

  lemma CrashBringsSlotBack() returns (s: System)
    ensures Reaches(Removal(), s, true) && !Safe(s)
  {
    hide Reaches, Pass, OneSlot, At, PastOf, Edit;
    s := SlotIsMade();
    var acts := OneSlot();
    var mid := s;
    acts, s := Do(acts, s, Advance(10), true);
    SameAt(mid, s);
    mid := s;
    acts, s := Do(acts, s, Drop(1, "s"), true);
    OneEdit(mid, SlotFile("s"), Absent);
    SameFilesAt(Edit(mid, SlotFile("s"), Absent), s);
    mid := s;
    acts, s := PassEmpty(acts, s, 1, true);
    SameFilesAt(mid, s);
    mid := s;
    acts, s := Do(acts, s, SyncHorizon(1), true);
    SameFilesAt(mid, s);
    var a := Crash(map[SlotFile("s") := Whole(5)], Whole(10));
    mid := s;
    acts, s := Do(acts, s, a, true);
    CrashStep(mid, a, SlotFile("s"));
    assert acts == Removal();
  }

  /** And so it does after a slot is created again and the directory sync fails. */
  function Recreation(): seq<Action> {
    OneSlot() + [Advance(10), Create(1, "s")] + [WriteTemp(1), RenameSlot(1)] + [Fail(1), Checkpoint(2)] +
    Pass(2, [SlotFile("s")]) + [SyncHorizon(2), Crash(map[SlotFile("s") := Whole(5)], Whole(10))]
  }

  lemma SlotIsRecreated() returns (s: System)
    ensures Reaches(OneSlot() + [Advance(10), Create(1, "s")] + [WriteTemp(1), RenameSlot(1)] + [Fail(1), Checkpoint(2)], s, true)
    ensures OnlySlot(s, "s") && At(s, SlotFile("s")) == Whole(10) && Whole(5) in PastOf(s, SlotFile("s"))
    ensures s.durable == 10 && s.recycled == 5 && s.ops == map[2 := Recompute(None)]
  {
    hide Reaches, OneSlot, At, PastOf, Edit;
    s := SlotIsMade();
    var acts := OneSlot();
    var mid := s;
    acts, s := Do(acts, s, Advance(10), true);
    acts, s := Do(acts, s, Create(1, "s"), true);
    SameAt(mid, s);
    acts, s := Publish(acts, s, 1, true);
    mid := s;
    acts, s := Do(acts, s, Fail(1), true);
    acts, s := Do(acts, s, Checkpoint(2), true);
    SameFilesAt(mid, s);
    assert acts == OneSlot() + [Advance(10), Create(1, "s")] + [WriteTemp(1), RenameSlot(1)] + [Fail(1), Checkpoint(2)];
  }

  lemma RecreationComesUndone() returns (s: System)
    ensures Reaches(Recreation(), s, true) && !Safe(s)
  {
    hide Reaches, Pass, OneSlot, At, PastOf, Edit;
    s := SlotIsRecreated();
    var acts := OneSlot() + [Advance(10), Create(1, "s")] + [WriteTemp(1), RenameSlot(1)] + [Fail(1), Checkpoint(2)];
    var mid := s;
    acts, s := PassSlot(acts, s, 2, "s", true);
    acts, s := Do(acts, s, SyncHorizon(2), true);
    SameFilesAt(mid, s);
    mid := s;
    var a := Crash(map[SlotFile("s") := Whole(5)], Whole(10));
    acts, s := Do(acts, s, a, true);
    CrashStep(mid, a, SlotFile("s"));
    assert acts == Recreation();
  }

  /** One operation at a time: after a failed directory sync a crash takes the horizon back. */
  lemma HorizonComesUndone() returns (s: System, s': System)
    ensures var acts := [Checkpoint(0)] + Pass(0, []) + [Fail(0)];
            && Reaches(acts, s, true) && s.horizon == Whole(5)
            && Reaches(acts + [Crash(map[], Absent)], s', true) && s'.horizon == Absent
  {
    hide Reaches, Pass, At;
    Begin(5);
    NoFiles(5);
    var acts: seq<Action>;
    acts, s := Do([], Init(5), Checkpoint(0), true);
    SameAt(Init(5), s);
    acts, s := PassEmpty(acts, s, 0, true);
    acts, s := Do(acts, s, Fail(0), true);
    assert acts == [Checkpoint(0)] + Pass(0, []) + [Fail(0)];
    acts, s' := Do(acts, s, Crash(map[], Absent), true);
  }
}
