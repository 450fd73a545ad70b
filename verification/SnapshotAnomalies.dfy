/**
 Where the conditions of `Guarded` come from. Each is exactly what keeps every reader's reads: of a
 write over an aborted head, of an insert, and of vacuum; and each has a run that breaks a read.
 */
module SnapshotAnomalies {
  import opened Chars
  import opened Mvcc
  import opened SnapshotReads
  import opened SnapshotTheorems

  /** Every reader gets from the row the entry the journal gives it. */
  ghost predicate Faithful(s: Db, row: RowId) {
    forall csn, owner :: Usable(s, csn, owner) ==> ReadId(s, row, csn, owner) == ReplayId(s, row, csn, owner)
  }

  lemma InvIsFaithful(s: Db, row: RowId)
    requires Inv(s)
    ensures Faithful(s, row)
  {
    hide Inv, ReadId, ReplayId, Usable;
    forall csn, owner | Usable(s, csn, owner)
      ensures ReadId(s, row, csn, owner) == ReplayId(s, row, csn, owner)
    {
      ReadIsLatest(s, row, csn, owner);
    }
  }

  // ---- Writing over an aborted head ----------------------------------------------------------

  ghost function AfterWrite(s: Db, tx: TxId, row: RowId, deleted: bool, payload: Payload): Db
    requires Enabled(s, Stage(tx, row, deleted, payload))
  {
    Apply(Apply(s, Stage(tx, row, deleted, payload)), Install(tx))
  }

  lemma AfterWriteState(s: Db, tx: TxId, row: RowId, deleted: bool, payload: Payload)
    requires Enabled(s, Stage(tx, row, deleted, payload))
    ensures var t := VisibleForWrite(s.states, s.rows[row], s.snaps[tx], tx);
            var s' := AfterWrite(s, tx, row, deleted, payload);
            && t.index < |s.rows[row]|
            && s'.journal == s.journal + [Entry(row, tx, s.snaps[tx], deleted, payload)]
            && row in s'.rows && s'.rows[row] == [NewVersion(s, tx, deleted, payload)] + Below(s.rows[row], t.index, tx)
            && s'.states == s.states && s'.frontier == s.frontier && s'.snaps == s.snaps
  {
  }

  // The dropped version `j` is still what a new reader should get, and the base is what it gets.
  lemma DroppedVersionIsLost(s: Db, tx: TxId, row: RowId, deleted: bool, payload: Payload, index: nat, j: nat)
    requires Inv(s) && Enabled(s, Stage(tx, row, deleted, payload))
    requires VisibleForWrite(s.states, s.rows[row], s.snaps[tx], tx) == Base(index) && j < index < |s.rows[row]|
    requires StateOf(s.states, s.rows[row][j].beginTx).Committed?
    requires s.rows[row][index].beginTx != tx
    ensures !Faithful(AfterWrite(s, tx, row, deleted, payload), row)
  {
    hide CsnsOk, JournalOk, WriteOrder, StagedOk, Covers, Links, AfterWrite, Latest, FirstVisible, VisibleForWrite, Below;
    AfterWriteState(s, tx, row, deleted, payload);
    BaseIsVisible(s.states, s.rows[row], s.snaps[tx], tx);
    var s', ch := AfterWrite(s, tx, row, deleted, payload), s.rows[row];
    var c, p := StateOf(s.states, ch[j].beginTx).csn, s.frontier.published;
    var csn := if c < p then p else c;
    assert ChainOk(s, row, ch, 0) && VersionOf(s, row, ch[j]);
    assert s'.journal[ch[j].id] == s.journal[ch[j].id];
    LatestIsNewest(s', row, csn, None);
    BaseIsRead(s, ch, tx, deleted, payload, index, csn);
    assert Usable(s', csn, None);
    assert ReadId(s', row, csn, None) == Some(ch[index].id);
  }

  /** After the write a new reader gets the chosen base. */
  lemma BaseIsRead(s: Db, ch: Chain, tx: TxId, deleted: bool, payload: Payload, index: nat, csn: Csn)
    requires index < |ch| && Running(s, tx) && !ch[index].deleted && CommittedBy(s, ch[index].beginTx, csn)
    ensures var v := ReadVersion(s.states, [NewVersion(s, tx, deleted, payload)] + Below(ch, index, tx), csn, None);
            v.Some? && v.value.id == ch[index].id && !v.value.deleted
  {
    var all := [NewVersion(s, tx, deleted, payload)] + Below(ch, index, tx);
    assert all[1..] == Below(ch, index, tx) && all[1..][0] == ch[index].(endTx := tx);
    assert ReadVersion(s.states, all, csn, None) == ReadVersion(s.states, all[1..], csn, None);
  }

  /** A committed version outside the snapshot sits above the base: it is the one that gets dropped. */
  lemma UncoveredIsDropped(s: Db, tx: TxId, row: RowId, index: nat, j: nat)
    requires JournalOk(s) && WriteOrder(s) && Ready(s, tx) && tx in s.snaps && row in s.rows
    requires ChainOk(s, row, s.rows[row], 0) && index < |s.rows[row]| && j < |s.rows[row]|
    requires TxVisible(s.states, s.rows[row][index].beginTx, s.snaps[tx], Some(tx))
    requires s.rows[row][index].beginTx == tx ==> index == 0
    requires StateOf(s.states, s.rows[row][0].beginTx).Aborted?
    requires StateOf(s.states, s.rows[row][j].beginTx).Committed? && s.snaps[tx] < StateOf(s.states, s.rows[row][j].beginTx).csn
    ensures j < index
  {
  }

  /**
   A write keeps every snapshot's reads exactly when its own snapshot covers the row: unless the
   newest version was aborted, always; and if it was, when no version committed after the snapshot.
   */
  lemma WriteIsFaithfulExactly(s: Db, tx: TxId, row: RowId, deleted: bool, payload: Payload)
    requires Inv(s) && Enabled(s, Stage(tx, row, deleted, payload))
    ensures Faithful(AfterWrite(s, tx, row, deleted, payload), row)
            <==> SnapshotCoversRow(s.states, s.rows[row], s.snaps[tx])
  {
    if SnapshotCoversRow(s.states, s.rows[row], s.snaps[tx]) {
      CoveredWriteIsFaithful(s, tx, row, deleted, payload);
    } else {
      UncoveredWriteIsNot(s, tx, row, deleted, payload);
    }
  }

  lemma CoveredWriteIsFaithful(s: Db, tx: TxId, row: RowId, deleted: bool, payload: Payload)
    requires Inv(s) && Enabled(s, Stage(tx, row, deleted, payload))
    requires SnapshotCoversRow(s.states, s.rows[row], s.snaps[tx])
    ensures Faithful(AfterWrite(s, tx, row, deleted, payload), row)
  {
    hide Inv, VisibleForWrite, SnapshotCoversRow, Faithful, Below;
    StepKeepsInv(s, Stage(tx, row, deleted, payload));
    StepKeepsInv(Apply(s, Stage(tx, row, deleted, payload)), Install(tx));
    InvIsFaithful(AfterWrite(s, tx, row, deleted, payload), row);
  }

  lemma UncoveredWriteIsNot(s: Db, tx: TxId, row: RowId, deleted: bool, payload: Payload)
    requires Inv(s) && Enabled(s, Stage(tx, row, deleted, payload))
    requires !SnapshotCoversRow(s.states, s.rows[row], s.snaps[tx])
    ensures !Faithful(AfterWrite(s, tx, row, deleted, payload), row)
  {
    hide CsnsOk, JournalOk, WriteOrder, StagedOk, SnapsOk, AfterWrite, Faithful, FirstVisible, ChainOk, Covers;
    var ch := s.rows[row];
    var index := VisibleForWrite(s.states, ch, s.snaps[tx], tx).index;
    BaseIsInChain(s.states, ch, s.snaps[tx], tx);
    BaseIsVisible(s.states, ch, s.snaps[tx], tx);
    var j :| 0 <= j < |ch| && StateOf(s.states, ch[j].beginTx).Committed? && s.snaps[tx] < StateOf(s.states, ch[j].beginTx).csn;
    OwnVersionIsOnTop(s, tx, row, index);
    UncoveredIsDropped(s, tx, row, index, j);
    DroppedVersionIsLost(s, tx, row, deleted, payload, index, j);
  }

  lemma BaseIsVisible(states: States, ch: Chain, csn: Csn, tx: TxId)
    requires ch != [] && VisibleForWrite(states, ch, csn, tx).Base?
    ensures var i := VisibleForWrite(states, ch, csn, tx).index;
            i < |ch| && !ch[i].deleted && TxVisible(states, ch[i].beginTx, csn, Some(tx))
  {
  }

  // A running transaction's own version cannot lie under another writer's.
  lemma OwnVersionIsOnTop(s: Db, tx: TxId, row: RowId, index: nat)
    requires WriteOrder(s) && Running(s, tx) && row in s.rows && ChainOk(s, row, s.rows[row], 0)
    requires index < |s.rows[row]| && StateOf(s.states, s.rows[row][0].beginTx).Aborted?
    ensures s.rows[row][index].beginTx != tx
  {
  }

  // ---- Inserting into a used row -------------------------------------------------------------

  /** The committed version next above `i`, if there is one. */
  lemma {:induction false} NextCommitted(s: Db, ch: Chain, i: nat) returns (j: Option<nat>)
    requires i <= |ch|
    ensures j.Some? ==> j.value < i && IsCommitted(s.states, ch[j.value].beginTx)
    ensures forall k :: (if j.Some? then j.value + 1 else 0) <= k < i ==> !IsCommitted(s.states, ch[k].beginTx)
  {
    if i == 0 {
      j := None;
    } else if IsCommitted(s.states, ch[i - 1].beginTx) {
      j := Some(i - 1);
    } else {
      j := NextCommitted(s, ch, i - 1);
    }
  }

  ghost predicate SeesNoneAbove(s: Db, ch: Chain, i: nat, csn: Csn, owner: Option<TxId>)
    requires i <= |ch|
  {
    forall j :: 0 <= j < i ==> !TxVisible(s.states, ch[j].beginTx, csn, owner)
  }

  // Facts about two live versions of a chain, the one at `j` newer.
  lemma NewerVersion(s: Db, row: RowId, ch: Chain, j: nat, i: nat)
    requires JournalOk(s) && WriteOrder(s) && FromJournal(s, row, ch) && j < i < |ch|
    requires IsLive(s.states, ch[i].beginTx) && ch[j].beginTx != ch[i].beginTx
    ensures IsCommitted(s.states, ch[i].beginTx)
    ensures IsCommitted(s.states, ch[j].beginTx) ==>
              StateOf(s.states, ch[i].beginTx).csn < StateOf(s.states, ch[j].beginTx).csn
    ensures Reading(s, ch[j].beginTx) ==> StateOf(s.states, ch[i].beginTx).csn <= s.snaps[ch[j].beginTx]
  {
    assert VersionOf(s, row, ch[i]) && VersionOf(s, row, ch[j]);
    assert EntryOk(s, s.journal[ch[j].id]);
  }

  /** A payload that nothing supersedes has a reader. */
  lemma UnsupersededIsRead(s: Db, row: RowId, tx: TxId, i: nat) returns (csn: Csn, owner: Option<TxId>)
    requires JournalOk(s) && WriteOrder(s) && row in s.rows && FromJournal(s, row, s.rows[row])
    requires i < |s.rows[row]| && IsLive(s.states, s.rows[row][i].beginTx) && s.rows[row][i].beginTx != tx
    requires forall j :: 0 <= j < i ==> !Supersedes(s, s.rows[row], tx, j, i)
    ensures Usable(s, csn, owner) && owner != Some(tx) && TxVisible(s.states, s.rows[row][i].beginTx, csn, owner)
    ensures SeesNoneAbove(s, s.rows[row], i, csn, owner)
  {
    var ch, u, p := s.rows[row], s.rows[row][i].beginTx, s.frontier.published;
    if !IsCommitted(s.states, u) {
      assert VersionOf(s, row, ch[i]) && EntryOk(s, s.journal[ch[i].id]);
      csn, owner := s.snaps[u], Some(u);
      if i > 0 {
        assert !Supersedes(s, ch, tx, 0, i);
        NewerVersion(s, row, ch, 0, i);
      }
    } else {
      csn, owner := CommittedIsRead(s, row, tx, i);
    }
  }

  lemma CommittedIsRead(s: Db, row: RowId, tx: TxId, i: nat) returns (csn: Csn, owner: Option<TxId>)
    requires JournalOk(s) && WriteOrder(s) && row in s.rows && FromJournal(s, row, s.rows[row])
    requires i < |s.rows[row]| && IsCommitted(s.states, s.rows[row][i].beginTx)
    requires forall j :: 0 <= j < i ==> !Supersedes(s, s.rows[row], tx, j, i)
    ensures Usable(s, csn, owner) && owner != Some(tx) && TxVisible(s.states, s.rows[row][i].beginTx, csn, owner)
    ensures SeesNoneAbove(s, s.rows[row], i, csn, owner)
  {
    hide JournalOk, WriteOrder, FromJournal;
    var ch, p := s.rows[row], s.frontier.published;
    var c := StateOf(s.states, ch[i].beginTx).csn;
    csn, owner := if c < p then p else c, None;
    var next := NextCommitted(s, ch, i);
    if next.Some? {
      var j := next.value;
      assert !Supersedes(s, ch, tx, j, i);
      NewerVersion(s, row, ch, j, i);
      var d := StateOf(s.states, ch[j].beginTx).csn;
      if d <= p {
        var t :| t in s.snaps && Running(s, t) && t != tx && c <= s.snaps[t] < d;
        csn, owner := s.snaps[t], Some(t);
      }
      NothingSeenAbove(s, row, i, j, csn, owner);
    }
  }

  lemma NothingSeenAbove(s: Db, row: RowId, i: nat, j: nat, csn: Csn, owner: Option<TxId>)
    requires JournalOk(s) && WriteOrder(s) && row in s.rows && FromJournal(s, row, s.rows[row])
    requires j < i < |s.rows[row]| && IsCommitted(s.states, s.rows[row][j].beginTx)
    requires forall k :: j < k < i ==> !IsCommitted(s.states, s.rows[row][k].beginTx)
    requires csn < StateOf(s.states, s.rows[row][j].beginTx).csn && Usable(s, csn, owner)
    ensures SeesNoneAbove(s, s.rows[row], i, csn, owner)
  {
    hide JournalOk, WriteOrder, FromJournal;
    var ch := s.rows[row];
    forall k | 0 <= k < i
      ensures !TxVisible(s.states, ch[k].beginTx, csn, owner)
    {
      if k < j && ch[k].beginTx != ch[j].beginTx {
        NewerVersion(s, row, ch, k, j);
      } else if j < k && IsLive(s.states, ch[k].beginTx) {
        NewerVersion(s, row, ch, j, k);
      }
    }
  }

  lemma InsertState(s: Db, tx: TxId, row: RowId, payload: Payload)
    requires Enabled(s, Insert(tx, row, payload))
    ensures Apply(s, Insert(tx, row, payload)) ==
            s.(rows := s.rows[row := [NewVersion(s, tx, false, payload)]],
               journal := s.journal + [Entry(row, tx, s.snaps[tx], false, payload)])
  {
  }

  /** What a reader saw nothing above is its latest entry, and gone after the insert. */
  lemma OverwrittenIsMissed(s: Db, tx: TxId, row: RowId, payload: Payload, i: nat, csn: Csn, owner: Option<TxId>)
    requires Enabled(s, Insert(tx, row, payload)) && row in s.rows && ChainOk(s, row, s.rows[row], 0)
    requires i < |s.rows[row]| && !s.rows[row][i].deleted
    requires Usable(s, csn, owner) && owner != Some(tx) && TxVisible(s.states, s.rows[row][i].beginTx, csn, owner)
    requires SeesNoneAbove(s, s.rows[row], i, csn, owner)
    ensures !Faithful(Apply(s, Insert(tx, row, payload)), row)
  {
    hide Latest, Replaced, Enabled, Apply;
    InsertState(s, tx, row, payload);
    var s', ch := Apply(s, Insert(tx, row, payload)), s.rows[row];
    var k := Latest(s', row, csn, owner, |s'.journal|);
    LatestIsNewest(s', row, csn, owner);
    assert VersionOf(s, row, ch[i]) && s'.journal[ch[i].id] == s.journal[ch[i].id];
    InserterIsUnseen(s, tx, row, payload, csn, owner);
    assert k.value < |s.journal| && s'.journal[k.value] == s.journal[k.value];
    if Has(ch, k.value) {
      var j :| 0 <= j < |ch| && ch[j].id == k.value;
      assert VersionOf(s, row, ch[j]);
      assert j == i;
    }
    assert Usable(s', csn, owner) && ReplayId(s', row, csn, owner) == Some(ch[i].id);
    UnseenIsNotRead(s.states, NewVersion(s, tx, false, payload), csn, owner);
  }

  lemma UnseenIsNotRead(states: States, v: Version, csn: Csn, owner: Option<TxId>)
    requires !TxVisible(states, v.beginTx, csn, owner)
    ensures ReadVersion(states, [v], csn, owner) == None
  {
    assert [v][1..] == [];
  }

  lemma InserterIsUnseen(s: Db, tx: TxId, row: RowId, payload: Payload, csn: Csn, owner: Option<TxId>)
    requires Enabled(s, Insert(tx, row, payload)) && owner != Some(tx)
    ensures !TxVisible(s.states, tx, csn, owner)
  {
  }

  /**
   An insert keeps every reader's reads exactly when it finds the row vacated: every payload that
   others left in the chain superseded for every reader, in particular under a tombstone committed
   at or below every running snapshot.
   */
  lemma InsertIsFaithfulExactly(s: Db, tx: TxId, row: RowId, payload: Payload)
    requires Inv(s) && Enabled(s, Insert(tx, row, payload))
    ensures Faithful(Apply(s, Insert(tx, row, payload)), row) <==> Vacated(s, row, tx)
  {
    hide CsnsOk, SnapsOk, StagedOk, Faithful, Covers, Supersedes, WriteOrder, JournalOk, Apply;
    if Vacated(s, row, tx) {
      VacatedInsertIsFaithful(s, tx, row, payload);
    } else {
      var ch := s.rows[row];
      var i :| 0 <= i < |ch| && IsLive(s.states, ch[i].beginTx) && !ch[i].deleted && ch[i].beginTx != tx &&
        !exists j :: 0 <= j < i && Supersedes(s, ch, tx, j, i);
      var csn, owner := UnsupersededIsRead(s, row, tx, i);
      OverwrittenIsMissed(s, tx, row, payload, i, csn, owner);
    }
  }

  lemma VacatedInsertIsFaithful(s: Db, tx: TxId, row: RowId, payload: Payload)
    requires Inv(s) && Enabled(s, Insert(tx, row, payload)) && Vacated(s, row, tx)
    ensures Faithful(Apply(s, Insert(tx, row, payload)), row)
  {
    hide CsnsOk, SnapsOk, StagedOk, JournalOk, WriteOrder, ChainOk, Covers, Vacated, ReadersCarryOver, Latest, ReadVersion, Usable, Apply;
    InsertState(s, tx, row, payload);
    var s' := Apply(s, Insert(tx, row, payload));
    UntouchedReaders(s, s');
    InsertedChainOk(s, tx, row, payload, s');
    forall csn, owner | Usable(s', csn, owner)
      ensures ReadId(s', row, csn, owner) == ReplayId(s', row, csn, owner)
    {
      ChainReadsLatest(s', row, s'.rows[row], csn, owner);
    }
  }

  // ---- Inserting over writes not seen --------------------------------------------------------

  lemma {:induction false} GuardedMore(from: Db, acts: seq<Action>, a: Action)
    requires CanRun(from, acts) && GuardedRun(from, acts) && Enabled(Run(from, acts), a) && Guarded(Run(from, acts), a)
    ensures CanRun(from, acts + [a]) && GuardedRun(from, acts + [a]) && Run(from, acts + [a]) == Apply(Run(from, acts), a)
    decreases |acts|
  {
    hide Enabled, Apply, Guarded;
    if acts == [] {
      assert [] + [a] == [a] && [a][1..] == [];
    } else {
      assert (acts + [a])[0] == acts[0] && (acts + [a])[1..] == acts[1..] + [a];
      GuardedMore(Apply(from, acts[0]), acts[1..], a);
    }
  }

  /** The steps lead from one state to the other with every guard met. */
  ghost predicate Leads(from: Db, acts: seq<Action>, s: Db) {
    CanRun(from, acts) && GuardedRun(from, acts) && Run(from, acts) == s
  }

  lemma Onward(from: Db, acts: seq<Action>, s: Db, a: Action) returns (acts': seq<Action>, s': Db)
    requires Leads(from, acts, s) && Enabled(s, a) && !a.Stage? && !a.Insert? && !a.VacuumRow?
    ensures s' == Apply(s, a) && Leads(from, acts', s')
  {
    hide Enabled, Apply, CanRun, GuardedRun, Run;
    acts', s' := acts + [a], Apply(s, a);
    GuardedMore(from, acts, a);
  }

  /** A running transaction can always go on to commit, above every snapshot there is. */
  lemma CanCommit(from: Db, acts: seq<Action>, s: Db, tx: TxId) returns (acts': seq<Action>, s': Db)
    requires Leads(from, acts, s) && Running(s, tx) && (tx in s.staged ==> tx !in s.reserved) && tx in s.states
    requires s.frontier.published < s.nextCsn && (tx in s.reserved ==> s.frontier.published < s.reserved[tx])
    ensures Leads(from, acts', s') && s'.journal == s.journal && s'.snaps == s.snaps && s'.frontier == s.frontier
    ensures tx in s'.states && s'.states[tx].Committed? && s'.states[tx].csn > s.frontier.published
    ensures s'.nextCsn >= s.nextCsn && forall t <- s.states :: t != tx ==> t in s'.states && s'.states[t] == s.states[t]
    ensures forall t :: t != tx ==> (t in s'.staged <==> t in s.staged) && (t in s'.reserved <==> t in s.reserved)
  {
    hide Leads;
    acts', s' := acts, s;
    if tx in s.staged {
      acts', s' := Onward(from, acts', s', Unstage(tx));
    }
    if tx !in s.reserved {
      acts', s' := Onward(from, acts', s', Reserve(tx));
    }
    acts', s' := Onward(from, acts', s', MarkCommitted(tx));
  }

  /** An insert over a write it has not seen can end with both committed. */
  lemma UnseenIsLost(s: Db, tx: TxId, row: RowId, payload: Payload) returns (acts: seq<Action>)
    requires Inv(s) && Enabled(s, Insert(tx, row, payload)) && !EarlierWritesSeen(s, row, tx)
    ensures var s1 := Apply(s, Insert(tx, row, payload));
            CanRun(s1, acts) && GuardedRun(s1, acts) && !NothingIsLost(Run(s1, acts))
  {
    hide Leads, ChainOk, WriteOrder;
    var s1 := Apply(s, Insert(tx, row, payload));
    var k :| 0 <= k < |s.journal| && s.journal[k].row == row && s.journal[k].tx != tx &&
      IsLive(s.states, s.journal[k].tx) && !TxVisible(s.states, s.journal[k].tx, s.snaps[tx], None);
    var t := s.journal[k].tx;
    assert EntryOk(s, s.journal[k]);
    var m := s1;
    acts := [];
    assert Leads(s1, acts, s1) by { StartsHere(s1); }
    if Running(s, t) {
      assert t in s.staged ==> StagedOk(s, t);
      acts, m := CanCommit(s1, acts, s1, t);
    }
    var last;
    acts, last := CanCommit(s1, acts, m, tx);
    assert Leads(s1, acts, last);
    LeadsThere(s1, acts, last);
    var n := |s.journal|;
    assert last.journal == s.journal + [Entry(row, tx, s.snaps[tx], false, payload)];
    assert last.journal[k] == s.journal[k] && last.journal[n].tx == tx && SameRow(last, k, n);
  }

  lemma StartsHere(s: Db)
    ensures Leads(s, [], s)
  {
  }

  lemma LeadsThere(from: Db, acts: seq<Action>, s: Db)
    requires Leads(from, acts, s)
    ensures CanRun(from, acts) && GuardedRun(from, acts) && Run(from, acts) == s
  {
  }

  /**
   An insert on a vacated row leaves no committed update lost in any guarded continuation exactly
   when the inserter has seen every earlier write of the row that is not rolled back.
   */
  lemma InsertKeepsUpdatesExactly(s: Db, tx: TxId, row: RowId, payload: Payload)
    requires Inv(s) && Enabled(s, Insert(tx, row, payload)) && Vacated(s, row, tx)
    ensures var s1 := Apply(s, Insert(tx, row, payload));
            (forall acts :: CanRun(s1, acts) && GuardedRun(s1, acts) ==> NothingIsLost(Run(s1, acts)))
            <==> EarlierWritesSeen(s, row, tx)
  {
    hide CanRun, GuardedRun, Run, Inv, NothingIsLost, Vacated, EarlierWritesSeen;
    var s1 := Apply(s, Insert(tx, row, payload));
    if EarlierWritesSeen(s, row, tx) {
      StepKeepsInv(s, Insert(tx, row, payload));
      forall acts | CanRun(s1, acts) && GuardedRun(s1, acts)
        ensures NothingIsLost(Run(s1, acts))
      {
        RunKeepsInv(s1, acts);
        InvLosesNothing(Run(s1, acts));
      }
    } else {
      var acts := UnseenIsLost(s, tx, row, payload);
    }
  }

  // ---- Vacuum --------------------------------------------------------------------------------

  /**
   Vacuum keeps every reader's reads exactly when it leaves the row alone, or every running snapshot
   that reads something there is at or above the commit number of its head.
   */
  lemma VacuumIsFaithfulExactly(s: Db, row: RowId)
    requires Inv(s) && Enabled(s, VacuumRow(row))
    ensures Faithful(Apply(s, VacuumRow(row)), row) <==> SparesReaders(s, row)
  {
    hide Inv, Faithful, SparesReaders, AfterVacuum;
    if SparesReaders(s, row) {
      VacuumOk(s, row);
      InvIsFaithful(AfterVacuum(s, row), row);
    } else {
      UnsparedReaderMisses(s, row);
    }
  }

  predicate CommittedBefore(s: Db, tx: TxId, csn: Csn) {
    StateOf(s.states, tx).Committed? && StateOf(s.states, tx).csn < csn
  }

  /** Every version but the oldest was written below the horizon. */
  predicate PassedBy(s: Db, ch: Chain) {
    forall i :: 0 <= i < |ch| - 1 ==> CommittedBefore(s, ch[i].beginTx, s.horizon)
  }

  /**
   Vacuum takes a row exactly when its head is a delete committed below the horizon, cuts it to its
   head exactly when the head is a payload and every version but the oldest was written below the
   horizon, and else leaves it; it touches nothing else.
   */
  lemma VacuumReclaimsExactly(s: Db, row: RowId)
    requires Inv(s) && Enabled(s, VacuumRow(row))
    ensures var ch, s' := s.rows[row], Apply(s, VacuumRow(row));
            && s' == s.(rows := s'.rows) && s'.rows - {row} == s.rows - {row}
            && (row !in s'.rows <==> ch[0].deleted && CommittedBefore(s, ch[0].beginTx, s.horizon))
            && (row in s'.rows ==> s'.rows[row] == if !ch[0].deleted && PassedBy(s, ch) then [ch[0]] else ch)
  {
    hide SnapsOk, JournalOk, WriteOrder, StagedOk, FromJournal, Covers;
    var ch := s.rows[row];
    assert ChainOk(s, row, ch, 0);
    EndedIsPassedBy(s, ch);
    if |ch| == 1 {
      assert ch == [ch[0]];
    }
  }

  lemma EndedIsPassedBy(s: Db, ch: Chain)
    requires Links(ch, 0) && 0 !in s.states
    ensures AllEnded(s.states, ch[1..], s.horizon) <==> PassedBy(s, ch)
  {
    var older := ch[1..];
    assert forall i :: 0 <= i < |older| ==> older[i].endTx == ch[i + 1].endTx == ch[i].beginTx;
    if AllEnded(s.states, older, s.horizon) {
      forall i | 0 <= i < |ch| - 1
        ensures CommittedBefore(s, ch[i].beginTx, s.horizon)
      {
        assert older[i] in older && older[i].endTx == ch[i].beginTx;
      }
    } else {
      var v :| v in older && !(v.endTx != 0 && CommittedBefore(s, v.endTx, s.horizon));
      var i :| 0 <= i < |older| && older[i] == v;
      assert ch[i].beginTx == v.endTx;
    }
  }

  lemma UnsparedReaderMisses(s: Db, row: RowId)
    requires Inv(s) && row in s.rows && s.rows[row] != [] && !SparesReaders(s, row)
    ensures !Faithful(AfterVacuum(s, row), row)
  {
    hide CsnsOk, SnapsOk, StagedOk, JournalOk, WriteOrder, ChainOk, Covers, Latest, AllEnded;
    var ch, s' := s.rows[row], AfterVacuum(s, row);
    var t :| t in s.snaps && Running(s, t) && Read(s, row, s.snaps[t], Some(t)).Some? &&
      !(StateOf(s.states, ch[0].beginTx).Committed? && StateOf(s.states, ch[0].beginTx).csn <= s.snaps[t]);
    ReadIsLatest(s, row, s.snaps[t], Some(t));
    SameReplay(s, s', row, s.snaps[t], Some(t));
    assert Usable(s', s.snaps[t], Some(t)) && ReplayId(s', row, s.snaps[t], Some(t)).Some?;
    assert !TxVisible(s.states, ch[0].beginTx, s.snaps[t], Some(t));
    UnseenIsNotRead(s.states, ch[0], s.snaps[t], Some(t));
  }

  lemma {:induction false} SameLatest(s: Db, s': Db, row: RowId, csn: Csn, owner: Option<TxId>, n: nat)
    requires s' == s.(rows := s'.rows) && n <= |s.journal|
    ensures Latest(s', row, csn, owner, n) == Latest(s, row, csn, owner, n)
  {
    if n > 0 {
      SameLatest(s, s', row, csn, owner, n - 1);
    }
  }

  lemma SameReplay(s: Db, s': Db, row: RowId, csn: Csn, owner: Option<TxId>)
    requires s' == s.(rows := s'.rows)
    ensures ReplayId(s', row, csn, owner) == ReplayId(s, row, csn, owner)
  {
    hide Latest;
    SameLatest(s, s', row, csn, owner, |s.journal|);
  }

  // ---- Concrete runs -------------------------------------------------------------------------

  lemma {:induction false} RunExtends(s: Db, acts: seq<Action>, a: Action)
    requires CanRun(s, acts) && Enabled(Run(s, acts), a)
    ensures CanRun(s, acts + [a]) && Run(s, acts + [a]) == Apply(Run(s, acts), a)
    decreases |acts|
  {
    hide Enabled, Apply;
    if acts == [] {
      assert (acts + [a])[1..] == [];
    } else {
      assert (acts + [a])[1..] == acts[1..] + [a];
      RunExtends(Apply(s, acts[0]), acts[1..], a);
    }
  }

  lemma Do(from: Db, acts: seq<Action>, s: Db, a: Action) returns (acts': seq<Action>, s': Db)
    requires CanRun(from, acts) && Run(from, acts) == s && Enabled(s, a)
    ensures CanRun(from, acts') && Run(from, acts') == s' && s' == Apply(s, a)
  {
    hide CanRun, Run, Enabled, Apply;
    RunExtends(from, acts, a);
    acts', s' := acts + [a], Apply(s, a);
  }

  // Transaction 1 inserts "w" into row 0 and commits as number 1.
  const DB_W := Db(map[1 := Committed(1)], 2, 2, Frontier(1, {}, {}), map[], map[], map[], 0, map[], map[],
                   map[0 := [Version(0, 1, 0, false, "w")]], [Entry(0, 1, 0, false, "w")])

  // Transaction 2 takes snapshot 1; transaction 3 overwrites the row with "v" and commits as number 2.
  const DB_V := Db(map[1 := Committed(1), 2 := InProgress, 3 := Committed(2)], 4, 3, Frontier(2, {}, {}), map[],
                   map[2 := 1], map[], 0, map[], map[],
                   map[0 := [Version(1, 3, 0, false, "v"), Version(0, 1, 3, false, "w")]],
                   [Entry(0, 1, 0, false, "w"), Entry(0, 3, 1, false, "v")])

  // Transaction 4 overwrites the row with "x" and rolls back.
  const DB_X := Db(map[1 := Committed(1), 2 := InProgress, 3 := Committed(2), 4 := Aborted], 5, 3, Frontier(2, {}, {}), map[],
                   map[2 := 1], map[], 0, map[], map[],
                   map[0 := [Version(2, 4, 0, false, "x"), Version(1, 3, 4, false, "v"), Version(0, 1, 3, false, "w")]],
                   [Entry(0, 1, 0, false, "w"), Entry(0, 3, 1, false, "v"), Entry(0, 4, 2, false, "x")])

  lemma EmptyRun(s: Db)
    ensures CanRun(s, []) && Run(s, []) == s
  {
  }

  // Stretches of a run, from any state.

  function Started(s: Db): Db {
    s.(states := s.states[s.nextTx := InProgress], nextTx := s.nextTx + 1,
       snaps := s.snaps[s.nextTx := s.frontier.published])
  }

  lemma Start(from: Db, acts: seq<Action>, s: Db) returns (acts': seq<Action>)
    requires CanRun(from, acts) && Run(from, acts) == s && s.nextTx !in s.staged && s.nextTx !in s.reserved
    ensures CanRun(from, acts') && Run(from, acts') == Started(s)
  {
    hide CanRun, Run;
    var t := s.nextTx;
    var s1, s2;
    acts', s1 := Do(from, acts, s, Begin);
    acts', s2 := Do(from, acts', s1, TakeSnapshot(t));
  }

  function Written(s: Db, tx: TxId, row: RowId, deleted: bool, payload: Payload, index: nat): Db
    requires row in s.rows && index < |s.rows[row]| && tx in s.snaps
  {
    s.(rows := s.rows[row := [NewVersion(s, tx, deleted, payload)] + Below(s.rows[row], index, tx)],
       locks := s.locks[row := tx], staged := s.staged - {tx},
       journal := s.journal + [Entry(row, tx, s.snaps[tx], deleted, payload)])
  }

  lemma Write(from: Db, acts: seq<Action>, s: Db, tx: TxId, row: RowId, deleted: bool, payload: Payload, index: nat)
    returns (acts': seq<Action>)
    requires CanRun(from, acts) && Run(from, acts) == s
    requires Ready(s, tx) && tx in s.snaps && row !in s.locks && row in s.rows && index < |s.rows[row]|
    requires VisibleForWrite(s.states, s.rows[row], s.snaps[tx], tx) == Base(index)
    ensures CanRun(from, acts') && Run(from, acts') == Written(s, tx, row, deleted, payload, index)
  {
    hide CanRun, Run, VisibleForWrite, Below;
    var s1, s2, s3;
    acts', s1 := Do(from, acts, s, Lock(tx, row));
    acts', s2 := Do(from, acts', s1, Stage(tx, row, deleted, payload));
    acts', s3 := Do(from, acts', s2, Install(tx));
    assert s2.staged - {tx} == s.staged - {tx};
  }

  function Closed(s: Db, tx: TxId, state: TxState): Db {
    s.(states := s.states[tx := state], snaps := s.snaps - {tx}, active := s.active - {tx},
       locks := map r | r in s.locks && s.locks[r] != tx :: s.locks[r])
  }

  lemma Commit(from: Db, acts: seq<Action>, s: Db, tx: TxId) returns (acts': seq<Action>)
    requires CanRun(from, acts) && Run(from, acts) == s && Ready(s, tx)
    requires s.nextCsn > 0 && s.frontier == Frontier(s.nextCsn - 1, {}, {})
    ensures CanRun(from, acts')
    ensures Run(from, acts') == Closed(s, tx, Committed(s.nextCsn)).(nextCsn := s.nextCsn + 1, frontier := Frontier(s.nextCsn, {}, {}),
                                                                     reserved := s.reserved - {tx})
  {
    hide CanRun, Run, Advance;
    var s1, s2, s3, s4;
    acts', s1 := Do(from, acts, s, Reserve(tx));
    acts', s2 := Do(from, acts', s1, MarkCommitted(tx));
    AdvanceOne(s2.frontier, s.nextCsn);
    acts', s3 := Do(from, acts', s2, Complete(tx));
    acts', s4 := Do(from, acts', s3, Finish(tx));
    assert s3.reserved == s.reserved - {tx};
  }

  lemma AdvanceOne(f: Frontier, c: Csn)
    requires f.completed == {} && f.skipped == {} && c == f.published + 1
    ensures Advance(f.(completed := f.completed + {c})) == Frontier(c, {}, {})
  {
  }

  lemma RollBack(from: Db, acts: seq<Action>, s: Db, tx: TxId) returns (acts': seq<Action>)
    requires CanRun(from, acts) && Run(from, acts) == s && Ready(s, tx)
    ensures CanRun(from, acts') && Run(from, acts') == Closed(s, tx, Aborted)
  {
    hide CanRun, Run;
    var s1, s2;
    acts', s1 := Do(from, acts, s, Abort(tx));
    acts', s2 := Do(from, acts', s1, Finish(tx));
    assert s.active - {tx} - {tx} == s.active - {tx};
  }

  lemma CommitFirst() returns (acts: seq<Action>)
    ensures CanRun(Init(), acts) && Run(Init(), acts) == DB_W
  {
    hide CanRun, Run;
    EmptyRun(Init());
    acts := Start(Init(), [], Init());
    var s := Started(Init());
    acts, s := Do(Init(), acts, s, Insert(1, 0, "w"));
    acts := Commit(Init(), acts, s, 1);
    s := Run(Init(), acts);
    assert s.states == DB_W.states && s.reserved == DB_W.reserved && s.snaps == DB_W.snaps && s.locks == DB_W.locks;
    assert s.rows == DB_W.rows && s.journal == DB_W.journal;
  }

  lemma OverwriteAndCommit(before: seq<Action>) returns (acts: seq<Action>)
    requires CanRun(Init(), before) && Run(Init(), before) == DB_W
    ensures CanRun(Init(), acts) && Run(Init(), acts) == DB_V
  {
    hide CanRun, Run;
    acts := Start(Init(), before, DB_W);
    var s := Started(DB_W);
    acts := Start(Init(), acts, s);
    s := Started(s);
    acts := Write(Init(), acts, s, 3, 0, false, "v", 0);
    s := Written(s, 3, 0, false, "v", 0);
    assert s.rows[0] == DB_V.rows[0];
    acts := Commit(Init(), acts, s, 3);
    s := Run(Init(), acts);
    assert s.states == DB_V.states && s.reserved == DB_V.reserved && s.snaps == DB_V.snaps && s.active == DB_V.active;
    assert s.rows == DB_V.rows && s.journal == DB_V.journal && s.locks == DB_V.locks && s.staged == DB_V.staged;
  }

  lemma OverwriteAndRollBack(before: seq<Action>) returns (acts: seq<Action>)
    requires CanRun(Init(), before) && Run(Init(), before) == DB_V
    ensures CanRun(Init(), acts) && Run(Init(), acts) == DB_X
  {
    hide CanRun, Run;
    acts := Start(Init(), before, DB_V);
    var s := Started(DB_V);
    acts := Write(Init(), acts, s, 4, 0, false, "x", 0);
    s := Written(s, 4, 0, false, "x", 0);
    assert s.rows[0] == DB_X.rows[0];
    acts := RollBack(Init(), acts, s, 4);
    s := Closed(s, 4, Aborted);
    assert s.states == DB_X.states && s.snaps == DB_X.snaps && s.active == DB_X.active;
    assert s.rows == DB_X.rows && s.journal == DB_X.journal && s.locks == DB_X.locks && s.staged == DB_X.staged;
  }

  /**
   Without the guard a committed update is lost. Transaction 2, whose snapshot predates the
   committed "v", writes over the aborted "x": the walk passes "v" and stops at "w". A new reader
   then reads "w" where it read "v" before.
   */
  lemma UpdateIsLost() returns (before: seq<Action>, after: seq<Action>)
    ensures CanRun(Init(), before) && CanRun(Run(Init(), before), after)
    ensures var s := Run(Init(), before);
            && Usable(s, 2, None) && Usable(Run(s, after), 2, None)
            && Read(s, 0, 2, None) == Some("v") && Read(Run(s, after), 0, 2, None) == Some("w")
  {
    hide CanRun, Run, Read, VisibleForWrite;
    before := CommitFirst();
    before := OverwriteAndCommit(before);
    before := OverwriteAndRollBack(before);
    EmptyRun(DB_X);
    WalkPassesCommitted();
    after := Write(DB_X, [], DB_X, 2, 0, false, "n", 2);
    ReadsDiffer();
  }

  lemma WalkPassesCommitted()
    ensures VisibleForWrite(DB_X.states, DB_X.rows[0], 1, 2) == Base(2)
  {
  }

  lemma ReadsDiffer()
    ensures Read(DB_X, 0, 2, None) == Some("v")
    ensures Read(Written(DB_X, 2, 0, false, "n", 2), 0, 2, None) == Some("w")
  {
    var ch := DB_X.rows[0];
    assert ReadVersion(DB_X.states, ch[1..], 2, None) == Some(ch[1]);
    var ch' := Written(DB_X, 2, 0, false, "n", 2).rows[0];
    assert ch'[1..] == [Version(0, 1, 2, false, "w")];
    assert ReadVersion(DB_X.states, ch'[1..], 2, None) == Some(ch'[1]);
  }

  // Transaction 4 commits elsewhere as number 3.
  const DB_Z := Db(map[1 := Committed(1), 2 := InProgress, 3 := Committed(2), 4 := Committed(3)], 5, 4, Frontier(3, {}, {}), map[],
                   map[2 := 1], map[], 0, map[], map[],
                   map[0 := [Version(1, 3, 0, false, "v"), Version(0, 1, 3, false, "w")], 1 := [Version(2, 4, 0, false, "z")]],
                   [Entry(0, 1, 0, false, "w"), Entry(0, 3, 1, false, "v"), Entry(1, 4, 2, false, "z")])

  lemma CommitElsewhere(before: seq<Action>) returns (acts: seq<Action>)
    requires CanRun(Init(), before) && Run(Init(), before) == DB_V
    ensures CanRun(Init(), acts) && Run(Init(), acts) == DB_Z
  {
    hide CanRun, Run;
    acts := Start(Init(), before, DB_V);
    var s := Started(DB_V);
    acts, s := Do(Init(), acts, s, Insert(4, 1, "z"));
    acts := Commit(Init(), acts, s, 4);
    s := Run(Init(), acts);
    assert s.states == DB_Z.states && s.reserved == DB_Z.reserved && s.snaps == DB_Z.snaps && s.active == DB_Z.active;
    assert s.rows == DB_Z.rows && s.journal == DB_Z.journal && s.locks == DB_Z.locks && s.staged == DB_Z.staged;
  }

  /**
   Without the guard vacuum takes a row from a reader. Transaction 2 has snapshot 1 but has not
   registered it, so the horizon is 3 and the version it needs is pruned.
   */
  lemma UnregisteredReaderLosesRow() returns (before: seq<Action>, after: seq<Action>)
    ensures CanRun(Init(), before) && CanRun(Run(Init(), before), after)
    ensures var s := Run(Init(), before);
            && Reading(s, 2) && s.snaps[2] == 1 && Reading(Run(s, after), 2) && Run(s, after).snaps[2] == 1
            && Read(s, 0, 1, Some(2)) == Some("w") && Read(Run(s, after), 0, 1, Some(2)) == None
  {
    hide CanRun, Run, Read;
    before := CommitFirst();
    before := OverwriteAndCommit(before);
    before := CommitElsewhere(before);
    EmptyRun(DB_Z);
    var s;
    after, s := Do(DB_Z, [], DB_Z, ComputeHorizon(3));
    after, s := Do(DB_Z, after, s, VacuumRow(0));
    PrunedTooEarly();
  }

  lemma PrunedTooEarly()
    ensures Read(DB_Z, 0, 1, Some(2)) == Some("w")
    ensures Read(AfterVacuum(DB_Z.(horizon := 3), 0), 0, 1, Some(2)) == None
  {
    var ch := DB_Z.rows[0];
    assert ReadVersion(DB_Z.states, ch[1..], 1, Some(2)) == Some(ch[1]);
    assert ch[1..] == [Version(0, 1, 3, false, "w")];
    var s := DB_Z.(horizon := 3);
    assert StateOf(s.states, ch[0].beginTx) == Committed(2);
    assert AllEnded(s.states, ch[1..], 3);
    assert AfterVacuum(s, 0).rows[0] == [ch[0]];
    UnseenIsNotRead(s.states, ch[0], 1, Some(2));
  }

  // After "w" is committed, transaction 2 registers snapshot 1 and transaction 3 deletes the row as number 2.
  const DB_D := Db(map[1 := Committed(1), 2 := InProgress, 3 := Committed(2)], 4, 3, Frontier(2, {}, {}), map[],
                   map[2 := 1], map[2 := 1], 0, map[], map[],
                   map[0 := [Version(1, 3, 0, true, ""), Version(0, 1, 3, false, "w")]],
                   [Entry(0, 1, 0, false, "w"), Entry(0, 3, 1, true, "")])

  lemma DeleteAndCommit(before: seq<Action>) returns (acts: seq<Action>)
    requires CanRun(Init(), before) && Run(Init(), before) == DB_W
    ensures CanRun(Init(), acts) && Run(Init(), acts) == DB_D
  {
    hide CanRun, Run;
    acts := Start(Init(), before, DB_W);
    var s := Started(DB_W);
    acts, s := Do(Init(), acts, s, Register(2));
    acts := Start(Init(), acts, s);
    s := Started(s);
    acts := Write(Init(), acts, s, 3, 0, true, "", 0);
    s := Written(s, 3, 0, true, "", 0);
    assert s.rows[0] == DB_D.rows[0];
    acts := Commit(Init(), acts, s, 3);
    s := Run(Init(), acts);
    assert s.states == DB_D.states && s.reserved == DB_D.reserved && s.snaps == DB_D.snaps && s.active == DB_D.active;
    assert s.rows == DB_D.rows && s.journal == DB_D.journal && s.locks == DB_D.locks && s.staged == DB_D.staged;
  }

  /**
   Without the guard an insert hides a row. Transaction 2 has registered the snapshot that holds
   "w"; the row is deleted and its id used again, and the new version has no undo to walk.
   */
  lemma ReinsertHidesRow() returns (before: seq<Action>, after: seq<Action>)
    ensures CanRun(Init(), before) && CanRun(Run(Init(), before), after)
    ensures var s := Run(Init(), before);
            && Usable(s, 1, Some(2)) && 2 in s.active && s.active[2] == 1 && Usable(Run(s, after), 1, Some(2))
            && Read(s, 0, 1, Some(2)) == Some("w") && Read(Run(s, after), 0, 1, Some(2)) == None
  {
    hide CanRun, Run, Read;
    before := CommitFirst();
    before := DeleteAndCommit(before);
    EmptyRun(DB_D);
    after := Start(DB_D, [], DB_D);
    var s := Started(DB_D);
    after, s := Do(DB_D, after, s, Insert(4, 0, "n"));
    HiddenByInsert(s);
  }

  lemma HiddenByInsert(s: Db)
    requires s == Apply(Started(DB_D), Insert(4, 0, "n"))
    ensures Read(DB_D, 0, 1, Some(2)) == Some("w") && Read(s, 0, 1, Some(2)) == None
  {
    var ch := DB_D.rows[0];
    assert ch[1..] == [Version(0, 1, 3, false, "w")];
    assert ReadVersion(DB_D.states, ch[1..], 1, Some(2)) == Some(ch[1]);
    assert s.rows[0] == [Version(2, 4, 0, false, "n")];
    UnseenIsNotRead(s.states, Version(2, 4, 0, false, "n"), 1, Some(2));
  }

  /**
   Without the guard a committed delete is lost. Transaction 2 has snapshot 1; the row is deleted as
   number 2, and no one else reads in between, so the row is vacated. Transaction 2 then inserts it
   again and commits as number 3 without having seen the delete.
   */
  lemma InsertLosesUpdate() returns (before: seq<Action>, after: seq<Action>)
    ensures CanRun(Init(), before) && CanRun(Run(Init(), before), after)
    ensures var s := Run(Init(), before);
            && 2 in s.snaps && Vacated(s, 0, 2) && NothingIsLost(s) && !NothingIsLost(Run(s, after))
  {
    hide CanRun, Run, Vacated, NothingIsLost;
    before := CommitFirst();
    before := DeleteAndCommit(before);
    EmptyRun(DB_D);
    var s;
    after, s := Do(DB_D, [], DB_D, Insert(2, 0, "n"));
    after := Commit(DB_D, after, s, 2);
    DeleteIsLost(Run(DB_D, after));
  }

  lemma DeleteIsLost(s: Db)
    requires s.journal == DB_D.journal + [Entry(0, 2, 1, false, "n")]
    requires s.states == DB_D.states[2 := Committed(3)]
    ensures Vacated(DB_D, 0, 2) && NothingIsLost(DB_D) && !NothingIsLost(s)
  {
    var ch := DB_D.rows[0];
    assert Supersedes(DB_D, ch, 2, 0, 1);
    assert s.journal[1] == DB_D.journal[1] && s.journal[2] == Entry(0, 2, 1, false, "n");
    assert SameRow(s, 1, 2);
  }
}
