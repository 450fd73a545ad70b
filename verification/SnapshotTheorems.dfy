/** The promises of the snapshot system, stated over whole runs. */
module SnapshotTheorems {
  import opened Chars
  import opened Mvcc
  import opened SnapshotReads

  ghost predicate CanRun(s: Db, acts: seq<Action>)
    decreases |acts|
  {
    acts == [] || (Enabled(s, acts[0]) && CanRun(Apply(s, acts[0]), acts[1..]))
  }

  ghost function Run(s: Db, acts: seq<Action>): Db
    requires CanRun(s, acts)
    decreases |acts|
  {
    if acts == [] then s else Run(Apply(s, acts[0]), acts[1..])
  }

  /** Every step of the run meets the conditions of `Guarded`. */
  ghost predicate GuardedRun(s: Db, acts: seq<Action>)
    requires CanRun(s, acts)
    decreases |acts|
  {
    acts == [] || (Guarded(s, acts[0]) && GuardedRun(Apply(s, acts[0]), acts[1..]))
  }

  lemma {:induction false} RunKeepsInv(s: Db, acts: seq<Action>)
    requires Inv(s) && CanRun(s, acts) && GuardedRun(s, acts)
    ensures Inv(Run(s, acts))
    decreases |acts|
  {
    hide Inv, Enabled, Apply, Guarded;
    if acts != [] {
      StepKeepsInv(s, acts[0]);
      RunKeepsInv(Apply(s, acts[0]), acts[1..]);
    }
  }

  /** In every guarded run, every reader reads the journal replayed at its snapshot, its own writes included. */
  lemma TransactionsReadTheirSnapshot(acts: seq<Action>, row: RowId, csn: Csn, owner: Option<TxId>)
    requires CanRun(Init(), acts) && GuardedRun(Init(), acts) && Usable(Run(Init(), acts), csn, owner)
    ensures var s := Run(Init(), acts);
            Read(s, row, csn, owner) == Replay(s, row, csn, owner)
  {
    hide CanRun, GuardedRun, Run, Read, Replay, Inv, Usable;
    InitOk();
    RunKeepsInv(Init(), acts);
    ReadIsReplay(Run(Init(), acts), row, csn, owner);
  }

  // ---- Reads do not change -------------------------------------------------------------------

  lemma StatesStep(s: Db, a: Action)
    requires Enabled(s, a)
    ensures var states := Apply(s, a).states;
            || states == s.states
            || states == s.states[s.nextTx := InProgress]
            || (a.MarkCommitted? && a.tx in s.reserved && Running(s, a.tx) && states == s.states[a.tx := Committed(s.reserved[a.tx])])
            || (a.Abort? && Running(s, a.tx) && states == s.states[a.tx := Aborted])
  {
    hide Advance, AfterVacuum, VisibleForWrite, IsOldestActive, Below;
  }

  /** Whatever happens next, a published snapshot sees the same transactions. */
  lemma VisibilityIsStable(s: Db, a: Action, csn: Csn, tx: TxId)
    requires CsnsOk(s) && Enabled(s, a) && csn <= s.frontier.published
    ensures TxVisible(Apply(s, a).states, tx, csn, None) <==> TxVisible(s.states, tx, csn, None)
  {
    hide Apply, Enabled;
    StatesStep(s, a);
    assert s.nextTx !in s.states;
  }

  lemma JournalGrows(s: Db, a: Action)
    requires Enabled(s, a)
    ensures var s' := Apply(s, a);
            && |s.journal| <= |s'.journal| <= |s.journal| + 1
            && s'.journal[..|s.journal|] == s.journal
            && (|s'.journal| > |s.journal| ==>
                  (a.Install? || a.Insert?) && s'.states == s.states && s'.journal[|s.journal|].tx == a.tx)
  {
    hide Advance, AfterVacuum, VisibleForWrite, IsOldestActive, Below;
  }

  lemma {:induction false} LatestIsStable(s: Db, s': Db, row: RowId, csn: Csn, owner: Option<TxId>, n: nat)
    requires n <= |s.journal| <= |s'.journal| && s'.journal[..|s.journal|] == s.journal
    requires forall tx :: TxVisible(s'.states, tx, csn, owner) <==> TxVisible(s.states, tx, csn, owner)
    ensures Latest(s', row, csn, owner, n) == Latest(s, row, csn, owner, n)
  {
  }

  /** Only the reader's own write to the row changes what the journal gives it. */
  lemma StepKeepsReplay(s: Db, a: Action, row: RowId, csn: Csn, owner: Option<TxId>)
    requires CsnsOk(s) && Enabled(s, a) && csn <= s.frontier.published
    requires (a.Install? || a.Insert?) && owner != Some(a.tx) ==> Running(s, a.tx)
    requires var s' := Apply(s, a);
             forall k :: |s.journal| <= k < |s'.journal| && s'.journal[k].row == row ==> owner != Some(s'.journal[k].tx)
    ensures Replay(Apply(s, a), row, csn, owner) == Replay(s, row, csn, owner)
    ensures csn <= Apply(s, a).frontier.published
  {
    hide CsnsOk, Apply, Enabled;
    var s' := Apply(s, a);
    forall tx ensures TxVisible(s'.states, tx, csn, owner) <==> TxVisible(s.states, tx, csn, owner) {
      VisibilityIsStable(s, a, csn, tx);
    }
    JournalGrows(s, a);
    LatestIsStable(s, s', row, csn, owner, |s.journal|);
    PublishedGrows(s, a);
    var k := Latest(s, row, csn, owner, |s.journal|);
    if k.Some? {
      assert s'.journal[k.value] == s'.journal[..|s.journal|][k.value];
    }
  }

  lemma WritersAreRunning(s: Db, a: Action)
    requires Inv(s) && Enabled(s, a)
    ensures a.Install? || a.Insert? ==> Running(s, a.tx)
  {
  }

  lemma PublishedGrows(s: Db, a: Action)
    requires CsnsOk(s) && Enabled(s, a)
    ensures s.frontier.published <= Apply(s, a).frontier.published
  {
    hide Advance, AfterVacuum, VisibleForWrite, IsOldestActive, Below;
    if a.Complete? {
      AdvanceStopsAtFirstGap(s.frontier.(completed := s.frontier.completed + {s.reserved[a.tx]}));
    } else if a.Skip? {
      AdvanceStopsAtFirstGap(s.frontier.(skipped := s.frontier.skipped + {s.reserved[a.tx]}));
    }
  }

  ghost predicate WritesNothing(tx: Option<TxId>, row: RowId, s: Db, s': Db) {
    forall k :: |s.journal| <= k < |s'.journal| && s'.journal[k].row == row ==> tx != Some(s'.journal[k].tx)
  }

  lemma {:induction false} JournalIsKept(s: Db, acts: seq<Action>)
    requires CanRun(s, acts)
    ensures |s.journal| <= |Run(s, acts).journal| && Run(s, acts).journal[..|s.journal|] == s.journal
    decreases |acts|
  {
    hide Enabled, Apply;
    if acts != [] {
      var s', t := Apply(s, acts[0]), Run(s, acts);
      JournalGrows(s, acts[0]);
      JournalIsKept(s', acts[1..]);
      assert t.journal[..|s.journal|] == t.journal[..|s'.journal|][..|s.journal|];
    }
  }

  lemma {:induction false} RunKeepsReplay(s: Db, acts: seq<Action>, row: RowId, csn: Csn, owner: Option<TxId>)
    requires Inv(s) && CanRun(s, acts) && GuardedRun(s, acts) && csn <= s.frontier.published
    requires WritesNothing(owner, row, s, Run(s, acts))
    ensures Replay(Run(s, acts), row, csn, owner) == Replay(s, row, csn, owner)
    decreases |acts|
  {
    hide Inv, Enabled, Apply, Guarded, Replay;
    if acts != [] {
      var s', t := Apply(s, acts[0]), Run(s, acts);
      JournalGrows(s, acts[0]);
      JournalIsKept(s', acts[1..]);
      assert forall k :: 0 <= k < |s'.journal| ==> s'.journal[k] == t.journal[..|s'.journal|][k] == t.journal[k];
      WritersAreRunning(s, acts[0]);
      InvHasBooks(s);
      StepKeepsReplay(s, acts[0], row, csn, owner);
      StepKeepsInv(s, acts[0]);
      RunKeepsReplay(s', acts[1..], row, csn, owner);
    }
  }

  /**
   Repeatable reads: along any guarded continuation, a transaction that keeps its snapshot reads the
   same row value as long as it does not write the row itself.
   */
  lemma ReadsAreRepeatable(before: seq<Action>, after: seq<Action>, row: RowId, tx: TxId)
    requires CanRun(Init(), before) && GuardedRun(Init(), before)
    requires var s := Run(Init(), before);
             && CanRun(s, after) && GuardedRun(s, after)
             && Reading(s, tx) && Reading(Run(s, after), tx) && Run(s, after).snaps[tx] == s.snaps[tx]
             && WritesNothing(Some(tx), row, s, Run(s, after))
    ensures var s := Run(Init(), before);
            Read(Run(s, after), row, s.snaps[tx], Some(tx)) == Read(s, row, s.snaps[tx], Some(tx))
  {
    hide CanRun, GuardedRun, Run, Read, Replay, Inv, WritesNothing;
    InitOk();
    RunKeepsInv(Init(), before);
    var s := Run(Init(), before);
    RunKeepsInv(s, after);
    SnapshotIsPublished(s, tx);
    RunKeepsReplay(s, after, row, s.snaps[tx], Some(tx));
    ReadIsReplay(s, row, s.snaps[tx], Some(tx));
    ReadIsReplay(Run(s, after), row, s.snaps[tx], Some(tx));
  }

  lemma SnapshotIsPublished(s: Db, tx: TxId)
    requires Inv(s) && tx in s.snaps
    ensures s.snaps[tx] <= s.frontier.published
  {
  }

  // ---- No write is lost ----------------------------------------------------------------------

  /**
   First committer wins: of two committed transactions that wrote the same row, the later writer's
   snapshot already contained the earlier one, and their commit numbers follow the write order.
   */
  ghost predicate NothingIsLost(s: Db) {
    forall i, j :: 0 <= i < j < |s.journal| && SameRow(s, i, j) ==>
      StateOf(s.states, s.journal[i].tx).csn <= s.journal[j].snap < StateOf(s.states, s.journal[j].tx).csn
  }

  /** Two entries of one row by two transactions, both committed. */
  ghost predicate SameRow(s: Db, i: nat, j: nat)
    requires i < |s.journal| && j < |s.journal|
  {
    && s.journal[i].row == s.journal[j].row && s.journal[i].tx != s.journal[j].tx
    && StateOf(s.states, s.journal[i].tx).Committed? && StateOf(s.states, s.journal[j].tx).Committed?
  }

  lemma InvLosesNothing(s: Db)
    requires Inv(s)
    ensures NothingIsLost(s)
  {
    hide ChainOk, StagedOk, CsnsOk, SnapsOk;
    forall i, j | 0 <= i < j < |s.journal| && SameRow(s, i, j)
      ensures StateOf(s.states, s.journal[i].tx).csn <= s.journal[j].snap < StateOf(s.states, s.journal[j].tx).csn
    {
      assert EntryOk(s, s.journal[j]);
    }
  }

  /** In every guarded run no committed update is lost. */
  lemma NoLostUpdates(acts: seq<Action>)
    requires CanRun(Init(), acts) && GuardedRun(Init(), acts)
    ensures NothingIsLost(Run(Init(), acts))
  {
    hide CanRun, GuardedRun, Run, Inv, NothingIsLost;
    InitOk();
    RunKeepsInv(Init(), acts);
    InvLosesNothing(Run(Init(), acts));
  }

  /** The replayed entry is the visible one with the highest commit number. */
  lemma ReplayIsNewestCommit(s: Db, row: RowId, csn: Csn, i: nat)
    requires JournalOk(s) && WriteOrder(s)
    requires i < |s.journal| && s.journal[i].row == row && CommittedBy(s, s.journal[i].tx, csn)
    ensures var k := Latest(s, row, csn, None, |s.journal|);
            k.Some? && i <= k.value && StateOf(s.states, s.journal[i].tx).csn <= StateOf(s.states, s.journal[k.value].tx).csn
  {
  }

  // ---- Vacuum horizons -----------------------------------------------------------------------

  ghost predicate HorizonCovers(s: Db, h: Csn) {
    forall t <- s.snaps :: Running(s, t) ==> h <= s.snaps[t]
  }

  /**
   What the caller of `oldest_active_snapshot_csn` would have to know: every running snapshot, in
   particular one not registered yet, is at or above some registered one; with none registered, it
   is the published one.
   */
  ghost predicate EveryReaderIsRegistered(s: Db) {
    forall t <- s.snaps :: Running(s, t) ==>
      if s.active == map[] then s.snaps[t] == s.frontier.published else exists u <- s.active :: s.active[u] <= s.snaps[t]
  }

  /** The computed horizon is at or below every running snapshot exactly then. */
  lemma HorizonCoversExactly(s: Db, h: Csn)
    requires SnapsOk(s) && Enabled(s, ComputeHorizon(h))
    ensures HorizonCovers(s, h) <==> EveryReaderIsRegistered(s)
  {
    if s.active != map[] {
      var u :| u in s.active && s.active[u] == h;
    }
  }

  /** Guarded as before, but for vacuum only in that horizons are computed with every reader registered. */
  ghost predicate RegisteredRun(s: Db, acts: seq<Action>)
    requires CanRun(s, acts)
    decreases |acts|
  {
    acts == [] ||
    (&& (acts[0].Stage? || acts[0].Insert? ==> Guarded(s, acts[0]))
     && (acts[0].ComputeHorizon? ==> EveryReaderIsRegistered(s))
     && RegisteredRun(Apply(s, acts[0]), acts[1..]))
  }

  /** There is always exactly one horizon to compute. */
  lemma HorizonIsDetermined(active: map<TxId, Csn>, published: Csn) returns (h: Csn)
    ensures forall csn :: IsOldestActive(active, published, csn) <==> csn == h
  {
    if active == map[] {
      h := published;
    } else {
      var t := OldestExists(active);
      h := active[t];
    }
  }

  lemma {:induction false} OldestExists(active: map<TxId, Csn>) returns (t: TxId)
    requires active != map[]
    ensures t in active && forall u <- active :: active[t] <= active[u]
    decreases |active|
  {
    t :| t in active;
    var others := active - {t};
    assert forall u <- active :: u == t || (u in others && others[u] == active[u]);
    if others != map[] {
      assert others.Keys == active.Keys - {t} && |others| == |others.Keys| < |active.Keys|;
      var u := OldestExists(others);
      if active[u] < active[t] {
        t := u;
      }
    }
  }

  /** A horizon at or below every running snapshot makes vacuum harmless. */
  lemma CoveringHorizonSpares(s: Db, row: RowId)
    requires Inv(s) && HorizonCovers(s, s.horizon) && row in s.rows && s.rows[row] != []
    ensures SparesReaders(s, row)
  {
    hide CsnsOk, JournalOk, WriteOrder, StagedOk, Covers, Read;
    var ch := s.rows[row];
    if Vacuumed(s.states, ch, s.horizon) != Some(ch) && !ch[0].deleted {
      assert ch[1] == ch[1..][0] && ch[1] in ch[1..];
    }
  }

  lemma HorizonStaysCovering(s: Db, a: Action)
    requires SnapsOk(s) && CsnsOk(s) && Enabled(s, a) && HorizonCovers(s, s.horizon)
    requires a.ComputeHorizon? ==> HorizonCovers(s, a.csn)
    ensures HorizonCovers(Apply(s, a), Apply(s, a).horizon)
  {
    hide Advance, AfterVacuum, VisibleForWrite, IsOldestActive, Below;
  }

  lemma {:induction false} RegisteredRunIsGuarded(s: Db, acts: seq<Action>)
    requires Inv(s) && HorizonCovers(s, s.horizon) && CanRun(s, acts) && RegisteredRun(s, acts)
    ensures GuardedRun(s, acts) && HorizonCovers(Run(s, acts), Run(s, acts).horizon)
    decreases |acts|
  {
    hide Inv, Apply, HorizonCovers, EveryReaderIsRegistered;
    if acts != [] {
      var a := acts[0];
      InvHasBooks(s);
      if a.VacuumRow? {
        CoveringHorizonSpares(s, a.row);
      } else if a.ComputeHorizon? {
        HorizonCoversExactly(s, a.csn);
      }
      HorizonStaysCovering(s, a);
      StepKeepsInv(s, a);
      RegisteredRunIsGuarded(Apply(s, a), acts[1..]);
    }
  }

  /** In every such run vacuum stays below every reader, and every promise of a guarded run holds. */
  lemma VacuumSparesReaders(acts: seq<Action>, tx: TxId)
    requires CanRun(Init(), acts) && RegisteredRun(Init(), acts)
    ensures GuardedRun(Init(), acts)
    ensures var s := Run(Init(), acts);
            Reading(s, tx) ==> s.horizon <= s.snaps[tx] <= s.frontier.published
  {
    hide CanRun, GuardedRun, RegisteredRun, Run, Inv;
    InitOk();
    RegisteredRunIsGuarded(Init(), acts);
    RunKeepsInv(Init(), acts);
    var s := Run(Init(), acts);
    if Reading(s, tx) {
      SnapshotIsPublished(s, tx);
    }
  }

  // ---- The frontier --------------------------------------------------------------------------

  ghost predicate Unresolved(s: Db, c: Csn) {
    exists t <- s.reserved :: s.reserved[t] == c
  }

  /** Every number handed out is published, waiting above a gap, or still unresolved. */
  ghost predicate Accounted(s: Db) {
    && s.nextCsn > 0
    && s.frontier.published + 1 !in s.frontier.completed && s.frontier.published + 1 !in s.frontier.skipped
    && (forall c :: s.frontier.published < c < s.nextCsn ==>
          c in s.frontier.completed || c in s.frontier.skipped || Unresolved(s, c))
  }

  lemma AccountedReserve(s: Db, tx: TxId, s': Db)
    requires Accounted(s) && tx !in s.reserved
    requires s'.frontier == s.frontier && s'.reserved == s.reserved[tx := s.nextCsn] && s'.nextCsn == s.nextCsn + 1
    ensures Accounted(s')
  {
    forall c | s.frontier.published < c < s'.nextCsn
      ensures c in s.frontier.completed || c in s.frontier.skipped || Unresolved(s', c)
    {
      if c == s.nextCsn {
        assert s'.reserved[tx] == c;
      } else if Unresolved(s, c) {
        var t :| t in s.reserved && s.reserved[t] == c;
        assert s'.reserved[t] == c;
      }
    }
  }

  lemma AccountedResolve(s: Db, tx: TxId, f: Frontier, s': Db)
    requires Accounted(s) && tx in s.reserved && f.published == s.frontier.published && f.completed !! f.skipped
    requires s.frontier.completed <= f.completed && s.frontier.skipped <= f.skipped
    requires s.reserved[tx] in f.completed || s.reserved[tx] in f.skipped
    requires s'.frontier == Advance(f) && s'.reserved == s.reserved - {tx} && s'.nextCsn == s.nextCsn
    ensures Accounted(s')
  {
    hide Advance;
    AdvanceStopsAtFirstGap(f);
    forall c | s'.frontier.published < c < s'.nextCsn
      ensures c in s'.frontier.completed || c in s'.frontier.skipped || Unresolved(s', c)
    {
      if c !in f.completed && c !in f.skipped {
        var t :| t in s.reserved && s.reserved[t] == c;
        assert s'.reserved[t] == c;
      }
    }
  }

  lemma StepKeepsAccounted(s: Db, a: Action)
    requires CsnsOk(s) && Accounted(s) && Enabled(s, a)
    ensures Accounted(Apply(s, a))
  {
    hide Advance, AfterVacuum, VisibleForWrite, IsOldestActive, Below, Accounted;
    var s' := Apply(s, a);
    if a.Reserve? {
      AccountedReserve(s, a.tx, s');
    } else if a.Complete? {
      AccountedResolve(s, a.tx, s.frontier.(completed := s.frontier.completed + {s.reserved[a.tx]}), s');
    } else if a.Skip? {
      AccountedResolve(s, a.tx, s.frontier.(skipped := s.frontier.skipped + {s.reserved[a.tx]}), s');
    } else {
      AccountedUntouched(s, s');
    }
  }

  lemma AccountedUntouched(s: Db, s': Db)
    requires Accounted(s)
    requires s'.frontier == s.frontier && s'.reserved == s.reserved && s'.nextCsn == s.nextCsn
    ensures Accounted(s')
  {
  }

  lemma StepKeepsCsns(s: Db, a: Action)
    requires CsnsOk(s) && Enabled(s, a)
    ensures CsnsOk(Apply(s, a))
  {
    hide Advance, AfterVacuum, VisibleForWrite, IsOldestActive, Below, CsnsOk;
    var s' := Apply(s, a);
    match a {
      case Begin => CsnsBegin(s, s');
      case Reserve(tx) => CsnsReserve(s, tx, s');
      case MarkCommitted(tx) => CsnsMarkCommitted(s, tx, s');
      case Complete(tx) => CsnsResolve(s, tx, s.frontier.(completed := s.frontier.completed + {s.reserved[tx]}), s');
      case Skip(tx) => CsnsResolve(s, tx, s.frontier.(skipped := s.frontier.skipped + {s.reserved[tx]}), s');
      case Abort(tx) => CsnsAbort(s, tx, s');
      case _ => CsnsUntouched(s, s');
    }
  }

  lemma {:induction false} RunKeepsAccounted(s: Db, acts: seq<Action>)
    requires CsnsOk(s) && Accounted(s) && CanRun(s, acts)
    ensures CsnsOk(Run(s, acts)) && Accounted(Run(s, acts))
    decreases |acts|
  {
    hide Enabled, Apply, Accounted, CsnsOk;
    if acts != [] {
      StepKeepsCsns(s, acts[0]);
      StepKeepsAccounted(s, acts[0]);
      RunKeepsAccounted(Apply(s, acts[0]), acts[1..]);
    }
  }

  /**
   In every run, guarded or not, the published number is exactly the one below the oldest
   unresolved commit: nothing else holds it back, and a reserved number that is never completed or
   cancelled holds it back for good.
   */
  lemma PublishedIsBelowOldestUnresolved(acts: seq<Action>)
    requires CanRun(Init(), acts)
    ensures var s := Run(Init(), acts);
            && (forall t <- s.reserved :: s.frontier.published < s.reserved[t])
            && (s.frontier.published + 1 == s.nextCsn || Unresolved(s, s.frontier.published + 1))
  {
    hide CanRun, Run;
    RunKeepsAccounted(Init(), acts);
  }
}
