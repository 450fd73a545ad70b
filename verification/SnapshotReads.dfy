/**
 The invariant behind the kernel's snapshots, kept by every guarded step of `Mvcc`: what any reader
 can still ask for is in the row's chain, so reading through versions and undo is replaying the
 journal.
 */
module SnapshotReads {
  import opened Chars
  import opened Mvcc

  ghost predicate IsAborted(s: Db, tx: TxId) {
    StateOf(s.states, tx).Aborted?
  }

  ghost predicate CommittedBy(s: Db, tx: TxId, csn: Csn) {
    StateOf(s.states, tx).Committed? && StateOf(s.states, tx).csn <= csn
  }

  // ---- Readers -------------------------------------------------------------------------------

  /** Who may still read: a running transaction at its snapshot, or a new one at the published number or later. */
  ghost predicate Usable(s: Db, csn: Csn, owner: Option<TxId>) {
    match owner
    case None => s.frontier.published <= csn
    case Some(t) => Reading(s, t) && csn == s.snaps[t]
  }

  ghost predicate LaterSeen(s: Db, row: RowId, k: nat, csn: Csn, owner: Option<TxId>) {
    exists j :: k < j < |s.journal| && s.journal[j].row == row && TxVisible(s.states, s.journal[j].tx, csn, owner)
  }

  /** Every reader that sees the entry sees a later one of its row. */
  ghost predicate Replaced(s: Db, row: RowId, k: nat)
    requires k < |s.journal|
  {
    forall csn, owner :: Usable(s, csn, owner) && TxVisible(s.states, s.journal[k].tx, csn, owner) ==>
      LaterSeen(s, row, k, csn, owner)
  }

  // ---- The invariant -------------------------------------------------------------------------

  /** Commit numbers: everything at or below the published one is resolved. */
  ghost predicate CsnsOk(s: Db) {
    && s.frontier.published < s.nextCsn
    && s.frontier.completed !! s.frontier.skipped
    && (forall c <- s.frontier.completed :: s.frontier.published < c < s.nextCsn)
    && (forall c <- s.frontier.skipped :: s.frontier.published < c < s.nextCsn)
    && (forall t <- s.reserved ::
          && t in s.states
          && s.frontier.published < s.reserved[t] < s.nextCsn
          && s.reserved[t] !in s.frontier.completed && s.reserved[t] !in s.frontier.skipped
          && (s.states[t].Committed? ==> s.states[t].csn == s.reserved[t]))
    && (forall t, u :: t in s.reserved && u in s.reserved && t != u ==> s.reserved[t] != s.reserved[u])
    && s.nextTx > 0 && (forall t <- s.states :: 0 < t < s.nextTx)
    && (forall t <- s.states :: s.states[t].Committed? ==>
          && s.states[t].csn < s.nextCsn
          && (s.states[t].csn > s.frontier.published ==>
                s.states[t].csn in s.frontier.completed || t in s.reserved))
  }

  ghost predicate SnapsOk(s: Db) {
    && s.horizon <= s.frontier.published
    && (forall t <- s.active :: s.active[t] <= s.frontier.published)
    && (forall t <- s.snaps :: t in s.states && s.snaps[t] <= s.frontier.published)
  }

  ghost predicate EntryOk(s: Db, e: Entry) {
    && e.tx in s.states
    && e.snap <= s.frontier.published
    && (s.states[e.tx].Committed? ==> e.snap < s.states[e.tx].csn)
    && (Reading(s, e.tx) ==> e.snap <= s.snaps[e.tx])
    && (Running(s, e.tx) ==> e.tx in s.snaps)
  }

  ghost predicate JournalOk(s: Db) {
    forall k :: 0 <= k < |s.journal| ==> EntryOk(s, s.journal[k])
  }

  /** First committer wins: a write on top of another transaction's live write saw it committed. */
  ghost predicate WriteOrder(s: Db) {
    forall i, j :: 0 <= i < j < |s.journal| && s.journal[i].row == s.journal[j].row &&
                   s.journal[i].tx != s.journal[j].tx && !IsAborted(s, s.journal[i].tx)
                   ==> CommittedBy(s, s.journal[i].tx, s.journal[j].snap)
  }

  ghost predicate Has(ch: Chain, k: nat) {
    exists i :: 0 <= i < |ch| && ch[i].id == k
  }

  ghost predicate Links(ch: Chain, top: TxId) {
    && ch != [] && ch[0].endTx == top
    && (forall i :: 0 < i < |ch| ==> ch[i].endTx == ch[i - 1].beginTx)
  }

  ghost predicate VersionOf(s: Db, row: RowId, v: Version) {
    && v.id < |s.journal|
    && s.journal[v.id].row == row && s.journal[v.id].tx == v.beginTx
    && s.journal[v.id].deleted == v.deleted && s.journal[v.id].payload == v.payload
  }

  ghost predicate FromJournal(s: Db, row: RowId, ch: Chain) {
    && (forall i :: 0 <= i < |ch| ==> VersionOf(s, row, ch[i]))
    && (forall i, j :: 0 <= i < j < |ch| ==> ch[i].id > ch[j].id)
  }

  ghost function Bottom(s: Db, ch: Chain): nat {
    if ch == [] then |s.journal| else ch[|ch| - 1].id
  }

  /** The chain ends above what it leaves out, and that is no payload any reader should read. */
  ghost predicate LeftOut(s: Db, row: RowId, ch: Chain, k: nat)
    requires k < |s.journal|
  {
    k < Bottom(s, ch) && (s.journal[k].deleted || Replaced(s, row, k))
  }

  ghost predicate Covers(s: Db, row: RowId, ch: Chain) {
    forall k :: 0 <= k < |s.journal| && s.journal[k].row == row && !IsAborted(s, s.journal[k].tx)
                ==> Has(ch, k) || LeftOut(s, row, ch, k)
  }

  ghost predicate ChainOk(s: Db, row: RowId, ch: Chain, top: TxId) {
    Links(ch, top) && FromJournal(s, row, ch) && Covers(s, row, ch)
  }

  ghost predicate SawAll(s: Db, row: RowId, tx: TxId, csn: Csn) {
    forall k :: 0 <= k < |s.journal| && s.journal[k].row == row && s.journal[k].tx != tx &&
                !IsAborted(s, s.journal[k].tx)
                ==> CommittedBy(s, s.journal[k].tx, csn)
  }

  /** The newest version that is not rolled back holds a payload, its writer committed or `tx`. */
  ghost predicate NewestIsPayload(s: Db, ch: Chain, tx: TxId) {
    exists i :: 0 <= i < |ch| && Newest(s, ch, tx, i)
  }

  ghost predicate Newest(s: Db, ch: Chain, tx: TxId, i: nat)
    requires i < |ch|
  {
    && !ch[i].deleted && (ch[i].beginTx == tx || StateOf(s.states, ch[i].beginTx).Committed?)
    && forall j :: 0 <= j < i ==> IsAborted(s, ch[j].beginTx)
  }

  ghost predicate StagedOk(s: Db, tx: TxId)
    requires tx in s.staged
  {
    var w := s.staged[tx];
    && Reading(s, tx) && tx !in s.reserved
    && w.row in s.locks && s.locks[w.row] == tx
    && w.row in s.rows && NewestIsPayload(s, s.rows[w.row], tx)
    && ChainOk(s, w.row, w.below, tx)
    && SawAll(s, w.row, tx, s.snaps[tx])
  }

  ghost predicate Inv(s: Db) {
    && CsnsOk(s) && SnapsOk(s) && JournalOk(s) && WriteOrder(s)
    && (forall r <- s.rows :: ChainOk(s, r, s.rows[r], 0))
    && (forall r :: r !in s.rows ==> Covers(s, r, []))
    && (forall t <- s.staged :: StagedOk(s, t))
  }

  // ---- A read is the journal replayed --------------------------------------------------------

  /** Along a well-linked chain the walk stops at the first version whose writer is visible. */
  lemma {:induction false} FirstSeen(states: States, ch: Chain, csn: Csn, owner: Option<TxId>) returns (i: nat)
    requires forall j :: 0 < j < |ch| ==> ch[j].endTx == ch[j - 1].beginTx
    requires ch != [] ==> ch[0].endTx == 0 || !TxVisible(states, ch[0].endTx, csn, owner)
    ensures i <= |ch|
    ensures forall j :: 0 <= j < i ==> !TxVisible(states, ch[j].beginTx, csn, owner)
    ensures i < |ch| ==> TxVisible(states, ch[i].beginTx, csn, owner) && ReadVersion(states, ch, csn, owner) == Some(ch[i])
    ensures i == |ch| ==> ReadVersion(states, ch, csn, owner) == None
  {
    if ch == [] || TxVisible(states, ch[0].beginTx, csn, owner) {
      i := 0;
    } else {
      var k := FirstSeen(states, ch[1..], csn, owner);
      i := k + 1;
    }
  }

  /** What a reader gets, as the journal entry it comes from: None where there is no payload. */
  ghost function ReadId(s: Db, row: RowId, csn: Csn, owner: Option<TxId>): Option<nat> {
    var v := if row in s.rows then ReadVersion(s.states, s.rows[row], csn, owner) else None;
    if v.Some? && !v.value.deleted then Some(v.value.id) else None
  }

  ghost function ReplayId(s: Db, row: RowId, csn: Csn, owner: Option<TxId>): Option<nat> {
    var k := Latest(s, row, csn, owner, |s.journal|);
    if k.Some? && !s.journal[k.value].deleted then k else None
  }

  lemma LatestIsLive(s: Db, row: RowId, csn: Csn, owner: Option<TxId>)
    requires Usable(s, csn, owner)
    ensures var k := Latest(s, row, csn, owner, |s.journal|);
            k.Some? ==> !IsAborted(s, s.journal[k.value].tx) && !LaterSeen(s, row, k.value, csn, owner)
  {
  }

  /** A chain read by a reader gives the latest entry it sees, or nothing if that is left out. */
  lemma ChainReadsLatest(s: Db, row: RowId, ch: Chain, csn: Csn, owner: Option<TxId>)
    requires ChainOk(s, row, ch, 0) && Usable(s, csn, owner)
    ensures var v := ReadVersion(s.states, ch, csn, owner);
            var k := Latest(s, row, csn, owner, |s.journal|);
            && (v.Some? ==> k == Some(v.value.id) && VersionOf(s, row, v.value))
            && (v.None? && k.Some? ==> s.journal[k.value].deleted)
  {
    hide Latest, ReadVersion;
    var i := FirstSeen(s.states, ch, csn, owner);
    var k := Latest(s, row, csn, owner, |s.journal|);
    LatestIsLive(s, row, csn, owner);
    LatestIsNewest(s, row, csn, owner);
    if k.Some? && Has(ch, k.value) {
      var j :| 0 <= j < |ch| && ch[j].id == k.value;
      assert VersionOf(s, row, ch[j]);
      assert i <= j;
    }
    if i < |ch| {
      assert VersionOf(s, row, ch[i]);
    }
  }

  lemma LatestIsNewest(s: Db, row: RowId, csn: Csn, owner: Option<TxId>)
    ensures var k := Latest(s, row, csn, owner, |s.journal|);
            && (k.Some? ==> s.journal[k.value].row == row && TxVisible(s.states, s.journal[k.value].tx, csn, owner))
            && (forall i :: 0 <= i < |s.journal| && s.journal[i].row == row ==>
                  TxVisible(s.states, s.journal[i].tx, csn, owner) ==> k.Some? && i <= k.value)
  {
  }

  /** Reading through versions and undo finds the entry that replaying the journal finds. */
  lemma ReadIsLatest(s: Db, row: RowId, csn: Csn, owner: Option<TxId>)
    requires Inv(s) && Usable(s, csn, owner)
    ensures ReadId(s, row, csn, owner) == ReplayId(s, row, csn, owner)
  {
    hide CsnsOk, SnapsOk, JournalOk, WriteOrder, ChainOk, StagedOk, Latest, ReadVersion, Usable;
    if row in s.rows {
      ChainReadsLatest(s, row, s.rows[row], csn, owner);
    } else {
      LatestIsLive(s, row, csn, owner);
      LatestIsNewest(s, row, csn, owner);
      AbsentReadsNothing(s, row, csn, owner);
    }
  }

  lemma AbsentReadsNothing(s: Db, row: RowId, csn: Csn, owner: Option<TxId>)
    requires Covers(s, row, []) && Usable(s, csn, owner)
    ensures ReplayId(s, row, csn, owner) == None
  {
    hide Latest;
    LatestIsLive(s, row, csn, owner);
    LatestIsNewest(s, row, csn, owner);
  }

  /** Reading through versions and undo gives what replaying the journal gives, to every reader. */
  lemma ReadIsReplay(s: Db, row: RowId, csn: Csn, owner: Option<TxId>)
    requires Inv(s) && Usable(s, csn, owner)
    ensures Read(s, row, csn, owner) == Replay(s, row, csn, owner)
  {
    hide CsnsOk, SnapsOk, JournalOk, WriteOrder, ChainOk, StagedOk, Latest, ReadVersion, Usable;
    if row in s.rows {
      ChainReadsLatest(s, row, s.rows[row], csn, owner);
    } else {
      AbsentReadsNothing(s, row, csn, owner);
    }
  }

  // ---- Every step keeps the invariant --------------------------------------------------------

  lemma InitOk()
    ensures Inv(Init())
  {
  }

  /** Settled outcomes stay settled and the journal only grows. */
  ghost predicate Evolves(s: Db, s': Db) {
    && |s.journal| <= |s'.journal| && s'.journal[..|s.journal|] == s.journal
    && (forall t <- s.states :: t in s'.states && (s.states[t].InProgress? || s'.states[t] == s.states[t]))
  }

  /** The reader sees at least what the earlier one saw. */
  ghost predicate Dominates(s': Db, csn': Csn, owner': Option<TxId>, s: Db, csn: Csn, owner: Option<TxId>) {
    forall k :: 0 <= k < |s.journal| && TxVisible(s.states, s.journal[k].tx, csn, owner) ==>
      TxVisible(s'.states, s.journal[k].tx, csn', owner')
  }

  ghost predicate Foreseen(s: Db, k: nat, s': Db, csn': Csn, owner': Option<TxId>)
    requires k < |s.journal|
  {
    exists csn, owner :: Usable(s, csn, owner) && TxVisible(s.states, s.journal[k].tx, csn, owner) &&
      Dominates(s', csn', owner', s, csn, owner)
  }

  /** Whoever sees an entry after the step takes the place of someone who saw it before. */
  ghost predicate ReadersCarryOver(s: Db, s': Db) {
    forall k, csn', owner' :: 0 <= k < |s.journal| && Usable(s', csn', owner') ==>
      TxVisible(s'.states, s.journal[k].tx, csn', owner') ==> Foreseen(s, k, s', csn', owner')
  }

  lemma ReplacedStays(s: Db, s': Db, row: RowId, k: nat)
    requires Evolves(s, s') && ReadersCarryOver(s, s') && k < |s.journal| && Replaced(s, row, k)
    ensures Replaced(s', row, k)
  {
    hide Usable;
    forall csn', owner' | Usable(s', csn', owner') && TxVisible(s'.states, s'.journal[k].tx, csn', owner')
      ensures LaterSeen(s', row, k, csn', owner')
    {
      assert s'.journal[k] == s.journal[k] && Foreseen(s, k, s', csn', owner');
      var csn, owner :| Usable(s, csn, owner) && TxVisible(s.states, s.journal[k].tx, csn, owner) &&
        Dominates(s', csn', owner', s, csn, owner);
      assert LaterSeen(s, row, k, csn, owner);
      var j :| k < j < |s.journal| && s.journal[j].row == row && TxVisible(s.states, s.journal[j].tx, csn, owner);
      assert s'.journal[j] == s.journal[j];
    }
  }

  ghost predicate NoNewEntries(s: Db, s': Db, row: RowId) {
    forall k :: |s.journal| <= k < |s'.journal| ==> s'.journal[k].row != row
  }

  lemma CoversStays(s: Db, s': Db, row: RowId, ch: Chain)
    requires Evolves(s, s') && ReadersCarryOver(s, s') && JournalOk(s) && NoNewEntries(s, s', row)
    requires Covers(s, row, ch)
    ensures Covers(s', row, ch)
  {
    hide Replaced, ReadersCarryOver;
    forall k | 0 <= k < |s'.journal| && s'.journal[k].row == row && !IsAborted(s', s'.journal[k].tx)
      ensures Has(ch, k) || LeftOut(s', row, ch, k)
    {
      assert s'.journal[k] == s.journal[k] && EntryOk(s, s.journal[k]);
      if !Has(ch, k) && !s.journal[k].deleted {
        ReplacedStays(s, s', row, k);
      }
    }
  }

  lemma ChainStaysOk(s: Db, s': Db, row: RowId, ch: Chain, top: TxId)
    requires Evolves(s, s') && ReadersCarryOver(s, s') && JournalOk(s) && NoNewEntries(s, s', row)
    requires ChainOk(s, row, ch, top)
    ensures ChainOk(s', row, ch, top)
  {
    hide Covers, ReadersCarryOver, JournalOk;
    CoversStays(s, s', row, ch);
  }

  // What a staged write needs from the rest of the state.
  ghost predicate StillStaged(s: Db, s': Db, tx: TxId)
    requires tx in s.staged
  {
    var row := s.staged[tx].row;
    && tx in s'.staged && s'.staged[tx] == s.staged[tx]
    && Reading(s', tx) && tx !in s'.reserved && tx in s.snaps && s'.snaps[tx] == s.snaps[tx]
    && NoNewEntries(s, s', row)
    && row in s'.locks && s'.locks[row] == tx
    && row in s.rows && row in s'.rows && KeptOrCut(s, s.rows[row], s'.rows[row], tx)
  }

  ghost predicate KeptOrCut(s: Db, ch: Chain, ch': Chain, tx: TxId) {
    ch' == ch || (ch != [] && ch' == [ch[0]] && Newest(s, ch, tx, 0))
  }

  lemma NewestStays(s: Db, s': Db, ch: Chain, ch': Chain, tx: TxId)
    requires Evolves(s, s') && NewestIsPayload(s, ch, tx) && KeptOrCut(s, ch, ch', tx)
    requires forall v <- ch :: v.beginTx in s.states
    ensures NewestIsPayload(s', ch', tx)
  {
    var i :| 0 <= i < |ch| && Newest(s, ch, tx, i);
    assert forall j :: 0 <= j < |ch| ==> ch[j] in ch;
    if ch' == ch {
      assert Newest(s', ch', tx, i);
    } else {
      assert Newest(s', ch', tx, 0);
    }
  }

  lemma WritersAreKnown(s: Db, row: RowId, ch: Chain)
    requires JournalOk(s) && FromJournal(s, row, ch)
    ensures forall v <- ch :: v.beginTx in s.states
  {
    forall v | v in ch
      ensures v.beginTx in s.states
    {
      var i :| 0 <= i < |ch| && ch[i] == v;
      assert VersionOf(s, row, ch[i]) && EntryOk(s, s.journal[v.id]);
    }
  }

  lemma SawAllStays(s: Db, s': Db, row: RowId, tx: TxId, csn: Csn)
    requires Evolves(s, s') && JournalOk(s) && NoNewEntries(s, s', row) && SawAll(s, row, tx, csn)
    ensures SawAll(s', row, tx, csn)
  {
    forall k | 0 <= k < |s'.journal| && s'.journal[k].row == row && s'.journal[k].tx != tx &&
               !IsAborted(s', s'.journal[k].tx)
      ensures CommittedBy(s', s'.journal[k].tx, csn)
    {
      assert s'.journal[k] == s.journal[k] && EntryOk(s, s.journal[k]);
    }
  }

  lemma StagedStaysOk(s: Db, s': Db, tx: TxId)
    requires Evolves(s, s') && ReadersCarryOver(s, s') && JournalOk(s) && tx in s.staged && StagedOk(s, tx)
    requires StillStaged(s, s', tx) && FromJournal(s, s.staged[tx].row, s.rows[s.staged[tx].row])
    ensures StagedOk(s', tx)
  {
    hide ReadersCarryOver, ChainOk, SawAll, JournalOk, FromJournal, Evolves, NewestIsPayload, KeptOrCut;
    var w := s.staged[tx];
    ChainStaysOk(s, s', w.row, w.below, tx);
    SawAllStays(s, s', w.row, tx, s.snaps[tx]);
    WritersAreKnown(s, w.row, s.rows[w.row]);
    NewestStays(s, s', s.rows[w.row], s'.rows[w.row], tx);
  }

  /** Rows outside `except` keep their chains or their absence. */
  lemma RowsStayOk(s: Db, s': Db, except: set<RowId>)
    requires Inv(s) && Evolves(s, s') && ReadersCarryOver(s, s')
    requires forall r :: r !in except ==>
               (r in s'.rows <==> r in s.rows) && (r in s.rows ==> s'.rows[r] == s.rows[r]) && NoNewEntries(s, s', r)
    ensures forall r <- s'.rows :: r !in except ==> ChainOk(s', r, s'.rows[r], 0)
    ensures forall r :: r !in except && r !in s'.rows ==> Covers(s', r, [])
  {
    hide JournalOk, ChainOk, Covers, NoNewEntries, Evolves, ReadersCarryOver, StagedOk, CsnsOk, SnapsOk, WriteOrder;
    forall r | r !in except
      ensures r in s'.rows ==> ChainOk(s', r, s'.rows[r], 0)
      ensures r !in s'.rows ==> Covers(s', r, [])
    {
      if r in s.rows {
        ChainStaysOk(s, s', r, s.rows[r], 0);
      } else {
        CoversStays(s, s', r, []);
      }
    }
  }

  lemma AllStagedStayOk(s: Db, s': Db, except: set<TxId>)
    requires Inv(s) && Evolves(s, s') && ReadersCarryOver(s, s')
    requires forall t <- s'.staged :: t !in except ==> t in s.staged && StillStaged(s, s', t)
    ensures forall t <- s'.staged :: t !in except ==> StagedOk(s', t)
  {
    hide JournalOk, StagedOk, Evolves, CsnsOk, SnapsOk, WriteOrder, Covers, Links, FromJournal, KeptOrCut, ReadersCarryOver;
    forall t | t in s'.staged && t !in except ensures StagedOk(s', t) {
      StagedStaysOk(s, s', t);
    }
  }

  lemma WriteOrderStays(s: Db, s': Db)
    requires Evolves(s, s') && JournalOk(s) && WriteOrder(s) && s'.journal == s.journal
    ensures WriteOrder(s')
  {
  }

  // The parts of the invariant that do not look at chains.
  ghost predicate Books(s: Db) {
    CsnsOk(s) && SnapsOk(s) && JournalOk(s) && WriteOrder(s)
  }

  lemma EntriesStayOk(s: Db, s': Db)
    requires JournalOk(s) && s'.journal == s.journal
    requires s'.frontier.published >= s.frontier.published
    requires forall t <- s.states ::
      && t in s'.states
      && (s'.states[t].Committed? ==> s.states[t] == s'.states[t] || s.frontier.published < s'.states[t].csn)
      && (Running(s', t) ==> Running(s, t))
      && (Running(s', t) && t in s.snaps ==> t in s'.snaps && s.snaps[t] <= s'.snaps[t])
    ensures JournalOk(s')
  {
  }

  /** Steps that touch no transaction state and no commit number. */
  lemma CsnsUntouched(s: Db, s': Db)
    requires CsnsOk(s)
    requires s'.states == s.states && s'.nextTx == s.nextTx
    requires s'.nextCsn == s.nextCsn && s'.frontier == s.frontier && s'.reserved == s.reserved
    ensures CsnsOk(s')
  {
  }

  lemma CsnsBegin(s: Db, s': Db)
    requires CsnsOk(s) && s' == s.(states := s.states[s.nextTx := InProgress], nextTx := s.nextTx + 1)
    ensures CsnsOk(s') && s.nextTx !in s.states
  {
  }

  lemma BeginOk(s: Db, s': Db)
    requires Books(s) && s' == s.(states := s.states[s.nextTx := InProgress], nextTx := s.nextTx + 1)
    ensures Books(s') && Evolves(s, s')
  {
    hide WriteOrder, JournalOk, CsnsOk;
    CsnsBegin(s, s');
    EntriesStayOk(s, s');
    WriteOrderStays(s, s');
  }

  lemma SnapshotOk(s: Db, tx: TxId, s': Db)
    requires Books(s) && Ready(s, tx) && s' == s.(snaps := s.snaps[tx := s.frontier.published])
    ensures Books(s') && Evolves(s, s')
  {
    hide WriteOrder, JournalOk, CsnsOk;
    CsnsUntouched(s, s');
    EntriesStayOk(s, s');
    WriteOrderStays(s, s');
  }

  lemma RegisterOk(s: Db, tx: TxId, s': Db)
    requires Books(s) && Reading(s, tx) && s' == s.(active := s.active[tx := s.snaps[tx]])
    ensures Books(s') && Evolves(s, s')
  {
    hide WriteOrder, JournalOk, CsnsOk;
    CsnsUntouched(s, s');
    EntriesStayOk(s, s');
    WriteOrderStays(s, s');
  }

  lemma CsnsReserve(s: Db, tx: TxId, s': Db)
    requires CsnsOk(s) && Ready(s, tx) && s' == s.(reserved := s.reserved[tx := s.nextCsn], nextCsn := s.nextCsn + 1)
    ensures CsnsOk(s')
  {
  }

  lemma ReserveOk(s: Db, tx: TxId, s': Db)
    requires Books(s) && Ready(s, tx)
    requires s' == s.(reserved := s.reserved[tx := s.nextCsn], nextCsn := s.nextCsn + 1)
    ensures Books(s') && Evolves(s, s')
  {
    hide WriteOrder, JournalOk, CsnsOk;
    CsnsReserve(s, tx, s');
    EntriesStayOk(s, s');
    WriteOrderStays(s, s');
  }

  lemma CsnsMarkCommitted(s: Db, tx: TxId, s': Db)
    requires CsnsOk(s) && Running(s, tx) && tx in s.reserved && s' == s.(states := s.states[tx := Committed(s.reserved[tx])])
    ensures CsnsOk(s')
  {
  }

  lemma MarkCommittedOk(s: Db, tx: TxId, s': Db)
    requires Books(s) && Running(s, tx) && tx in s.reserved
    requires s' == s.(states := s.states[tx := Committed(s.reserved[tx])])
    ensures Books(s') && Evolves(s, s')
  {
    hide WriteOrder, JournalOk, CsnsOk;
    CsnsMarkCommitted(s, tx, s');
    EntriesStayOk(s, s');
    WriteOrderStays(s, s');
  }

  lemma CsnsAbort(s: Db, tx: TxId, s': Db)
    requires CsnsOk(s) && Running(s, tx) && s' == s.(states := s.states[tx := Aborted], active := s.active - {tx})
    ensures CsnsOk(s')
  {
  }

  lemma AbortOk(s: Db, tx: TxId, s': Db)
    requires Books(s) && Running(s, tx)
    requires s' == s.(states := s.states[tx := Aborted], active := s.active - {tx})
    ensures Books(s') && Evolves(s, s')
  {
    hide WriteOrder, JournalOk, CsnsOk;
    CsnsAbort(s, tx, s');
    EntriesStayOk(s, s');
    WriteOrderStays(s, s');
  }

  lemma FinishOk(s: Db, tx: TxId, s': Db)
    requires Books(s) && tx in s.states && !s.states[tx].InProgress?
    requires s' == s.(snaps := s.snaps - {tx}, active := s.active - {tx}, locks := s'.locks)
    ensures Books(s') && Evolves(s, s')
  {
    hide WriteOrder, JournalOk, CsnsOk;
    CsnsUntouched(s, s');
    EntriesStayOk(s, s');
    WriteOrderStays(s, s');
  }

  lemma HorizonOk(s: Db, csn: Csn, s': Db)
    requires Books(s) && IsOldestActive(s.active, s.frontier.published, csn) && s' == s.(horizon := csn)
    ensures Books(s') && Evolves(s, s')
  {
    hide WriteOrder, JournalOk, CsnsOk;
    CsnsUntouched(s, s');
    EntriesStayOk(s, s');
    WriteOrderStays(s, s');
  }

  lemma CsnsResolve(s: Db, tx: TxId, f: Frontier, s': Db)
    requires CsnsOk(s) && tx in s.reserved
    requires (s.states[tx].Committed? && f == s.frontier.(completed := s.frontier.completed + {s.reserved[tx]}))
             || (!s.states[tx].Committed? && f == s.frontier.(skipped := s.frontier.skipped + {s.reserved[tx]}))
    requires s' == s.(frontier := Advance(f), reserved := s.reserved - {tx})
    ensures CsnsOk(s') && s.frontier.published <= s'.frontier.published
  {
    hide Advance;
    AdvanceStopsAtFirstGap(f);
    var p, p' := s.frontier.published, s'.frontier.published;
    assert p' in f.completed || p' in f.skipped || p' == p;
    forall t <- s'.reserved ensures p' < s'.reserved[t] {
      assert s.reserved[t] != s.reserved[tx];
    }
    forall t | t in s'.states && s'.states[t].Committed?
      ensures s'.states[t].csn > p' ==> s'.states[t].csn in s'.frontier.completed || t in s'.reserved
    {
      assert s.states[t].csn > p ==> s.states[t].csn in f.completed || t in s'.reserved;
    }
  }

  lemma ResolveOk(s: Db, tx: TxId, f: Frontier, s': Db)
    requires Books(s) && tx in s.reserved && tx in s.states
    requires (s.states[tx].Committed? && f == s.frontier.(completed := s.frontier.completed + {s.reserved[tx]}))
             || (Running(s, tx) && f == s.frontier.(skipped := s.frontier.skipped + {s.reserved[tx]}))
    requires s' == s.(frontier := Advance(f), reserved := s.reserved - {tx})
    ensures Books(s') && Evolves(s, s')
  {
    hide WriteOrder, JournalOk, Advance, CsnsOk;
    CsnsResolve(s, tx, f, s');
    EntriesStayOk(s, s');
    WriteOrderStays(s, s');
  }

  // ---- Readers come from readers -------------------------------------------------------------

  /** Steps after which every reader read the same before. */
  lemma SameReaders(s: Db, s': Db)
    requires forall csn, owner :: Usable(s', csn, owner) ==> Usable(s, csn, owner)
    requires forall k, csn, owner :: 0 <= k < |s.journal| && Usable(s', csn, owner) ==>
               (TxVisible(s'.states, s.journal[k].tx, csn, owner) <==> TxVisible(s.states, s.journal[k].tx, csn, owner))
    ensures ReadersCarryOver(s, s')
  {
    hide Usable, TxVisible;
    forall k, csn, owner | 0 <= k < |s.journal| && Usable(s', csn, owner) && TxVisible(s'.states, s.journal[k].tx, csn, owner)
      ensures Foreseen(s, k, s', csn, owner)
    {
      assert Dominates(s', csn, owner, s, csn, owner);
    }
  }

  lemma UntouchedReaders(s: Db, s': Db)
    requires s'.states == s.states && s'.frontier.published >= s.frontier.published
    requires forall t <- s'.snaps :: Running(s, t) ==> t in s.snaps && s'.snaps[t] == s.snaps[t]
    ensures ReadersCarryOver(s, s')
  {
    SameReaders(s, s');
  }

  lemma BeginReaders(s: Db, s': Db)
    requires JournalOk(s) && SnapsOk(s) && s.nextTx !in s.states
    requires s'.states == s.states[s.nextTx := InProgress] && s'.snaps == s.snaps && s'.frontier == s.frontier
    ensures ReadersCarryOver(s, s')
  {
    forall k | 0 <= k < |s.journal|
      ensures s.journal[k].tx != s.nextTx
    {
      assert EntryOk(s, s.journal[k]);
    }
    SameReaders(s, s');
  }

  lemma AbortReaders(s: Db, tx: TxId, s': Db)
    requires Running(s, tx) && s'.states == s.states[tx := Aborted] && s'.snaps == s.snaps && s'.frontier == s.frontier
    ensures ReadersCarryOver(s, s')
  {
    SameReaders(s, s');
  }

  /** A new snapshot sees what a new reader saw, and its own entries as before. */
  lemma SnapshotReaders(s: Db, tx: TxId, s': Db)
    requires JournalOk(s) && SnapsOk(s) && Running(s, tx) && s' == s.(snaps := s.snaps[tx := s.frontier.published])
    ensures ReadersCarryOver(s, s')
  {
    forall k, csn, owner | 0 <= k < |s.journal| && Usable(s', csn, owner) && TxVisible(s'.states, s.journal[k].tx, csn, owner)
      ensures Foreseen(s, k, s', csn, owner)
    {
      if owner != Some(tx) {
        assert Usable(s, csn, owner) && Dominates(s', csn, owner, s, csn, owner);
      } else if s.journal[k].tx == tx {
        assert EntryOk(s, s.journal[k]);
        assert Usable(s, s.snaps[tx], owner) && Dominates(s', csn, owner, s, s.snaps[tx], owner);
      } else {
        assert Usable(s, csn, None) && Dominates(s', csn, owner, s, csn, None);
      }
    }
  }

  /** Whoever sees a transaction that just committed sees what it saw itself. */
  lemma CommitReaders(s: Db, tx: TxId, s': Db)
    requires JournalOk(s) && SnapsOk(s) && CsnsOk(s) && Running(s, tx) && tx in s.reserved
    requires s' == s.(states := s.states[tx := Committed(s.reserved[tx])])
    ensures ReadersCarryOver(s, s')
  {
    hide CsnsOk;
    CommitIsAhead(s, tx);
    forall k, csn, owner | 0 <= k < |s.journal| && Usable(s', csn, owner) && TxVisible(s'.states, s.journal[k].tx, csn, owner)
      ensures Foreseen(s, k, s', csn, owner)
    {
      if s.journal[k].tx == tx {
        assert EntryOk(s, s.journal[k]);
        assert Usable(s, s.snaps[tx], Some(tx)) && Dominates(s', csn, owner, s, s.snaps[tx], Some(tx));
      } else {
        assert Usable(s, csn, owner) && Dominates(s', csn, owner, s, csn, owner);
      }
    }
  }

  lemma CommitIsAhead(s: Db, tx: TxId)
    requires CsnsOk(s) && tx in s.reserved
    ensures s.frontier.published < s.reserved[tx]
  {
  }

  // ---- Writing -------------------------------------------------------------------------------

  /**
   The versions a guarded write leaves out of its undo chain all belong to aborted transactions.
   */
  lemma SkippedAreAborted(s: Db, row: RowId, tx: TxId, index: nat)
    requires JournalOk(s) && WriteOrder(s) && Ready(s, tx) && tx in s.snaps && row in s.rows
    requires ChainOk(s, row, s.rows[row], 0)
    requires VisibleForWrite(s.states, s.rows[row], s.snaps[tx], tx) == Base(index)
    requires SnapshotCoversRow(s.states, s.rows[row], s.snaps[tx])
    ensures index < |s.rows[row]|
    ensures TxVisible(s.states, s.rows[row][index].beginTx, s.snaps[tx], Some(tx))
    ensures forall i :: 0 <= i < index ==> IsAborted(s, s.rows[row][i].beginTx)
  {
    var ch, csn := s.rows[row], s.snaps[tx];
    if index > 0 {
      InvisibleUntilBase(s, ch, csn, tx, index);
      forall i | 0 <= i < index ensures IsAborted(s, ch[i].beginTx) {
        assert ch[i] in ch && VersionOf(s, row, ch[i]) && VersionOf(s, row, ch[0]);
      }
    }
  }

  /** On the way to the base no writer is visible. */
  lemma InvisibleUntilBase(s: Db, ch: Chain, csn: Csn, tx: TxId, index: nat)
    requires Links(ch, 0) && index > 0 && VisibleForWrite(s.states, ch, csn, tx) == Base(index)
    ensures index < |ch| && forall i :: 0 <= i < index ==> !TxVisible(s.states, ch[i].beginTx, csn, Some(tx))
  {
    var i := FirstSeen(s.states, ch, csn, Some(tx));
    assert FirstVisible(s.states, ch, csn, Some(tx), 1) == Base(index);
    assert 0 < i < |ch| ==> ch[i].endTx == ch[i - 1].beginTx;
  }

  lemma BelowIsOk(s: Db, row: RowId, tx: TxId, index: nat)
    requires row in s.rows && ChainOk(s, row, s.rows[row], 0) && index < |s.rows[row]|
    requires forall i :: 0 <= i < index ==> IsAborted(s, s.rows[row][i].beginTx)
    ensures ChainOk(s, row, Below(s.rows[row], index, tx), tx)
  {
    hide Replaced;
    var ch := s.rows[row];
    var below := Below(ch, index, tx);
    forall i | 0 <= i < |below| ensures below[i].id == ch[index + i].id && below[i].beginTx == ch[index + i].beginTx
                                        && VersionOf(s, row, below[i])
    {
      assert VersionOf(s, row, ch[index + i]);
    }
    forall k | 0 <= k < |s.journal| && s.journal[k].row == row && !IsAborted(s, s.journal[k].tx)
      ensures Has(below, k) || LeftOut(s, row, below, k)
    {
      if Has(ch, k) {
        var i :| 0 <= i < |ch| && ch[i].id == k;
        assert VersionOf(s, row, ch[i]);
        assert below[i - index].id == k;
      }
    }
  }

  /** A guarded writer has seen every live write of the row. */
  lemma WriterSawAll(s: Db, row: RowId, tx: TxId, index: nat)
    requires JournalOk(s) && WriteOrder(s) && Reading(s, tx)
    requires row in s.rows && ChainOk(s, row, s.rows[row], 0) && index < |s.rows[row]|
    requires TxVisible(s.states, s.rows[row][index].beginTx, s.snaps[tx], Some(tx))
    requires forall i :: 0 <= i < index ==> IsAborted(s, s.rows[row][i].beginTx)
    ensures SawAll(s, row, tx, s.snaps[tx])
  {
    hide Replaced;
    var ch := s.rows[row];
    var base := ch[index];
    assert VersionOf(s, row, base) && EntryOk(s, s.journal[base.id]);
    forall k | 0 <= k < |s.journal| && s.journal[k].row == row && s.journal[k].tx != tx && !IsAborted(s, s.journal[k].tx)
      ensures CommittedBy(s, s.journal[k].tx, s.snaps[tx])
    {
      assert k <= base.id by {
        if Has(ch, k) {
          var i :| 0 <= i < |ch| && ch[i].id == k;
          assert VersionOf(s, row, ch[i]);
        }
      }
    }
  }

  lemma NewestOfTarget(s: Db, row: RowId, tx: TxId, index: nat)
    requires row in s.rows && index < |s.rows[row]| && tx in s.snaps
    requires VisibleForWrite(s.states, s.rows[row], s.snaps[tx], tx) == Base(index)
    requires forall i :: 0 <= i < index ==> IsAborted(s, s.rows[row][i].beginTx)
    ensures NewestIsPayload(s, s.rows[row], tx)
  {
    assert Newest(s, s.rows[row], tx, index);
  }

  lemma StageOk(s: Db, tx: TxId, row: RowId, deleted: bool, payload: Payload, s': Db)
    requires Inv(s) && Enabled(s, Stage(tx, row, deleted, payload)) && Guarded(s, Stage(tx, row, deleted, payload))
    requires var index := VisibleForWrite(s.states, s.rows[row], s.snaps[tx], tx).index;
             index < |s.rows[row]| &&
             s' == s.(staged := s.staged[tx := Staged(row, deleted, payload, Below(s.rows[row], index, tx))])
    ensures Inv(s')
  {
    hide WriteOrder, JournalOk, CsnsOk, ChainOk, SawAll, VisibleForWrite, SnapshotCoversRow, Below, Covers, NewestIsPayload,
         ReadersCarryOver, KeptOrCut;
    var index := VisibleForWrite(s.states, s.rows[row], s.snaps[tx], tx).index;
    SkippedAreAborted(s, row, tx, index);
    BelowIsOk(s, row, tx, index);
    WriterSawAll(s, row, tx, index);
    NewestOfTarget(s, row, tx, index);
    CsnsUntouched(s, s');
    EntriesStayOk(s, s');
    WriteOrderStays(s, s');
    UntouchedReaders(s, s');
    SawAllStays(s, s', row, tx, s.snaps[tx]);
    ChainStaysOk(s, s', row, Below(s.rows[row], index, tx), tx);
    RowsStayOk(s, s', {});
    NewestKept(s, s', row, tx);
    KeptChains(s);
    AllStagedStayOk(s, s', {tx});
  }

  lemma NewestKept(s: Db, s': Db, row: RowId, tx: TxId)
    requires row in s.rows && s'.rows == s.rows && s'.states == s.states && NewestIsPayload(s, s.rows[row], tx)
    ensures NewestIsPayload(s', s'.rows[row], tx)
  {
    var i :| 0 <= i < |s.rows[row]| && Newest(s, s.rows[row], tx, i);
    assert Newest(s', s'.rows[row], tx, i);
  }

  lemma KeptChains(s: Db)
    ensures forall r, t :: r in s.rows ==> KeptOrCut(s, s.rows[r], s.rows[r], t)
  {
  }

  /** Appending an entry whose writer saw every live write of the row. */
  lemma AppendOk(s: Db, s': Db, e: Entry)
    requires JournalOk(s) && WriteOrder(s) && SawAll(s, e.row, e.tx, e.snap)
    requires s'.journal == s.journal + [e] && s'.states == s.states && s'.snaps == s.snaps && s'.frontier == s.frontier
    requires Reading(s, e.tx) && e.snap == s.snaps[e.tx] && e.snap <= s.frontier.published
    ensures JournalOk(s') && WriteOrder(s') && Evolves(s, s')
    ensures forall r :: r != e.row ==> NoNewEntries(s, s', r)
  {
  }

  lemma NewHeadOk(s: Db, s': Db, row: RowId, v: Version, snap: Csn, below: Chain)
    requires Evolves(s, s') && ReadersCarryOver(s, s') && s'.states == s.states
    requires s'.journal == s.journal + [Entry(row, v.beginTx, snap, v.deleted, v.payload)]
    requires v.id == |s.journal| && v.endTx == 0 && ChainOk(s, row, below, v.beginTx)
    ensures ChainOk(s', row, [v] + below, 0)
  {
    hide ReadersCarryOver, Replaced;
    var ch := [v] + below;
    forall i | 0 <= i < |ch| ensures VersionOf(s', row, ch[i]) {
      if i > 0 {
        assert VersionOf(s, row, below[i - 1]);
      }
    }
    forall k | 0 <= k < |s'.journal| && s'.journal[k].row == row && !IsAborted(s', s'.journal[k].tx)
      ensures Has(ch, k) || LeftOut(s', row, ch, k)
    {
      if k == |s.journal| {
        assert ch[0].id == k;
      } else {
        assert s'.journal[k] == s.journal[k];
        if Has(below, k) {
          var i :| 0 <= i < |below| && below[i].id == k;
          assert ch[i + 1].id == k;
        } else if !s.journal[k].deleted {
          ReplacedStays(s, s', row, k);
        }
      }
    }
  }

  lemma InstallOk(s: Db, tx: TxId, s': Db)
    requires Inv(s) && tx in s.staged && tx in s.snaps
    requires var w := s.staged[tx];
             s' == s.(rows := s.rows[w.row := [NewVersion(s, tx, w.deleted, w.payload)] + w.below],
                      staged := s.staged - {tx},
                      journal := s.journal + [Entry(w.row, tx, s.snaps[tx], w.deleted, w.payload)])
    ensures Inv(s')
  {
    hide WriteOrder, CsnsOk, ChainOk, Evolves, NoNewEntries, JournalOk, SawAll, Covers, ReadersCarryOver, NewestIsPayload, KeptOrCut;
    var w := s.staged[tx];
    assert StagedOk(s, tx);
    AppendOk(s, s', Entry(w.row, tx, s.snaps[tx], w.deleted, w.payload));
    UntouchedReaders(s, s');
    NewHeadOk(s, s', w.row, NewVersion(s, tx, w.deleted, w.payload), s.snaps[tx], w.below);
    CsnsUntouched(s, s');
    RowsStayOk(s, s', {w.row});
    KeptChains(s);
    forall t <- s'.staged ensures t in s.staged && StillStaged(s, s', t) {
      assert StagedOk(s, t);
    }
    AllStagedStayOk(s, s', {});
  }

  // ---- Inserting -----------------------------------------------------------------------------

  /** In a vacated row no reader is left to whom another's payload would be the latest. */
  lemma VacatedReplaces(s: Db, row: RowId, tx: TxId, s': Db, i: nat)
    requires row in s.rows && FromJournal(s, row, s.rows[row]) && Vacated(s, row, tx) && Running(s, tx)
    requires i < |s.rows[row]| && !s.rows[row][i].deleted && IsLive(s.states, s.rows[row][i].beginTx)
    requires s'.states == s.states && s'.snaps == s.snaps && s'.frontier == s.frontier
    requires |s'.journal| == |s.journal| + 1 && s'.journal[..|s.journal|] == s.journal
    requires s'.journal[|s.journal|].row == row && s'.journal[|s.journal|].tx == tx
    ensures s.rows[row][i].id < |s.journal| && Replaced(s', row, s.rows[row][i].id)
  {
    var ch := s.rows[row];
    var k, n := ch[i].id, |s.journal|;
    assert VersionOf(s, row, ch[i]) && s'.journal[k] == s.journal[k];
    forall csn, owner | Usable(s', csn, owner) && TxVisible(s'.states, s'.journal[k].tx, csn, owner)
      ensures LaterSeen(s', row, k, csn, owner)
    {
      if owner == Some(tx) || ch[i].beginTx == tx {
        assert TxVisible(s'.states, s'.journal[n].tx, csn, owner);
      } else {
        var j :| 0 <= j < i && Supersedes(s, ch, tx, j, i);
        assert VersionOf(s, row, ch[j]) && s'.journal[ch[j].id] == s.journal[ch[j].id];
        assert TxVisible(s'.states, s'.journal[ch[j].id].tx, csn, owner);
      }
    }
  }

  lemma InsertedChainOk(s: Db, tx: TxId, row: RowId, payload: Payload, s': Db)
    requires JournalOk(s) && Evolves(s, s') && ReadersCarryOver(s, s') && Running(s, tx) && tx in s.snaps
    requires if row in s.rows then ChainOk(s, row, s.rows[row], 0) else Covers(s, row, [])
    requires Vacated(s, row, tx)
    requires s'.states == s.states && s'.snaps == s.snaps && s'.frontier == s.frontier
    requires s'.journal == s.journal + [Entry(row, tx, s.snaps[tx], false, payload)]
    ensures ChainOk(s', row, [NewVersion(s, tx, false, payload)], 0)
  {
    hide ReadersCarryOver, Replaced, Vacated, JournalOk;
    var ch := [NewVersion(s, tx, false, payload)];
    forall k | 0 <= k < |s'.journal| && s'.journal[k].row == row && !IsAborted(s', s'.journal[k].tx)
      ensures Has(ch, k) || LeftOut(s', row, ch, k)
    {
      if k == |s.journal| {
        assert ch[0].id == k;
      } else {
        assert s'.journal[k] == s.journal[k];
        if !s.journal[k].deleted {
          if row in s.rows && Has(s.rows[row], k) {
            var i :| 0 <= i < |s.rows[row]| && s.rows[row][i].id == k;
            assert VersionOf(s, row, s.rows[row][i]);
            VacatedReplaces(s, row, tx, s', i);
          } else {
            ReplacedStays(s, s', row, k);
          }
        }
      }
    }
  }

  /** Nobody else has a write staged on a vacated row. */
  lemma VacatedIsUnstaged(s: Db, row: RowId, tx: TxId, t: TxId)
    requires Running(s, tx) && row in s.rows && Vacated(s, row, tx) && NewestIsPayload(s, s.rows[row], t) && Running(s, t)
    ensures t == tx
  {
    var ch := s.rows[row];
    var i :| 0 <= i < |ch| && Newest(s, ch, t, i);
  }

  lemma SeenIsSawAll(s: Db, row: RowId, tx: TxId)
    requires tx in s.snaps && EarlierWritesSeen(s, row, tx)
    ensures SawAll(s, row, tx, s.snaps[tx])
  {
  }

  lemma InsertOk(s: Db, tx: TxId, row: RowId, payload: Payload, s': Db)
    requires Inv(s) && Ready(s, tx) && tx in s.snaps && Vacated(s, row, tx) && EarlierWritesSeen(s, row, tx)
    requires s' == s.(rows := s.rows[row := [NewVersion(s, tx, false, payload)]],
                      journal := s.journal + [Entry(row, tx, s.snaps[tx], false, payload)])
    ensures Inv(s')
  {
    hide WriteOrder, CsnsOk, ChainOk, Evolves, NoNewEntries, JournalOk, SawAll, Covers, ReadersCarryOver, NewestIsPayload, KeptOrCut,
         Vacated, EarlierWritesSeen;
    SeenIsSawAll(s, row, tx);
    AppendOk(s, s', Entry(row, tx, s.snaps[tx], false, payload));
    UntouchedReaders(s, s');
    InsertedChainOk(s, tx, row, payload, s');
    CsnsUntouched(s, s');
    RowsStayOk(s, s', {row});
    KeptChains(s);
    forall t <- s'.staged ensures StillStaged(s, s', t) {
      assert StagedOk(s, t);
      if s.staged[t].row == row {
        VacatedIsUnstaged(s, row, tx, t);
      }
    }
    AllStagedStayOk(s, s', {});
  }

  // ---- Vacuum --------------------------------------------------------------------------------

  /** What vacuum takes from under the head is what no reader it spares was reading. */
  lemma SparedReplaces(s: Db, row: RowId, k: nat)
    requires Inv(s) && row in s.rows && s.rows[row] != [] && SparesReaders(s, row)
    requires Vacuumed(s.states, s.rows[row], s.horizon) != Some(s.rows[row])
    requires k < |s.journal| && s.journal[k].row == row && !s.journal[k].deleted && !IsAborted(s, s.journal[k].tx)
    requires k != s.rows[row][0].id
    ensures Replaced(s, row, k) && k < s.rows[row][0].id
  {
    hide CsnsOk, JournalOk, WriteOrder, StagedOk, Replaced, Covers, Latest, ReadVersion, Usable, LaterSeen;
    HeadIsNewest(s, row, k);
    var ch := s.rows[row];
    assert VersionOf(s, row, ch[0]);
    HeadIsBelowHorizon(s, row);
    forall csn, owner | Usable(s, csn, owner) && TxVisible(s.states, s.journal[k].tx, csn, owner)
      ensures LaterSeen(s, row, k, csn, owner)
    {
      ReaderSeesLater(s, row, k, csn, owner);
    }
    ReplacedIntro(s, row, k);
  }

  lemma ReplacedIntro(s: Db, row: RowId, k: nat)
    requires k < |s.journal|
    requires forall csn, owner :: Usable(s, csn, owner) && TxVisible(s.states, s.journal[k].tx, csn, owner) ==>
               LaterSeen(s, row, k, csn, owner)
    ensures Replaced(s, row, k)
  {
  }

  lemma HeadIsNewest(s: Db, row: RowId, k: nat)
    requires row in s.rows && ChainOk(s, row, s.rows[row], 0)
    requires k < |s.journal| && s.journal[k].row == row && !IsAborted(s, s.journal[k].tx)
    ensures k <= s.rows[row][0].id
  {
    hide Replaced;
    var ch := s.rows[row];
    if Has(ch, k) {
      var i :| 0 <= i < |ch| && ch[i].id == k;
    }
  }

  lemma HeadIsBelowHorizon(s: Db, row: RowId)
    requires row in s.rows && ChainOk(s, row, s.rows[row], 0) && SnapsOk(s)
    requires Vacuumed(s.states, s.rows[row], s.horizon) != Some(s.rows[row])
    ensures CommittedBy(s, s.rows[row][0].beginTx, s.frontier.published)
  {
    hide Covers;
    var ch := s.rows[row];
    if !ch[0].deleted {
      assert ch[1] == ch[1..][0] && ch[1] in ch[1..];
    }
  }

  lemma ReaderSeesLater(s: Db, row: RowId, k: nat, csn: Csn, owner: Option<TxId>)
    requires Inv(s) && row in s.rows && s.rows[row] != [] && SparesReaders(s, row)
    requires Vacuumed(s.states, s.rows[row], s.horizon) != Some(s.rows[row])
    requires k < |s.journal| && s.journal[k].row == row && !s.journal[k].deleted && k < s.rows[row][0].id
    requires CommittedBy(s, s.rows[row][0].beginTx, s.frontier.published)
    requires Usable(s, csn, owner) && TxVisible(s.states, s.journal[k].tx, csn, owner)
    ensures LaterSeen(s, row, k, csn, owner)
  {
    hide CsnsOk, JournalOk, WriteOrder, StagedOk, Covers, Latest, ReadVersion, Vacuumed;
    var ch := s.rows[row];
    assert VersionOf(s, row, ch[0]);
    LatestIsNewest(s, row, csn, owner);
    ReadIsReplay(s, row, csn, owner);
  }

  lemma PrunedChainOk(s: Db, row: RowId, s': Db)
    requires Inv(s) && row in s.rows && s.rows[row] != [] && SparesReaders(s, row)
    requires Vacuumed(s.states, s.rows[row], s.horizon) == Some([s.rows[row][0]])
    requires Vacuumed(s.states, s.rows[row], s.horizon) != Some(s.rows[row])
    requires s' == s.(rows := s.rows[row := [s.rows[row][0]]])
    ensures ChainOk(s', row, [s.rows[row][0]], 0)
  {
    hide CsnsOk, JournalOk, WriteOrder, StagedOk, Replaced, SparesReaders, Vacuumed;
    var ch, cut := s.rows[row], [s.rows[row][0]];
    assert VersionOf(s, row, ch[0]);
    assert VersionOf(s', row, ch[0]);
    forall k | 0 <= k < |s'.journal| && s'.journal[k].row == row && !IsAborted(s', s'.journal[k].tx)
      ensures Has(cut, k) || LeftOut(s', row, cut, k)
    {
      HeadIsNewest(s, row, k);
      if k == ch[0].id {
        assert cut[0].id == k;
      } else if !s.journal[k].deleted {
        SparedReplaces(s, row, k);
        SameReplaced(s, s', row, k);
      }
    }
  }

  lemma SameReplaced(s: Db, s': Db, row: RowId, k: nat)
    requires s' == s.(rows := s'.rows) && k < |s.journal| && Replaced(s, row, k)
    ensures Replaced(s', row, k)
  {
    hide TxVisible;
    forall csn, owner | Usable(s', csn, owner) && TxVisible(s'.states, s'.journal[k].tx, csn, owner)
      ensures LaterSeen(s', row, k, csn, owner)
    {
      assert Usable(s, csn, owner);
      assert LaterSeen(s, row, k, csn, owner);
    }
  }

  lemma DroppedRowOk(s: Db, row: RowId, s': Db)
    requires Inv(s) && row in s.rows && s.rows[row] != [] && SparesReaders(s, row)
    requires Vacuumed(s.states, s.rows[row], s.horizon) == None && s' == s.(rows := s.rows - {row})
    ensures Covers(s', row, [])
  {
    hide CsnsOk, JournalOk, WriteOrder, StagedOk, Replaced, SparesReaders;
    var ch := s.rows[row];
    assert VersionOf(s, row, ch[0]);
    forall k | 0 <= k < |s'.journal| && s'.journal[k].row == row && !IsAborted(s', s'.journal[k].tx)
      ensures LeftOut(s', row, [], k)
    {
      if !s.journal[k].deleted {
        SparedReplaces(s, row, k);
        SameReplaced(s, s', row, k);
      }
    }
  }

  /** A staged write's row has a payload on top, so vacuum at most cuts it to that. */
  lemma StagedRowIsCut(s: Db, row: RowId, t: TxId)
    requires row in s.rows && s.rows[row] != [] && NewestIsPayload(s, s.rows[row], t)
    requires Vacuumed(s.states, s.rows[row], s.horizon) != Some(s.rows[row])
    ensures Vacuumed(s.states, s.rows[row], s.horizon).Some?
    ensures KeptOrCut(s, s.rows[row], Vacuumed(s.states, s.rows[row], s.horizon).value, t)
  {
    hide AllEnded;
    var i :| 0 <= i < |s.rows[row]| && Newest(s, s.rows[row], t, i);
    assert i == 0;
  }

  lemma VacuumedBooks(s: Db, s': Db)
    requires Books(s) && s' == s.(rows := s'.rows)
    ensures Books(s') && Evolves(s, s')
  {
    hide WriteOrder, CsnsOk, JournalOk;
    CsnsUntouched(s, s');
    EntriesStayOk(s, s');
    WriteOrderStays(s, s');
  }

  lemma VacuumOk(s: Db, row: RowId)
    requires Inv(s) && row in s.rows && s.rows[row] != [] && SparesReaders(s, row)
    ensures Inv(AfterVacuum(s, row))
  {
    hide WriteOrder, CsnsOk, ChainOk, Evolves, JournalOk, Covers, ReadersCarryOver, NewestIsPayload, KeptOrCut, SnapsOk,
         SparesReaders, Vacuumed;
    var s', left := AfterVacuum(s, row), Vacuumed(s.states, s.rows[row], s.horizon);
    if left == Some(s.rows[row]) {
      assert s.rows[row := s.rows[row]] == s.rows;
    } else {
      VacuumedBooks(s, s');
      UntouchedReaders(s, s');
      RowsUnchanged(s, s', row);
      RowsStayOk(s, s', {row});
      if left.None? {
        DroppedRowOk(s, row, s');
      } else {
        PrunedChainOk(s, row, s');
      }
      KeptChains(s);
      forall t <- s'.staged ensures StillStaged(s, s', t) {
        assert StagedOk(s, t);
        if s.staged[t].row == row {
          StagedRowIsCut(s, row, t);
        }
      }
      AllStagedStayOk(s, s', {});
    }
  }

  lemma RowsUnchanged(s: Db, s': Db, row: RowId)
    requires s' == s.(rows := s'.rows) && (s'.rows == s.rows - {row} || (row in s'.rows && s'.rows == s.rows[row := s'.rows[row]]))
    ensures forall r :: r != row ==> (r in s'.rows <==> r in s.rows) && (r in s.rows ==> s'.rows[r] == s.rows[r])
    ensures forall r :: NoNewEntries(s, s', r)
  {
  }

  // ---- All steps -----------------------------------------------------------------------------

  lemma BooksThenInv(s: Db, s': Db)
    requires Inv(s) && Books(s') && Evolves(s, s') && ReadersCarryOver(s, s')
    requires s'.journal == s.journal && s'.rows == s.rows && s'.staged.Keys <= s.staged.Keys
    requires forall t <- s'.staged ::
               && s'.staged[t] == s.staged[t]
               && Reading(s', t) && t !in s'.reserved && t in s.snaps && s'.snaps[t] == s.snaps[t]
               && s.staged[t].row in s'.locks && s'.locks[s.staged[t].row] == t
    ensures Inv(s')
  {
    hide WriteOrder, CsnsOk, ChainOk, JournalOk, SnapsOk, StagedOk, Covers, ReadersCarryOver, KeptOrCut;
    StagedFacts(s);
    KeptChains(s);
    RowsStayOk(s, s', {});
    AllStagedStayOk(s, s', {});
  }

  lemma StagedFacts(s: Db)
    requires Inv(s)
    ensures forall t <- s.staged :: Reading(s, t) && t !in s.reserved
                && s.staged[t].row in s.locks && s.locks[s.staged[t].row] == t && s.staged[t].row in s.rows
  {
  }

  lemma {:induction false} BookkeepingOk(s: Db, a: Action, s': Db)
    requires Inv(s) && Enabled(s, a) && s' == Apply(s, a)
    requires !a.Insert? && !a.Stage? && !a.Install? && !a.Unstage? && !a.VacuumRow?
    ensures Books(s') && Evolves(s, s')
  {
    hide CsnsOk, SnapsOk, JournalOk, WriteOrder, ChainOk, StagedOk, Evolves, Advance, IsOldestActive, Covers;
    assert Books(s);
    match a {
      case Begin => BeginOk(s, s');
      case TakeSnapshot(tx) => SnapshotOk(s, tx, s');
      case Register(tx) => RegisterOk(s, tx, s');
      case Lock(tx, row) => LockOk(s, s');
      case Reserve(tx) => ReserveOk(s, tx, s');
      case MarkCommitted(tx) => MarkCommittedOk(s, tx, s');
      case Complete(tx) => ResolveOk(s, tx, s.frontier.(completed := s.frontier.completed + {s.reserved[tx]}), s');
      case Skip(tx) => ResolveOk(s, tx, s.frontier.(skipped := s.frontier.skipped + {s.reserved[tx]}), s');
      case Abort(tx) => AbortOk(s, tx, s');
      case Finish(tx) => FinishOk(s, tx, s');
      case ComputeHorizon(csn) => HorizonOk(s, csn, s');
    }
  }

  lemma LockOk(s: Db, s': Db)
    requires Books(s) && s' == s.(locks := s'.locks, staged := s'.staged)
    ensures Books(s') && Evolves(s, s')
  {
    hide WriteOrder, JournalOk, CsnsOk;
    CsnsUntouched(s, s');
    EntriesStayOk(s, s');
    WriteOrderStays(s, s');
  }

  lemma StagedAreUndisturbed(s: Db, a: Action, s': Db)
    requires Inv(s) && Enabled(s, a) && s' == Apply(s, a)
    requires !a.Insert? && !a.Stage? && !a.Install? && !a.VacuumRow?
    ensures s'.journal == s.journal && s'.rows == s.rows && s'.staged.Keys <= s.staged.Keys
    ensures forall t <- s'.staged ::
               && s'.staged[t] == s.staged[t]
               && Reading(s', t) && t !in s'.reserved && t in s.snaps && s'.snaps[t] == s.snaps[t]
               && s.staged[t].row in s'.locks && s'.locks[s.staged[t].row] == t
  {
    hide Inv, Advance, IsOldestActive, IsAborted, AfterVacuum, VisibleForWrite;
    StagedFacts(s);
  }

  lemma StepCarriesReaders(s: Db, a: Action, s': Db)
    requires Books(s) && Enabled(s, a) && s' == Apply(s, a)
    requires !a.Insert? && !a.Stage? && !a.Install? && !a.VacuumRow?
    ensures ReadersCarryOver(s, s')
  {
    hide CsnsOk, SnapsOk, JournalOk, WriteOrder, Advance, IsOldestActive, ReadersCarryOver, VisibleForWrite;
    match a {
      case Begin =>
        CsnsBegin(s, s');
        BeginReaders(s, s');
      case TakeSnapshot(tx) => SnapshotReaders(s, tx, s');
      case MarkCommitted(tx) => CommitReaders(s, tx, s');
      case Abort(tx) => AbortReaders(s, tx, s');
      case Complete(tx) =>
        CsnsResolve(s, tx, s.frontier.(completed := s.frontier.completed + {s.reserved[tx]}), s');
        UntouchedReaders(s, s');
      case Skip(tx) =>
        CsnsResolve(s, tx, s.frontier.(skipped := s.frontier.skipped + {s.reserved[tx]}), s');
        UntouchedReaders(s, s');
      case _ => UntouchedReaders(s, s');
    }
  }

  /** Every guarded step of the system keeps the invariant. */
  lemma StepKeepsInv(s: Db, a: Action)
    requires Inv(s) && Enabled(s, a) && Guarded(s, a)
    ensures Inv(Apply(s, a))
  {
    hide Inv, AfterVacuum, Below, Vacated, EarlierWritesSeen, SparesReaders, SnapshotCoversRow, VisibleForWrite;
    var s' := Apply(s, a);
    match a {
      case Insert(tx, row, payload) => InsertOk(s, tx, row, payload, s');
      case Stage(tx, row, deleted, payload) =>
        BaseIsInChain(s.states, s.rows[row], s.snaps[tx], tx);
        StageOk(s, tx, row, deleted, payload, s');
      case Install(tx) => InstallOk(s, tx, s');
      case VacuumRow(row) => VacuumOk(s, row);
      case _ => OtherStepKeepsInv(s, a);
    }
  }

  lemma BaseIsInChain(states: States, ch: Chain, csn: Csn, tx: TxId)
    requires ch != [] && VisibleForWrite(states, ch, csn, tx).Base?
    ensures VisibleForWrite(states, ch, csn, tx).index < |ch|
  {
  }

  lemma OtherStepKeepsInv(s: Db, a: Action)
    requires Inv(s) && Enabled(s, a)
    requires !a.Insert? && !a.Stage? && !a.Install? && !a.VacuumRow?
    ensures Inv(Apply(s, a))
  {
    hide Inv, Books, Evolves, Apply, Enabled, ReadersCarryOver;
    var s' := Apply(s, a);
    InvHasBooks(s);
    StagedAreUndisturbed(s, a, s');
    StepCarriesReaders(s, a, s');
    if a.Unstage? {
      UnstageOk(s, a.tx, s');
    } else {
      BookkeepingOk(s, a, s');
    }
    BooksThenInv(s, s');
  }

  lemma InvHasBooks(s: Db)
    requires Inv(s)
    ensures Books(s)
  {
  }

  lemma UnstageOk(s: Db, tx: TxId, s': Db)
    requires Inv(s) && Enabled(s, Unstage(tx)) && s' == Apply(s, Unstage(tx))
    ensures Books(s') && Evolves(s, s')
  {
    hide CsnsOk, SnapsOk, JournalOk, WriteOrder, ChainOk, StagedOk, Evolves, Covers;
    LockOk(s, s');
  }
}
