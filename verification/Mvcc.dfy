/**
 Snapshot reads of the storage kernel: the commit-sequence frontier of
 `crates/kernel/src/engine/tx/status.rs`, row versions linked through undo records
 (`crates/kernel/src/engine/page_heap/mutation/read.rs`, `.../write/append.rs`) and vacuum
 (`.../directory/vacuum.rs`), as atomic steps of any number of transactions.

 The reference is a journal: every installed version, in order, never pruned. A snapshot read
 should return the newest journal entry of the row whose writer the snapshot can see.
 */
module Mvcc {
  import opened Chars

  type Payload = string
  type TxId = nat
  type Csn = nat
  type RowId = nat

  datatype TxState = InProgress | Committed(csn: Csn) | Aborted
  type States = map<TxId, TxState>

  /** A tuple version. `id` stands for its tuple pointer; `endTx` 0 means it was not superseded. */
  datatype Version = Version(id: nat, beginTx: TxId, endTx: TxId, deleted: bool, payload: Payload)

  /** A row's head followed by the before-images its undo pointers reach, newest first. */
  type Chain = seq<Version>

  // ---- Visibility ----------------------------------------------------------------------------

  function StateOf(states: States, tx: TxId): TxState {
    if tx in states then states[tx] else Aborted
  }

  predicate TxVisible(states: States, tx: TxId, csn: Csn, owner: Option<TxId>) {
    owner == Some(tx) || (StateOf(states, tx).Committed? && StateOf(states, tx).csn <= csn)
  }

  datatype Visibility = Visible | Deleted | Invisible

  function VisibilityOf(states: States, v: Version, csn: Csn, owner: Option<TxId>): Visibility {
    if !TxVisible(states, v.beginTx, csn, owner) then Invisible
    else if v.endTx != 0 && TxVisible(states, v.endTx, csn, owner) then Invisible
    else if v.deleted then Deleted
    else Visible
  }

  /** The version at which the walk along the undo chain stops. */
  function ReadVersion(states: States, ch: Chain, csn: Csn, owner: Option<TxId>): Option<Version> {
    if ch == [] then None
    else if VisibilityOf(states, ch[0], csn, owner).Invisible? then ReadVersion(states, ch[1..], csn, owner)
    else Some(ch[0])
  }

  function PayloadOf(v: Option<Version>): Option<Payload> {
    if v.Some? && !v.value.deleted then Some(v.value.payload) else None
  }

  /** `get` and `get_from_undo`: a loop over the undo pointers. */
  method Get(states: States, ch: Chain, csn: Csn, owner: Option<TxId>) returns (r: Option<Payload>)
    ensures r == PayloadOf(ReadVersion(states, ch, csn, owner))
  {
    var cursor := 0;
    while cursor < |ch|
      invariant cursor <= |ch|
      invariant ReadVersion(states, ch, csn, owner) == ReadVersion(states, ch[cursor..], csn, owner)
    {
      var v := ch[cursor];
      match VisibilityOf(states, v, csn, owner) {
        case Visible => return Some(v.payload);
        case Deleted => return None;
        case Invisible =>
          assert ch[cursor..][1..] == ch[cursor + 1..];
          cursor := cursor + 1;
      }
    }
    return None;
  }

  // ---- Choosing the version to overwrite -----------------------------------------------------

  datatype WriteTarget = Base(index: nat) | NotVisible | SerializationFailure

  function FirstVisible(states: States, ch: Chain, csn: Csn, owner: Option<TxId>, from: nat): (w: WriteTarget)
    requires from <= |ch|
    ensures w.Base? ==> from <= w.index < |ch| && VisibilityOf(states, ch[w.index], csn, owner).Visible?
    ensures w.Base? ==> forall i :: from <= i < w.index ==> VisibilityOf(states, ch[i], csn, owner).Invisible?
    ensures w.NotVisible? <==> forall i :: from <= i < |ch| && VisibilityOf(states, ch[i], csn, owner).Visible? ==>
              exists j :: from <= j < i && VisibilityOf(states, ch[j], csn, owner).Deleted?
    ensures !w.SerializationFailure?
    decreases |ch| - from
  {
    if from == |ch| then NotVisible
    else match VisibilityOf(states, ch[from], csn, owner)
      case Visible => Base(from)
      case Deleted => NotVisible
      case Invisible => FirstVisible(states, ch, csn, owner, from + 1)
  }

  /** `visible_current_tuple_for_write`. */
  function VisibleForWrite(states: States, ch: Chain, csn: Csn, tx: TxId): WriteTarget
    requires ch != []
  {
    match VisibilityOf(states, ch[0], csn, Some(tx))
    case Visible => Base(0)
    case Deleted => NotVisible
    case Invisible =>
      if StateOf(states, ch[0].beginTx).Aborted? then FirstVisible(states, ch, csn, Some(tx), 1)
      else SerializationFailure
  }

  /**
   What a caller can check before a write: unless the newest version was aborted, anything; and
   if it was, that the snapshot covers every committed version of the row.
   */
  predicate SnapshotCoversRow(states: States, ch: Chain, csn: Csn)
    requires ch != []
  {
    StateOf(states, ch[0].beginTx).Aborted? ==>
      forall v <- ch :: StateOf(states, v.beginTx).Committed? ==> StateOf(states, v.beginTx).csn <= csn
  }

  // ---- The commit-sequence frontier ----------------------------------------------------------

  datatype Frontier = Frontier(published: Csn, completed: set<Csn>, skipped: set<Csn>)

  /** `advance_published_csn`. */
  function Advance(f: Frontier): Frontier
    decreases |f.completed| + |f.skipped|
  {
    var next := f.published + 1;
    if next in f.completed then Advance(f.(published := next, completed := f.completed - {next}))
    else if next in f.skipped then Advance(f.(published := next, skipped := f.skipped - {next}))
    else f
  }

  /** The frontier moves over exactly the unbroken run of resolved numbers above it. */
  lemma {:induction false} AdvanceStopsAtFirstGap(f: Frontier)
    requires f.completed !! f.skipped
    ensures var g := Advance(f);
            && f.published <= g.published
            && (forall c :: f.published < c <= g.published ==> c in f.completed || c in f.skipped)
            && g.published + 1 !in f.completed && g.published + 1 !in f.skipped
            && (forall c :: c in g.completed <==> c in f.completed && !(f.published < c <= g.published))
            && (forall c :: c in g.skipped <==> c in f.skipped && !(f.published < c <= g.published))
    decreases |f.completed| + |f.skipped|
  {
    var next := f.published + 1;
    if next in f.completed {
      var f' := f.(published := next, completed := f.completed - {next});
      AdvanceStopsAtFirstGap(f');
      assert next !in f.skipped;
      assert Advance(f) == Advance(f');
    } else if next in f.skipped {
      var f' := f.(published := next, skipped := f.skipped - {next});
      AdvanceStopsAtFirstGap(f');
      assert Advance(f) == Advance(f');
    }
  }

  /** The mutable frontier behind its mutex. */
  class CsnFrontier {
    var published: Csn
    var completed: set<Csn>
    var skipped: set<Csn>

    ghost function Contents(): Frontier
      reads this
    {
      Frontier(published, completed, skipped)
    }

    constructor ()
      ensures Contents() == Frontier(0, {}, {})
    {
      published, completed, skipped := 0, {}, {};
    }

    method CompleteCsn(csn: Csn)
      modifies this
      ensures Contents() == Advance(old(Contents()).(completed := old(completed) + {csn}))
    {
      completed := completed + {csn};
      AdvancePublished();
    }

    method SkipCsn(csn: Csn)
      modifies this
      ensures Contents() == Advance(old(Contents()).(skipped := old(skipped) + {csn}))
    {
      skipped := skipped + {csn};
      AdvancePublished();
    }

    method AdvancePublished()
      modifies this
      ensures Contents() == Advance(old(Contents()))
    {
      while published + 1 in completed || published + 1 in skipped
        invariant Advance(Contents()) == Advance(old(Contents()))
        decreases |completed| + |skipped|
      {
        var next := published + 1;
        if next in completed {
          completed := completed - {next};
        } else {
          skipped := skipped - {next};
        }
        published := next;
      }
    }
  }

  // ---- The system ----------------------------------------------------------------------------

  datatype Entry = Entry(row: RowId, tx: TxId, snap: Csn, deleted: bool, payload: Payload)

  /** A write whose base has been chosen: the chain the new version will point to. */
  datatype Staged = Staged(row: RowId, deleted: bool, payload: Payload, below: Chain)

  /**
   `snaps` are the snapshots the transactions read with, `active` the registered ones. `journal`
   records every installed version for the statements below.
   */
  datatype Db = Db(
    states: States, nextTx: TxId,
    nextCsn: Csn, frontier: Frontier, reserved: map<TxId, Csn>,
    snaps: map<TxId, Csn>, active: map<TxId, Csn>, horizon: Csn,
    locks: map<RowId, TxId>, staged: map<TxId, Staged>, rows: map<RowId, Chain>,
    journal: seq<Entry>)

  function Init(): Db {
    Db(map[], 1, 1, Frontier(0, {}, {}), map[], map[], map[], 0, map[], map[], map[], [])
  }

  datatype Action =
    | Begin
    | TakeSnapshot(tx: TxId)
    | Register(tx: TxId)
    | Lock(tx: TxId, row: RowId)
    | Insert(tx: TxId, row: RowId, payload: Payload)
    | Stage(tx: TxId, row: RowId, deleted: bool, payload: Payload)
    | Install(tx: TxId)
    | Unstage(tx: TxId)
    | Reserve(tx: TxId)
    | MarkCommitted(tx: TxId)
    | Complete(tx: TxId)
    | Skip(tx: TxId)
    | Abort(tx: TxId)
    | Finish(tx: TxId)
    | ComputeHorizon(csn: Csn)
    | VacuumRow(row: RowId)

  predicate Running(s: Db, tx: TxId) {
    tx in s.states && s.states[tx].InProgress?
  }

  // Between calls: no write under way and no commit started.
  predicate Ready(s: Db, tx: TxId) {
    Running(s, tx) && tx !in s.staged && tx !in s.reserved
  }

  predicate Reading(s: Db, tx: TxId) {
    Running(s, tx) && tx in s.snaps
  }

  predicate Enabled(s: Db, a: Action) {
    match a
    case Begin => true
    case TakeSnapshot(tx) => Ready(s, tx)
    case Register(tx) => Reading(s, tx)
    case Lock(tx, row) => Ready(s, tx) && tx in s.snaps && (row in s.locks ==> s.locks[row] == tx)
    case Insert(tx, row, _) => Ready(s, tx) && tx in s.snaps
    case Stage(tx, row, _, _) =>
      && Ready(s, tx) && tx in s.snaps
      && row in s.locks && s.locks[row] == tx
      && row in s.rows && s.rows[row] != []
      && VisibleForWrite(s.states, s.rows[row], s.snaps[tx], tx).Base?
    case Install(tx) => tx in s.staged && tx in s.snaps
    case Unstage(tx) => tx in s.staged
    case Reserve(tx) => Ready(s, tx)
    case MarkCommitted(tx) => Running(s, tx) && tx in s.reserved
    case Complete(tx) => tx in s.states && s.states[tx].Committed? && tx in s.reserved
    case Skip(tx) => Running(s, tx) && tx in s.reserved
    case Abort(tx) => Running(s, tx) && tx !in s.staged
    case Finish(tx) =>
      tx in s.states && (s.states[tx].Aborted? || (s.states[tx].Committed? && tx !in s.reserved))
    case ComputeHorizon(csn) => IsOldestActive(s.active, s.frontier.published, csn)
    case VacuumRow(row) => row in s.rows && s.rows[row] != []
  }

  function NewVersion(s: Db, tx: TxId, deleted: bool, payload: Payload): Version {
    Version(|s.journal|, tx, 0, deleted, payload)
  }

  /** The undo chain of a write over `ch[index]`: its before-image, ended by the writer, and what it points to. */
  function Below(ch: Chain, index: nat, tx: TxId): Chain
    requires index < |ch|
  {
    [ch[index].(endTx := tx)] + ch[index + 1..]
  }

  /** What `oldest_active_snapshot_csn` returns. */
  predicate IsOldestActive(active: map<TxId, Csn>, published: Csn, h: Csn) {
    if active == map[] then h == published
    else (exists t <- active :: h == active[t]) && (forall t <- active :: h <= active[t])
  }

  /** `removable_undo_chain_len` found every link removable. */
  predicate AllEnded(states: States, ch: Chain, horizon: Csn) {
    forall v <- ch :: v.endTx != 0 && StateOf(states, v.endTx).Committed? && StateOf(states, v.endTx).csn < horizon
  }

  /** `vacuum_row`: what is left of a chain, None when the row goes. */
  function Vacuumed(states: States, ch: Chain, horizon: Csn): (left: Option<Chain>)
    requires ch != []
    ensures left.Some? ==> left.value == ch || left.value == [ch[0]]
  {
    if !StateOf(states, ch[0].beginTx).Committed? then Some(ch)
    else if ch[0].deleted then (if StateOf(states, ch[0].beginTx).csn < horizon then None else Some(ch))
    else if |ch| > 1 && AllEnded(states, ch[1..], horizon) then Some([ch[0]])
    else Some(ch)
  }

  function AfterVacuum(s: Db, row: RowId): (v: Db)
    requires row in s.rows && s.rows[row] != []
    ensures v == s.(rows := v.rows)
  {
    match Vacuumed(s.states, s.rows[row], s.horizon)
    case None => s.(rows := s.rows - {row})
    case Some(left) => s.(rows := s.rows[row := left])
  }

  function Apply(s: Db, a: Action): Db
    requires Enabled(s, a)
  {
    match a
    case Begin => s.(states := s.states[s.nextTx := InProgress], nextTx := s.nextTx + 1)
    case TakeSnapshot(tx) => s.(snaps := s.snaps[tx := s.frontier.published])
    case Register(tx) => s.(active := s.active[tx := s.snaps[tx]])
    case Lock(tx, row) => s.(locks := s.locks[row := tx])
    case Insert(tx, row, payload) =>
      s.(rows := s.rows[row := [NewVersion(s, tx, false, payload)]],
         journal := s.journal + [Entry(row, tx, s.snaps[tx], false, payload)])
    case Stage(tx, row, deleted, payload) =>
      var index := VisibleForWrite(s.states, s.rows[row], s.snaps[tx], tx).index;
      s.(staged := s.staged[tx := Staged(row, deleted, payload, Below(s.rows[row], index, tx))])
    case Install(tx) =>
      var w := s.staged[tx];
      s.(rows := s.rows[w.row := [NewVersion(s, tx, w.deleted, w.payload)] + w.below],
         staged := s.staged - {tx},
         journal := s.journal + [Entry(w.row, tx, s.snaps[tx], w.deleted, w.payload)])
    case Unstage(tx) => s.(staged := s.staged - {tx})
    case Reserve(tx) => s.(reserved := s.reserved[tx := s.nextCsn], nextCsn := s.nextCsn + 1)
    case MarkCommitted(tx) => s.(states := s.states[tx := Committed(s.reserved[tx])])
    case Complete(tx) =>
      s.(frontier := Advance(s.frontier.(completed := s.frontier.completed + {s.reserved[tx]})),
         reserved := s.reserved - {tx})
    case Skip(tx) =>
      s.(frontier := Advance(s.frontier.(skipped := s.frontier.skipped + {s.reserved[tx]})),
         reserved := s.reserved - {tx})
    case Abort(tx) => s.(states := s.states[tx := Aborted], active := s.active - {tx})
    case Finish(tx) =>
      s.(snaps := s.snaps - {tx}, active := s.active - {tx},
         locks := map r | r in s.locks && s.locks[r] != tx :: s.locks[r])
    case ComputeHorizon(csn) => s.(horizon := csn)
    case VacuumRow(row) => AfterVacuum(s, row)
  }

  // ---- What callers would have to check ------------------------------------------------------

  predicate IsLive(states: States, tx: TxId) {
    !StateOf(states, tx).Aborted?
  }

  predicate IsCommitted(states: States, tx: TxId) {
    StateOf(states, tx).Committed?
  }

  /** No reader but `tx` stands between the two commit numbers, and new readers see the later one. */
  predicate NobodyBetween(s: Db, tx: TxId, earlier: Csn, later: Csn) {
    && later <= s.frontier.published
    && forall t <- s.snaps :: Running(s, t) && t != tx && earlier <= s.snaps[t] ==> later <= s.snaps[t]
  }

  /** The version at `j` takes the place of the older one at `i` for every reader but `tx`. */
  predicate Supersedes(s: Db, ch: Chain, tx: TxId, j: nat, i: nat)
    requires j < |ch| && i < |ch|
  {
    || ch[j].beginTx == ch[i].beginTx
    || (IsCommitted(s.states, ch[j].beginTx) && IsCommitted(s.states, ch[i].beginTx) &&
        NobodyBetween(s, tx, StateOf(s.states, ch[i].beginTx).csn, StateOf(s.states, ch[j].beginTx).csn))
  }

  /**
   A row an insert may overwrite: every payload another transaction left in its chain has been
   superseded, for every reader, by a newer version of the chain.
   */
  predicate Vacated(s: Db, row: RowId, tx: TxId) {
    row in s.rows ==>
      var ch := s.rows[row];
      forall i :: 0 <= i < |ch| && IsLive(s.states, ch[i].beginTx) && !ch[i].deleted && ch[i].beginTx != tx ==>
        exists j :: 0 <= j < i && Supersedes(s, ch, tx, j, i)
  }

  /** Every write of the row by another transaction is rolled back, or committed within the snapshot. */
  predicate EarlierWritesSeen(s: Db, row: RowId, tx: TxId)
    requires tx in s.snaps
  {
    forall k :: 0 <= k < |s.journal| && s.journal[k].row == row && s.journal[k].tx != tx &&
                IsLive(s.states, s.journal[k].tx)
                ==> TxVisible(s.states, s.journal[k].tx, s.snaps[tx], None)
  }

  /** Vacuum leaves the row alone, or whoever reads something there reads at or above the head. */
  predicate SparesReaders(s: Db, row: RowId)
    requires row in s.rows && s.rows[row] != []
  {
    var ch := s.rows[row];
    Vacuumed(s.states, ch, s.horizon) != Some(ch) ==>
      forall t <- s.snaps :: Running(s, t) && Read(s, row, s.snaps[t], Some(t)).Some? ==>
        StateOf(s.states, ch[0].beginTx).Committed? && StateOf(s.states, ch[0].beginTx).csn <= s.snaps[t]
  }

  /**
   The conditions under which the code keeps its promise. A write over an aborted head has a
   snapshot that covers the row; an insert finds the row vacated and has seen its earlier writes;
   vacuum spares every reader.
   */
  predicate Guarded(s: Db, a: Action) {
    match a
    case Stage(tx, row, _, _) =>
      tx in s.snaps && row in s.rows && s.rows[row] != [] ==>
        SnapshotCoversRow(s.states, s.rows[row], s.snaps[tx])
    case Insert(tx, row, _) => tx in s.snaps ==> Vacated(s, row, tx) && EarlierWritesSeen(s, row, tx)
    case VacuumRow(row) => row in s.rows && s.rows[row] != [] ==> SparesReaders(s, row)
    case _ => true
  }

  // ---- The reference: replaying the journal --------------------------------------------------

  /** The newest of the first `n` journal entries of a row that a snapshot sees. */
  function Latest(s: Db, row: RowId, csn: Csn, owner: Option<TxId>, n: nat): (k: Option<nat>)
    requires n <= |s.journal|
    ensures k.Some? ==> k.value < n && s.journal[k.value].row == row && TxVisible(s.states, s.journal[k.value].tx, csn, owner)
    ensures forall i :: (if k.Some? then k.value + 1 else 0) <= i < n && s.journal[i].row == row
                        ==> !TxVisible(s.states, s.journal[i].tx, csn, owner)
  {
    if n == 0 then None
    else if s.journal[n - 1].row == row && TxVisible(s.states, s.journal[n - 1].tx, csn, owner) then Some(n - 1)
    else Latest(s, row, csn, owner, n - 1)
  }

  function Replay(s: Db, row: RowId, csn: Csn, owner: Option<TxId>): Option<Payload> {
    match Latest(s, row, csn, owner, |s.journal|)
    case None => None
    case Some(k) => if s.journal[k].deleted then None else Some(s.journal[k].payload)
  }

  function Read(s: Db, row: RowId, csn: Csn, owner: Option<TxId>): Option<Payload> {
    if row in s.rows then PayloadOf(ReadVersion(s.states, s.rows[row], csn, owner)) else None
  }
}
