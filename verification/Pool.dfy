/**
 The connection pool of `crates/redlinedb/src/pool.rs`: the critical sections on `PoolState`, and
 the protocol they form with callers, waiters and guards.
 */
module Pool {
  import opened Chars

  type Conn = nat
  type ThreadId = nat

  datatype PoolState = PoolState(idle: seq<Conn>, inUse: nat)

  // ---- Critical sections ---------------------------------------------------------------------

  datatype Attempt = GotIdle(conn: Conn) | MayConnect | MustWait

  /** One turn of the loop in `get_inner`, under the lock. */
  function Try(p: PoolState, max: nat): (PoolState, Attempt) {
    if p.idle != [] then
      (PoolState(p.idle[..|p.idle| - 1], p.inUse + 1), GotIdle(p.idle[|p.idle| - 1]))
    else if p.inUse < max then (p.(inUse := p.inUse + 1), MayConnect)
    else (p, MustWait)
  }

  function SaturatingDecrement(n: nat): nat {
    if n == 0 then 0 else n - 1
  }

  /** The end of `PooledConnection::drop`. */
  function GiveBack(p: PoolState, conn: Conn): PoolState {
    PoolState(p.idle + [conn], SaturatingDecrement(p.inUse))
  }

  class PoolInner {
    const maxConnections: nat
    var idle: seq<Conn>
    var inUse: nat

    ghost function Contents(): PoolState
      reads this
    {
      PoolState(idle, inUse)
    }

    /** `PoolBuilder::max_connections` and `build`. */
    constructor (max: nat)
      ensures maxConnections == (if max < 1 then 1 else max) && Contents() == PoolState([], 0)
    {
      maxConnections := if max < 1 then 1 else max;
      idle, inUse := [], 0;
    }

    method TryAcquire() returns (r: Attempt)
      modifies this
      ensures (Contents(), r) == Try(old(Contents()), maxConnections)
    {
      if |idle| > 0 {
        var conn := idle[|idle| - 1];
        idle := idle[..|idle| - 1];
        inUse := inUse + 1;
        return GotIdle(conn);
      }
      if inUse < maxConnections {
        inUse := inUse + 1;
        return MayConnect;
      }
      return MustWait;
    }

    /** `state.in_use -= 1` after a failed connect; the caller of a failed connect is counted. */
    method ConnectFailed()
      requires inUse > 0
      modifies this
      ensures Contents() == old(Contents()).(inUse := old(inUse) - 1)
    {
      inUse := inUse - 1;
    }

    method Release(conn: Conn)
      modifies this
      ensures Contents() == GiveBack(old(Contents()), conn)
    {
      idle := idle + [conn];
      inUse := SaturatingDecrement(inUse);
    }
  }

  // ---- The protocol --------------------------------------------------------------------------

  /**
   Where a thread is inside `get`: about to take the lock for the first time, asleep on the
   condition variable, woken by a notification or without one (both still have to take the lock),
   running `connect` with the lock released, or past a failed `connect` with the slot not yet
   given back.
   */
  datatype Phase = Arriving | Sleeping | Notified | Spurious | Connecting | Failed

  type Phases = map<ThreadId, Phase>

  function In(phases: Phases, p: Phase): set<ThreadId> {
    set t | t in phases && phases[t] == p
  }

  function Count(phases: Phases, p: Phase): nat {
    |In(phases, p)|
  }

  /**
   `guards` are checked-out connections, `returning` those whose guard is being dropped and is
   past its rollback. `nextConn` numbers new connections; `inTx` are the connections inside a
   transaction and `rollbackFailed` those whose last rollback on return failed.
   */
  datatype System = System(
    max: nat, pool: PoolState, phases: Phases,
    guards: set<Conn>, returning: set<Conn>,
    nextConn: Conn, inTx: set<Conn>, rollbackFailed: set<Conn>)

  function Init(max: nat): System
    requires max >= 1
  {
    System(max, PoolState([], 0), map[], {}, {}, 0, {}, {})
  }

  datatype Action =
    | Call(t: ThreadId)
    | TakeLock(t: ThreadId)
    | SpuriousWake(t: ThreadId)
    | ConnectOk(t: ThreadId)
    | ConnectErr(t: ThreadId)
    | GiveUpSlot(t: ThreadId, woken: Option<ThreadId>)
    | UseConn(c: Conn, inTransaction: bool)
    | BeginDrop(c: Conn, rollbackOk: bool)
    | EndDrop(c: Conn, woken: Option<ThreadId>)

  predicate Is(s: System, t: ThreadId, p: Phase) {
    t in s.phases && s.phases[t] == p
  }

  /** `notify_one` wakes one sleeper if there is any. */
  predicate MayNotify(s: System, woken: Option<ThreadId>) {
    if woken.Some? then Is(s, woken.value, Sleeping) else In(s.phases, Sleeping) == {}
  }

  function Notify(phases: Phases, woken: Option<ThreadId>): Phases {
    match woken
    case None => phases
    case Some(t) => phases[t := Notified]
  }

  predicate Enabled(s: System, a: Action) {
    match a
    case Call(t) => t !in s.phases
    case TakeLock(t) => Is(s, t, Arriving) || Is(s, t, Notified) || Is(s, t, Spurious)
    case SpuriousWake(t) => Is(s, t, Sleeping)
    case ConnectOk(t) => Is(s, t, Connecting)
    case ConnectErr(t) => Is(s, t, Connecting)
    case GiveUpSlot(t, woken) => Is(s, t, Failed) && MayNotify(s, woken)
    case UseConn(c, _) => c in s.guards
    case BeginDrop(c, _) => c in s.guards
    case EndDrop(c, woken) => c in s.returning && MayNotify(s, woken)
  }

  function Apply(s: System, a: Action): System {
    match a
    case Call(t) => s.(phases := s.phases[t := Arriving])
    case TakeLock(t) =>
      var (pool, r) := Try(s.pool, s.max);
      (match r
       case GotIdle(conn) => s.(pool := pool, phases := s.phases - {t}, guards := s.guards + {conn})
       case MayConnect => s.(pool := pool, phases := s.phases[t := Connecting])
       case MustWait => s.(pool := pool, phases := s.phases[t := Sleeping]))
    case SpuriousWake(t) => s.(phases := s.phases[t := Spurious])
    case ConnectOk(t) =>
      s.(phases := s.phases - {t}, guards := s.guards + {s.nextConn}, nextConn := s.nextConn + 1)
    case ConnectErr(t) => s.(phases := s.phases[t := Failed])
    case GiveUpSlot(t, woken) =>
      s.(phases := Notify(s.phases - {t}, woken), pool := s.pool.(inUse := SaturatingDecrement(s.pool.inUse)))
    case UseConn(c, inTransaction) =>
      s.(inTx := if inTransaction then s.inTx + {c} else s.inTx - {c})
    case BeginDrop(c, rollbackOk) =>
      var undone := c !in s.inTx || rollbackOk;
      s.(guards := s.guards - {c}, returning := s.returning + {c},
         inTx := if undone then s.inTx - {c} else s.inTx,
         rollbackFailed := if undone then s.rollbackFailed - {c} else s.rollbackFailed + {c})
    case EndDrop(c, woken) =>
      s.(returning := s.returning - {c}, pool := GiveBack(s.pool, c), phases := Notify(s.phases, woken))
  }

  ghost predicate CanRun(s: System, acts: seq<Action>)
    decreases |acts|
  {
    acts == [] || (Enabled(s, acts[0]) && CanRun(Apply(s, acts[0]), acts[1..]))
  }

  ghost function Run(s: System, acts: seq<Action>): System
    requires CanRun(s, acts)
    decreases |acts|
  {
    if acts == [] then s else Run(Apply(s, acts[0]), acts[1..])
  }

  // ---- The invariant -------------------------------------------------------------------------

  /** Every slot is accounted for. */
  ghost predicate SlotsOk(s: System) {
    && s.pool.inUse == |s.guards| + |s.returning| + Count(s.phases, Connecting) + Count(s.phases, Failed)
    && s.pool.inUse + |s.pool.idle| <= s.max
  }

  predicate NoDuplicates(q: seq<Conn>) {
    forall i, j :: 0 <= i < j < |q| ==> q[i] != q[j]
  }

  /** Every connection is in exactly one place, and none is lost. */
  ghost predicate PlacesOk(s: System) {
    && NoDuplicates(s.pool.idle)
    && (forall c :: c in s.pool.idle ==> c !in s.guards && c !in s.returning)
    && s.guards !! s.returning
    && (forall c: Conn :: c < s.nextConn <==> c in s.pool.idle || c in s.guards || c in s.returning)
  }

  /** A connection back in the pool is outside a transaction unless its rollback failed. */
  ghost predicate TransactionsOk(s: System) {
    && (forall c <- s.inTx :: c in s.guards || c in s.rollbackFailed)
    && (forall c <- s.inTx :: c < s.nextConn)
  }

  /** As long as someone sleeps, every free slot has a notified waiter on its way to it. */
  ghost predicate NoLostWakeup(s: System) {
    Count(s.phases, Sleeping) > 0 ==> Count(s.phases, Notified) >= s.max - s.pool.inUse
  }

  ghost predicate Inv(s: System) {
    SlotsOk(s) && PlacesOk(s) && TransactionsOk(s) && NoLostWakeup(s)
  }

  // ---- Every step keeps it -------------------------------------------------------------------

  lemma InitOk(max: nat)
    requires max >= 1
    ensures Inv(Init(max))
  {
  }

  function One(b: bool): nat {
    if b then 1 else 0
  }

  lemma MovedSets(phases: Phases, t: ThreadId, to: Phase, p: Phase)
    ensures In(phases[t := to], p) == if to == p then In(phases, p) + {t} else In(phases, p) - {t}
    ensures In(phases - {t}, p) == In(phases, p) - {t}
    ensures t in In(phases, p) <==> t in phases && phases[t] == p
  {
  }

  /** Moving or removing one thread changes the counts of its old and new phase by one. */
  lemma Moves(phases: Phases, t: ThreadId, to: Phase, p: Phase)
    ensures Count(phases[t := to], p) == Count(phases, p) - One(t in phases && phases[t] == p) + One(to == p)
    ensures Count(phases - {t}, p) == Count(phases, p) - One(t in phases && phases[t] == p)
  {
    hide In;
    MovedSets(phases, t, to, p);
    OneMore(In(phases, p), t);
  }

  lemma OneMore(q: set<ThreadId>, t: ThreadId)
    ensures |q + {t}| == |q| - One(t in q) + 1
    ensures |q - {t}| == |q| - One(t in q)
  {
  }

  lemma MovesAll(phases: Phases, t: ThreadId, to: Phase)
    ensures forall p :: Count(phases[t := to], p) == Count(phases, p) - One(t in phases && phases[t] == p) + One(to == p)
    ensures forall p :: Count(phases - {t}, p) == Count(phases, p) - One(t in phases && phases[t] == p)
  {
    forall p
      ensures Count(phases[t := to], p) == Count(phases, p) - One(t in phases && phases[t] == p) + One(to == p)
      ensures Count(phases - {t}, p) == Count(phases, p) - One(t in phases && phases[t] == p)
    {
      Moves(phases, t, to, p);
    }
  }

  lemma NotifyMoves(s: System, phases: Phases, woken: Option<ThreadId>)
    requires MayNotify(s, woken) && (forall t :: t in phases && phases[t] == Sleeping <==> Is(s, t, Sleeping))
    ensures forall p :: p != Sleeping && p != Notified ==> Count(Notify(phases, woken), p) == Count(phases, p)
    ensures Count(phases, Sleeping) > 0 ==> Count(Notify(phases, woken), Notified) == Count(phases, Notified) + 1
    ensures Count(phases, Sleeping) == 0 ==> Count(Notify(phases, woken), Sleeping) == 0
  {
    assert In(phases, Sleeping) == In(s.phases, Sleeping);
    if woken.Some? {
      assert woken.value in In(phases, Sleeping);
      MovesAll(phases, woken.value, Notified);
    }
  }

  lemma GotIdlePlaces(s: System, s': System)
    requires PlacesOk(s) && s.pool.idle != []
    requires var n := |s.pool.idle| - 1;
             s'.pool.idle == s.pool.idle[..n] && s'.guards == s.guards + {s.pool.idle[n]}
    requires s'.returning == s.returning && s'.nextConn == s.nextConn
    ensures PlacesOk(s')
  {
  }

  lemma TakeLockOk(s: System, t: ThreadId)
    requires Inv(s) && Enabled(s, TakeLock(t))
    ensures Inv(Apply(s, TakeLock(t)))
  {
    hide Count, PlacesOk;
    var s' := Apply(s, TakeLock(t));
    if s.pool.idle != [] {
      MovesAll(s.phases, t, Arriving);
      GotIdlePlaces(s, s');
      IdleIsElsewhere(s);
    } else if s.pool.inUse < s.max {
      MovesAll(s.phases, t, Connecting);
      SamePlaces(s, s');
    } else {
      MovesAll(s.phases, t, Sleeping);
      SamePlaces(s, s');
    }
  }

  lemma IdleIsElsewhere(s: System)
    requires PlacesOk(s) && s.pool.idle != []
    ensures var c := s.pool.idle[|s.pool.idle| - 1]; |s.guards + {c}| == |s.guards| + 1
  {
  }

  lemma SamePlaces(s: System, s': System)
    requires PlacesOk(s)
    requires s'.pool.idle == s.pool.idle && s'.guards == s.guards && s'.returning == s.returning && s'.nextConn == s.nextConn
    ensures PlacesOk(s')
  {
  }

  lemma ConnectedOk(s: System, t: ThreadId)
    requires Inv(s) && Is(s, t, Connecting)
    ensures Inv(Apply(s, ConnectOk(t)))
  {
    hide Count;
    MovesAll(s.phases, t, Arriving);
    assert |s.guards + {s.nextConn}| == |s.guards| + 1;
  }

  lemma ConnectErrOk(s: System, t: ThreadId)
    requires Inv(s) && Is(s, t, Connecting)
    ensures Inv(Apply(s, ConnectErr(t)))
  {
    hide Count, PlacesOk;
    MovesAll(s.phases, t, Failed);
    SamePlaces(s, Apply(s, ConnectErr(t)));
  }

  lemma GiveUpSlotOk(s: System, t: ThreadId, woken: Option<ThreadId>)
    requires Inv(s) && Enabled(s, GiveUpSlot(t, woken))
    ensures Inv(Apply(s, GiveUpSlot(t, woken)))
  {
    hide Count, PlacesOk, Notify;
    MovesAll(s.phases, t, Arriving);
    FailedIsCounted(s, t);
    NotifyMoves(s, s.phases - {t}, woken);
    SamePlaces(s, Apply(s, GiveUpSlot(t, woken)));
  }

  lemma FailedIsCounted(s: System, t: ThreadId)
    requires Is(s, t, Failed)
    ensures Count(s.phases, Failed) > 0
  {
    assert t in In(s.phases, Failed);
  }

  lemma BeginDropOk(s: System, c: Conn, rollbackOk: bool)
    requires Inv(s) && c in s.guards
    ensures Inv(Apply(s, BeginDrop(c, rollbackOk)))
  {
  }

  lemma EndDropPlaces(s: System, c: Conn, s': System)
    requires PlacesOk(s) && c in s.returning
    requires s'.pool.idle == s.pool.idle + [c] && s'.guards == s.guards && s'.returning == s.returning - {c}
    requires s'.nextConn == s.nextConn
    ensures PlacesOk(s')
  {
  }

  lemma EndDropOk(s: System, c: Conn, woken: Option<ThreadId>)
    requires Inv(s) && Enabled(s, EndDrop(c, woken))
    ensures Inv(Apply(s, EndDrop(c, woken)))
  {
    hide Count, PlacesOk, Notify;
    assert |s.returning - {c}| == |s.returning| - 1;
    NotifyMoves(s, s.phases, woken);
    EndDropPlaces(s, c, Apply(s, EndDrop(c, woken)));
  }

  lemma QuietStepOk(s: System, a: Action)
    requires Inv(s) && Enabled(s, a) && (a.Call? || a.SpuriousWake? || a.UseConn?)
    ensures Inv(Apply(s, a))
  {
    hide Count, PlacesOk;
    if a.UseConn? {
      GuardsAreNumbered(s);
    } else {
      MovesAll(s.phases, a.t, if a.Call? then Arriving else Spurious);
    }
    SamePlaces(s, Apply(s, a));
  }

  lemma GuardsAreNumbered(s: System)
    requires PlacesOk(s)
    ensures forall c <- s.guards :: c < s.nextConn
  {
  }

  lemma StepKeepsInv(s: System, a: Action)
    requires Inv(s) && Enabled(s, a)
    ensures Inv(Apply(s, a)) && Apply(s, a).max == s.max
  {
    hide Inv, Notify;
    match a {
      case TakeLock(t) => TakeLockOk(s, t);
      case ConnectOk(t) => ConnectedOk(s, t);
      case ConnectErr(t) => ConnectErrOk(s, t);
      case GiveUpSlot(t, woken) => GiveUpSlotOk(s, t, woken);
      case BeginDrop(c, rollbackOk) => BeginDropOk(s, c, rollbackOk);
      case EndDrop(c, woken) => EndDropOk(s, c, woken);
      case _ => QuietStepOk(s, a);
    }
  }

  // ---- Every run from an empty pool ----------------------------------------------------------

  lemma {:induction false} RunKeepsInv(s: System, acts: seq<Action>)
    requires Inv(s) && CanRun(s, acts)
    ensures Inv(Run(s, acts)) && Run(s, acts).max == s.max
    decreases |acts|
  {
    hide Inv, Enabled, Apply;
    if acts != [] {
      StepKeepsInv(s, acts[0]);
      RunKeepsInv(Apply(s, acts[0]), acts[1..]);
    }
  }

  /**
   The counter is exact, never passes the limit and never reaches the floor of its saturating
   decrement, and no connection is opened, shared or dropped behind its back.
   */
  lemma SlotsAreAccounted(max: nat, acts: seq<Action>)
    requires max >= 1 && CanRun(Init(max), acts)
    ensures var s := Run(Init(max), acts);
            && s.pool.inUse == |s.guards| + |s.returning| + Count(s.phases, Connecting) + Count(s.phases, Failed)
            && s.pool.inUse + |s.pool.idle| <= max
            && (s.returning != {} || Count(s.phases, Failed) > 0 ==> s.pool.inUse > 0)
            && NoDuplicates(s.pool.idle)
            && (forall c: Conn :: c < s.nextConn <==> c in s.pool.idle || c in s.guards || c in s.returning)
  {
    hide CanRun, Run, Count;
    InitOk(max);
    RunKeepsInv(Init(max), acts);
    var s := Run(Init(max), acts);
    if s.returning != {} {
      assert |s.returning| > 0;
    }
  }

  /** A guard is handed to one caller only: nobody gets a connection that is out or idle. */
  lemma GuardsAreExclusive(max: nat, acts: seq<Action>, c: Conn)
    requires max >= 1 && CanRun(Init(max), acts)
    ensures var s := Run(Init(max), acts);
            && !(c in s.guards && c in s.returning)
            && (c in s.guards || c in s.returning ==> c !in s.pool.idle && c != s.nextConn)
            && (c in s.pool.idle && c in s.inTx ==> c in s.rollbackFailed)
  {
    hide CanRun, Run, Count;
    InitOk(max);
    RunKeepsInv(Init(max), acts);
  }

  /** Whether a connection is inside a transaction after its users' statements and its rollbacks. */
  ghost function OpenAfter(acts: seq<Action>, c: Conn, open: bool): bool {
    if acts == [] then open
    else
      OpenAfter(acts[1..], c,
                match acts[0]
                case UseConn(d, inTransaction) => if d == c then inTransaction else open
                case BeginDrop(d, rollbackOk) => open && (d != c || !rollbackOk)
                case _ => open)
  }

  lemma {:induction false} TransactionsFollow(s: System, acts: seq<Action>, c: Conn)
    requires CanRun(s, acts)
    ensures c in Run(s, acts).inTx <==> OpenAfter(acts, c, c in s.inTx)
    decreases |acts|
  {
    hide Try, GiveBack, Notify;
    if acts != [] {
      TransactionsFollow(Apply(s, acts[0]), acts[1..], c);
    }
  }

  /**
   In every run a connection is inside a transaction exactly when its last use left it there and no
   return since rolled it back; whoever gets it next finds it so.
   */
  lemma TransactionsAreRolledBack(max: nat, acts: seq<Action>, c: Conn)
    requires max >= 1 && CanRun(Init(max), acts)
    ensures c in Run(Init(max), acts).inTx <==> OpenAfter(acts, c, false)
  {
    hide CanRun, Run;
    TransactionsFollow(Init(max), acts, c);
  }

  /**
   No wakeup is lost: when every thread that could still move is asleep, all `max` slots are held
   by callers' guards, so each sleeper waits for a connection that is really in use.
   */
  lemma SleepersWaitForGuards(max: nat, acts: seq<Action>)
    requires max >= 1 && CanRun(Init(max), acts)
    requires var s := Run(Init(max), acts);
             && s.phases != map[] && s.returning == {}
             && (forall t <- s.phases :: s.phases[t] == Sleeping)
    ensures var s := Run(Init(max), acts);
            s.pool.inUse == max == |s.guards| && s.pool.idle == []
  {
    hide CanRun, Run;
    InitOk(max);
    RunKeepsInv(Init(max), acts);
    var s := Run(Init(max), acts);
    assert In(s.phases, Notified) == {} && In(s.phases, Connecting) == {} && In(s.phases, Failed) == {};
    var t :| t in s.phases;
    assert t in In(s.phases, Sleeping);
  }

  /** Whoever sleeps while a slot is free is outnumbered by notified threads heading for it. */
  lemma WakeupsCoverFreeSlots(max: nat, acts: seq<Action>)
    requires max >= 1 && CanRun(Init(max), acts)
    ensures var s := Run(Init(max), acts);
            Count(s.phases, Sleeping) > 0 ==> Count(s.phases, Notified) >= max - s.pool.inUse
  {
    hide CanRun, Run, Count;
    InitOk(max);
    RunKeepsInv(Init(max), acts);
  }
}
