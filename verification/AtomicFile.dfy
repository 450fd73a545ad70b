/**
 The write-sync-rename-sync protocol of `write_json_atomic` and `write_text_atomic` in
 `crates/redlinedb/src/phase8.rs`, on one directory of a file system that may lose unsynced data
 and unsynced directory changes when it crashes.
 */
module AtomicFile {
  import opened Chars

  type Inode = nat
  type Bytes = string

  datatype Name = Name(stem: string, extension: string)

  /** `path.with_extension("tmp")`. */
  function TempOf(n: Name): (t: Name)
    ensures IsTemp(t)
  {
    Name(n.stem, "tmp")
  }

  predicate IsTemp(n: Name) {
    n.extension == "tmp"
  }

  // ---- The file system -----------------------------------------------------------------------

  type Directory = map<Name, Inode>

  datatype Edit = Link(name: Name, inode: Inode) | Unlink(name: Name) | Move(src: Name, dst: Name, inode: Inode)

  function ApplyEdit(d: Directory, e: Edit): Directory {
    match e
    case Link(name, inode) => d[name := inode]
    case Unlink(name) => d - {name}
    case Move(src, dst, inode) => (d - {src})[dst := inode]
  }

  datatype File = File(bytes: Bytes, synced: bool)

  /** `pending` are the directory changes made since the directory was last synced, oldest first. */
  datatype Fs = Fs(durable: Directory, pending: seq<Edit>, files: map<Inode, File>, next: Inode)

  /** The directory as running programs see it: every change applied. */
  function Cached(d: Directory, edits: seq<Edit>): Directory
    decreases |edits|
  {
    if edits == [] then d else ApplyEdit(Cached(d, edits[..|edits| - 1]), edits[|edits| - 1])
  }

  function Visible(fs: Fs): Directory {
    Cached(fs.durable, fs.pending)
  }

  /** A crash keeps any of the pending changes and loses the others. */
  ghost predicate MayRemain(d: Directory, edits: seq<Edit>, after: Directory)
    decreases |edits|
  {
    if edits == [] then after == d
    else
      var before := edits[..|edits| - 1];
      || MayRemain(d, before, after)
      || exists mid :: MayRemain(d, before, mid) && after == ApplyEdit(mid, edits[|edits| - 1])
  }

  ghost predicate Outcome(fs: Fs, after: Directory) {
    MayRemain(fs.durable, fs.pending, after)
  }

  /** After a crash the synced files are as they were; the others hold anything. */
  predicate Survives(files: map<Inode, File>, found: map<Inode, Bytes>) {
    found.Keys == files.Keys && forall i <- files :: files[i].synced ==> found[i] == files[i].bytes
  }

  function Reboot(fs: Fs, after: Directory, found: map<Inode, Bytes>): Fs {
    Fs(after, [], map i <- found :: File(found[i], true), fs.next)
  }

  // ---- System calls --------------------------------------------------------------------------

  /** `open` with create and truncate. */
  function OpenTruncated(fs: Fs, name: Name): Fs {
    var d := Visible(fs);
    if name in d then fs.(files := fs.files[d[name] := File("", false)])
    else fs.(pending := fs.pending + [Link(name, fs.next)], files := fs.files[fs.next := File("", false)], next := fs.next + 1)
  }

  function WriteAll(fs: Fs, name: Name, bytes: Bytes): Fs {
    var d := Visible(fs);
    if name in d then fs.(files := fs.files[d[name] := File(bytes, false)]) else fs
  }

  /** `fs::copy` into the directory: the bytes arrive, nothing is synced. */
  function CopyIn(fs: Fs, name: Name, bytes: Bytes): Fs {
    WriteAll(OpenTruncated(fs, name), name, bytes)
  }

  function SyncAll(fs: Fs, name: Name): Fs {
    var d := Visible(fs);
    if name in d && d[name] in fs.files then
      fs.(files := fs.files[d[name] := fs.files[d[name]].(synced := true)])
    else fs
  }

  function Rename(fs: Fs, src: Name, dst: Name): Fs {
    var d := Visible(fs);
    if src in d then fs.(pending := fs.pending + [Move(src, dst, d[src])]) else fs
  }

  function Remove(fs: Fs, name: Name): Fs {
    fs.(pending := fs.pending + [Unlink(name)])
  }

  function SyncDir(fs: Fs): Fs {
    fs.(durable := Visible(fs), pending := [])
  }

  // ---- The protocol --------------------------------------------------------------------------

  /** Which call of an atomic write comes next, and for which target and contents. */
  datatype Progress =
    | Idle
    | Opened(target: Name, bytes: Bytes)
    | Filled(target: Name, bytes: Bytes)
    | Flushed(target: Name, bytes: Bytes)
    | Renamed(target: Name, bytes: Bytes)

  /**
   `history` holds what was ever meant to be in each file: the initial contents and every atomic
   write. `loose` are the names last filled by a plain copy.
   */
  datatype System = System(fs: Fs, progress: Progress, history: set<(Name, Bytes)>, loose: set<Name>)

  datatype Action =
    | Begin(target: Name, bytes: Bytes)
    | Fill
    | Flush
    | Publish
    | Settle
    | GiveUp
    | Delete(name: Name)
    | Copy(name: Name, bytes: Bytes)
    | Crash(after: Directory, found: map<Inode, Bytes>)

  ghost predicate Enabled(s: System, a: Action) {
    match a
    case Begin(target, _) => s.progress.Idle? && !IsTemp(target)
    case Fill => s.progress.Opened?
    case Flush => s.progress.Filled?
    case Publish => s.progress.Flushed?
    case Settle => s.progress.Renamed?
    case GiveUp => !s.progress.Idle?
    case Delete(name) => s.progress.Idle?
    case Copy(_, _) => s.progress.Idle?
    case Crash(after, found) => Outcome(s.fs, after) && Survives(s.fs.files, found)
  }

  ghost function Apply(s: System, a: Action): System
    requires Enabled(s, a)
  {
    var p := s.progress;
    match a
    case Begin(target, bytes) => s.(fs := OpenTruncated(s.fs, TempOf(target)), progress := Opened(target, bytes))
    case Fill => s.(fs := WriteAll(s.fs, TempOf(p.target), p.bytes), progress := Filled(p.target, p.bytes))
    case Flush => s.(fs := SyncAll(s.fs, TempOf(p.target)), progress := Flushed(p.target, p.bytes))
    case Publish =>
      s.(fs := Rename(s.fs, TempOf(p.target), p.target), progress := Renamed(p.target, p.bytes),
         history := s.history + {(p.target, p.bytes)})
    case Settle => s.(fs := SyncDir(s.fs), progress := Idle, loose := s.loose - {p.target})
    case GiveUp => s.(progress := Idle)
    case Delete(name) => s.(fs := Remove(s.fs, name))
    case Copy(name, bytes) => s.(fs := CopyIn(s.fs, name, bytes), loose := s.loose + {name})
    case Crash(after, found) => s.(fs := Reboot(s.fs, after, found), progress := Idle)
  }

  ghost predicate CanRun(s: System, acts: seq<Action>)
    decreases |acts|
  {
    acts == [] || (Enabled(s, acts[0]) && CanRun(Apply(s, acts[0]), acts[1..]))
  }

  ghost function Run(s: System, acts: seq<Action>): System
    requires CanRun(s, acts)
    decreases |acts|
  {
    if acts == [] then s else Run(Apply(s, acts[0]), acts[1..])
  }

  // ---- The invariant -------------------------------------------------------------------------

  predicate NoHardLinks(d: Directory) {
    forall x, y :: x in d && y in d && d[x] == d[y] ==> x == y
  }

  /** Everything a crash may leave in the directory is whole, but for the files copied in. */
  ghost predicate WholeAfter(fs: Fs, history: set<(Name, Bytes)>, loose: set<Name>, d: Directory) {
    && NoHardLinks(d)
    && (forall n <- d :: d[n] < fs.next && d[n] in fs.files)
    && (forall n <- d :: !IsTemp(n) && n !in loose ==> fs.files[d[n]].synced && (n, fs.files[d[n]].bytes) in history)
  }

  /** A crash leaves a visible file under no other name, except a target under a temporary one. */
  ghost predicate NamesApart(fs: Fs, d: Directory) {
    forall x, n :: x in Visible(fs) && n in d && d[n] == Visible(fs)[x] ==> n == x || (IsTemp(n) && !IsTemp(x))
  }

  ghost predicate ProgressOk(s: System) {
    match s.progress
    case Idle => true
    case Renamed(target, bytes) =>
      var d := Visible(s.fs);
      && target in d && d[target] in s.fs.files && s.fs.files[d[target]] == File(bytes, true)
      && (target, bytes) in s.history
    case _ =>
      var t := TempOf(s.progress.target);
      && !IsTemp(s.progress.target)
      && t in Visible(s.fs) && Visible(s.fs)[t] in s.fs.files
      && (s.progress.Filled? ==> s.fs.files[Visible(s.fs)[t]].bytes == s.progress.bytes)
      && (s.progress.Flushed? ==> s.fs.files[Visible(s.fs)[t]] == File(s.progress.bytes, true))
  }

  ghost predicate FsOk(fs: Fs, history: set<(Name, Bytes)>, loose: set<Name>) {
    forall d :: Outcome(fs, d) ==> WholeAfter(fs, history, loose, d) && NamesApart(fs, d)
  }

  ghost predicate Inv(s: System) {
    ProgressOk(s) && FsOk(s.fs, s.history, s.loose)
  }

  // ---- Outcomes ------------------------------------------------------------------------------

  lemma {:induction false} AllMayRemain(d: Directory, edits: seq<Edit>)
    ensures MayRemain(d, edits, Cached(d, edits))
    decreases |edits|
  {
    if edits != [] {
      AllMayRemain(d, edits[..|edits| - 1]);
    }
  }

  lemma VisibleIsOutcome(fs: Fs)
    ensures Outcome(fs, Visible(fs))
  {
    AllMayRemain(fs.durable, fs.pending);
  }

  /** One more change is seen by programs, and may or may not outlive a crash. */
  lemma OneMoreEdit(fs: Fs, e: Edit, fs': Fs)
    requires fs'.durable == fs.durable && fs'.pending == fs.pending + [e]
    ensures Visible(fs') == ApplyEdit(Visible(fs), e)
    ensures forall d :: Outcome(fs', d) <==> Outcome(fs, d) || exists mid :: Outcome(fs, mid) && d == ApplyEdit(mid, e)
  {
  }

  // ---- System calls keep the files whole -----------------------------------------------------

  /** Contents change only under temporary and loose names, so no other target is affected. */
  lemma ContentsChange(fs: Fs, history: set<(Name, Bytes)>, loose: set<Name>, x: Name, f: File)
    requires FsOk(fs, history, loose) && (IsTemp(x) || x in loose) && x in Visible(fs)
    ensures FsOk(fs.(files := fs.files[Visible(fs)[x] := f]), history, loose)
  {
    var fs' := fs.(files := fs.files[Visible(fs)[x] := f]);
    forall d | Outcome(fs', d)
      ensures WholeAfter(fs', history, loose, d) && NamesApart(fs', d)
    {
      assert Outcome(fs, d);
      assert NamesApart(fs, d);
    }
  }

  /** The directory with one more file in it. */
  function Linked(fs: Fs, x: Name, f: File): Fs {
    fs.(pending := fs.pending + [Link(x, fs.next)], files := fs.files[fs.next := f], next := fs.next + 1)
  }

  lemma LinkNew(fs: Fs, history: set<(Name, Bytes)>, loose: set<Name>, x: Name, f: File)
    requires FsOk(fs, history, loose) && (IsTemp(x) || x in loose) && x !in Visible(fs)
    ensures FsOk(Linked(fs, x, f), history, loose)
  {
    hide Cached;
    var fs' := Linked(fs, x, f);
    OneMoreEdit(fs, Link(x, fs.next), fs');
    VisibleIsOutcome(fs);
    forall d | Outcome(fs', d)
      ensures WholeAfter(fs', history, loose, d) && NamesApart(fs', d)
    {
      if Outcome(fs, d) {
        assert WholeAfter(fs, history, loose, d) && NamesApart(fs, d);
      } else {
        var mid :| Outcome(fs, mid) && d == ApplyEdit(mid, Link(x, fs.next));
        assert WholeAfter(fs, history, loose, mid) && NamesApart(fs, mid);
        NewLink(fs, history, loose, x, f, mid, d);
      }
    }
  }

  lemma NewLink(fs: Fs, history: set<(Name, Bytes)>, loose: set<Name>, x: Name, f: File, mid: Directory, d: Directory)
    requires (IsTemp(x) || x in loose) && x !in Visible(fs) && d == mid[x := fs.next]
    requires Visible(Linked(fs, x, f)) == Visible(fs)[x := fs.next]
    requires WholeAfter(fs, history, loose, mid) && NamesApart(fs, mid) && WholeAfter(fs, history, loose, Visible(fs))
    ensures WholeAfter(Linked(fs, x, f), history, loose, d) && NamesApart(Linked(fs, x, f), d)
  {
    hide Visible;
    var fs' := Linked(fs, x, f);
    forall y, n | y in Visible(fs') && n in d && d[n] == Visible(fs')[y]
      ensures n == y || (IsTemp(n) && !IsTemp(y))
    {
      if y != x && n != x {
        assert d[n] == mid[n] && Visible(fs')[y] == Visible(fs)[y];
      }
    }
  }

  /** What a copy does: it changes the contents of a file, or links a new one. */
  lemma CopyInIs(fs: Fs, name: Name, bytes: Bytes)
    ensures var f := File(bytes, false);
            CopyIn(fs, name, bytes) ==
            if name in Visible(fs) then fs.(files := fs.files[Visible(fs)[name] := f]) else Linked(fs, name, f)
    ensures Visible(CopyIn(fs, name, bytes)) ==
            if name in Visible(fs) then Visible(fs) else Visible(fs)[name := fs.next]
  {
    hide Cached;
    if name !in Visible(fs) {
      OneMoreEdit(fs, Link(name, fs.next), OpenTruncated(fs, name));
    }
  }

  lemma CopyKeeps(fs: Fs, history: set<(Name, Bytes)>, loose: set<Name>, name: Name, bytes: Bytes)
    requires FsOk(fs, history, loose)
    ensures FsOk(CopyIn(fs, name, bytes), history, loose + {name})
  {
    hide CopyIn;
    MoreLoose(fs, history, loose, name);
    CopyInIs(fs, name, bytes);
    if name in Visible(fs) {
      ContentsChange(fs, history, loose + {name}, name, File(bytes, false));
    } else {
      LinkNew(fs, history, loose + {name}, name, File(bytes, false));
    }
  }

  lemma MoreLoose(fs: Fs, history: set<(Name, Bytes)>, loose: set<Name>, name: Name)
    requires FsOk(fs, history, loose)
    ensures FsOk(fs, history, loose + {name})
  {
    hide Outcome, Visible;
  }

  lemma RenameTemp(fs: Fs, history: set<(Name, Bytes)>, loose: set<Name>, t: Name, n: Name, bytes: Bytes)
    requires FsOk(fs, history, loose) && IsTemp(t) && !IsTemp(n) && t in Visible(fs)
    requires Visible(fs)[t] in fs.files && fs.files[Visible(fs)[t]] == File(bytes, true)
    ensures FsOk(Rename(fs, t, n), history + {(n, bytes)}, loose)
  {
    hide Cached;
    var fs', i, h := Rename(fs, t, n), Visible(fs)[t], history + {(n, bytes)};
    OneMoreEdit(fs, Move(t, n, i), fs');
    VisibleIsOutcome(fs);
    forall d | Outcome(fs', d)
      ensures WholeAfter(fs', h, loose, d) && NamesApart(fs', d)
    {
      if Outcome(fs, d) {
        assert WholeAfter(fs, history, loose, d) && NamesApart(fs, d);
      } else {
        var mid :| Outcome(fs, mid) && d == ApplyEdit(mid, Move(t, n, i));
        assert WholeAfter(fs, history, loose, mid) && NamesApart(fs, mid);
        NewMove(fs, history, loose, t, n, bytes, mid, d);
      }
    }
  }

  lemma NewMove(fs: Fs, history: set<(Name, Bytes)>, loose: set<Name>, t: Name, n: Name, bytes: Bytes, mid: Directory, d: Directory)
    requires IsTemp(t) && !IsTemp(n) && t in Visible(fs) && d == ApplyEdit(mid, Move(t, n, Visible(fs)[t]))
    requires Visible(Rename(fs, t, n)) == ApplyEdit(Visible(fs), Move(t, n, Visible(fs)[t]))
    requires Visible(fs)[t] in fs.files && fs.files[Visible(fs)[t]] == File(bytes, true)
    requires WholeAfter(fs, history, loose, mid) && NamesApart(fs, mid) && WholeAfter(fs, history, loose, Visible(fs))
    ensures WholeAfter(Rename(fs, t, n), history + {(n, bytes)}, loose, d) && NamesApart(Rename(fs, t, n), d)
  {
  }

  lemma RemoveName(fs: Fs, history: set<(Name, Bytes)>, loose: set<Name>, n: Name)
    requires FsOk(fs, history, loose)
    ensures FsOk(Remove(fs, n), history, loose)
  {
    hide Cached;
    var fs' := Remove(fs, n);
    OneMoreEdit(fs, Unlink(n), fs');
    forall d | Outcome(fs', d)
      ensures WholeAfter(fs', history, loose, d) && NamesApart(fs', d)
    {
      if Outcome(fs, d) {
        assert WholeAfter(fs, history, loose, d) && NamesApart(fs, d);
      } else {
        var mid :| Outcome(fs, mid) && d == ApplyEdit(mid, Unlink(n));
        assert WholeAfter(fs, history, loose, mid) && NamesApart(fs, mid);
      }
    }
  }

  /** A settled write is no longer loose. */
  lemma SyncDirKeeps(fs: Fs, history: set<(Name, Bytes)>, loose: set<Name>, n: Name)
    requires FsOk(fs, history, loose) && n in Visible(fs) && Visible(fs)[n] in fs.files
    requires fs.files[Visible(fs)[n]].synced && (n, fs.files[Visible(fs)[n]].bytes) in history
    ensures FsOk(SyncDir(fs), history, loose - {n})
  {
    VisibleIsOutcome(fs);
    assert forall d :: Outcome(SyncDir(fs), d) <==> d == Visible(fs);
    assert WholeAfter(fs, history, loose, Visible(fs)) && NamesApart(fs, Visible(fs));
  }

  lemma CrashKeeps(fs: Fs, history: set<(Name, Bytes)>, loose: set<Name>, after: Directory, found: map<Inode, Bytes>)
    requires FsOk(fs, history, loose) && Outcome(fs, after) && Survives(fs.files, found)
    ensures FsOk(Reboot(fs, after, found), history, loose)
  {
  }

  // ---- Every step keeps the invariant --------------------------------------------------------

  lemma StepKeepsInv(s: System, a: Action)
    requires Inv(s) && Enabled(s, a)
    ensures Inv(Apply(s, a))
  {
    hide FsOk, Outcome, Cached, WholeAfter, NamesApart, CopyIn;
    match a {
      case Begin(target, bytes) => BeginOk(s, target, bytes);
      case Fill =>
        ContentsChange(s.fs, s.history, s.loose, TempOf(s.progress.target), File(s.progress.bytes, false));
      case Flush =>
        ContentsChange(s.fs, s.history, s.loose, TempOf(s.progress.target), File(s.progress.bytes, true));
      case Publish => PublishOk(s);
      case Settle => SyncDirKeeps(s.fs, s.history, s.loose, s.progress.target);
      case GiveUp =>
      case Delete(name) => RemoveName(s.fs, s.history, s.loose, name);
      case Copy(name, bytes) => CopyKeeps(s.fs, s.history, s.loose, name, bytes);
      case Crash(after, found) => CrashKeeps(s.fs, s.history, s.loose, after, found);
    }
  }

  lemma BeginOk(s: System, target: Name, bytes: Bytes)
    requires Inv(s) && Enabled(s, Begin(target, bytes))
    ensures Inv(Apply(s, Begin(target, bytes)))
  {
    hide FsOk, WholeAfter, NamesApart;
    var t := TempOf(target);
    if t in Visible(s.fs) {
      ContentsChange(s.fs, s.history, s.loose, t, File("", false));
    } else {
      LinkNew(s.fs, s.history, s.loose, t, File("", false));
      OneMoreEdit(s.fs, Link(t, s.fs.next), OpenTruncated(s.fs, t));
    }
  }

  lemma PublishOk(s: System)
    requires Inv(s) && s.progress.Flushed?
    ensures Inv(Apply(s, Publish))
  {
    hide FsOk, WholeAfter, NamesApart, Cached, Outcome;
    var t, n := TempOf(s.progress.target), s.progress.target;
    RenameTemp(s.fs, s.history, s.loose, t, n, s.progress.bytes);
    OneMoreEdit(s.fs, Move(t, n, Visible(s.fs)[t]), Rename(s.fs, t, n));
  }

  lemma {:induction false} RunKeepsInv(s: System, acts: seq<Action>)
    requires Inv(s) && CanRun(s, acts)
    ensures Inv(Run(s, acts))
    decreases |acts|
  {
    hide Inv, Enabled, Apply;
    if acts != [] {
      StepKeepsInv(s, acts[0]);
      RunKeepsInv(Apply(s, acts[0]), acts[1..]);
    }
  }

  // ---- Nothing is ever torn ------------------------------------------------------------------

  /** A settled directory whose files hold what they are meant to hold, as found at start-up. */
  ghost predicate Fresh(s: System) {
    && s.progress.Idle? && s.fs.pending == [] && s.loose == {} && NoHardLinks(s.fs.durable)
    && (forall n <- s.fs.durable :: s.fs.durable[n] < s.fs.next && s.fs.durable[n] in s.fs.files)
    && (forall n <- s.fs.durable :: !IsTemp(n) ==>
          s.fs.files[s.fs.durable[n]].synced && (n, s.fs.files[s.fs.durable[n]].bytes) in s.history)
  }

  lemma FreshIsOk(s: System)
    requires Fresh(s)
    ensures Inv(s)
  {
  }

  /**
   Whatever writes, failures, deletions and crashes came before, a crash leaves under every target
   name a file that was written there whole, or no file, unless a copy was the last to fill it.
   */
  lemma NothingIsTorn(s: System, acts: seq<Action>, after: Directory, found: map<Inode, Bytes>, n: Name)
    requires Fresh(s) && CanRun(s, acts) && Enabled(Run(s, acts), Crash(after, found))
    requires n in after && !IsTemp(n) && n !in Run(s, acts).loose
    ensures after[n] in found && (n, found[after[n]]) in Run(s, acts).history
  {
    hide CanRun, Run, Fresh;
    FreshIsOk(s);
    RunKeepsInv(s, acts);
    assert WholeAfter(Run(s, acts).fs, Run(s, acts).history, Run(s, acts).loose, after);
  }

  // ---- What a crash may change ---------------------------------------------------------------

  /** What the name reads as after a crash that leaves `d`. */
  ghost function Reading(fs: Fs, d: Directory, n: Name): Option<File> {
    if n in d && d[n] in fs.files then Some(fs.files[d[n]]) else None
  }

  ghost predicate MayRead(fs: Fs, n: Name, r: Option<File>) {
    exists d :: Outcome(fs, d) && Reading(fs, d, n) == r
  }

  ghost predicate MustRead(fs: Fs, n: Name, r: Option<File>) {
    forall d :: Outcome(fs, d) ==> Reading(fs, d, n) == r
  }

  predicate Publishes(s: System, a: Action, n: Name) {
    a.Publish? && s.progress.Flushed? && s.progress.target == n
  }

  /** Two directories read alike everywhere but at temporary names and at `except`. */
  ghost predicate ReadAlike(fs: Fs, d: Directory, fs0: Fs, d0: Directory, except: Option<Name>) {
    forall n :: !IsTemp(n) && except != Some(n) ==> Reading(fs, d, n) == Reading(fs0, d0, n)
  }

  /** A crash may change what an unsynced file holds, and nothing else. */
  predicate Settled(r: Option<File>) {
    r.Some? ==> r.value.synced
  }

  ghost predicate SettledAlike(fs: Fs, d: Directory, fs0: Fs, d0: Directory) {
    forall n :: !IsTemp(n) && Settled(Reading(fs0, d0, n)) ==> Reading(fs, d, n) == Reading(fs0, d0, n)
  }

  function Touched(s: System, a: Action): Option<Name> {
    if a.Delete? || a.Copy? then Some(a.name) else if a.Publish? && s.progress.Flushed? then Some(s.progress.target) else None
  }

  /** What a crash may leave after a step, it might have left before, but for the name the step is about. */
  lemma StepOutcome(s: System, a: Action, d: Directory) returns (d0: Directory)
    requires Inv(s) && Enabled(s, a) && Outcome(Apply(s, a).fs, d)
    ensures Outcome(s.fs, d0)
    ensures if a.Crash? then SettledAlike(Apply(s, a).fs, d, s.fs, d0)
            else ReadAlike(Apply(s, a).fs, d, s.fs, d0, Touched(s, a))
    ensures a.Publish? ==> PublishedOrNot(s, Apply(s, a), d, d0)
    ensures a.Delete? ==> Reading(Apply(s, a).fs, d, a.name) in {None, Reading(s.fs, d0, a.name)}
  {
    hide Cached, WholeAfter, NamesApart, Outcome, CopyIn;
    var s' := Apply(s, a);
    d0 := d;
    match a {
      case Begin(target, bytes) =>
        if TempOf(target) in Visible(s.fs) {
          ContentsReadAlike(s, d, TempOf(target), File("", false));
        } else {
          d0 := NewLinkReadsAlike(s, TempOf(target), File("", false), d);
        }
      case Fill => ContentsReadAlike(s, d, TempOf(s.progress.target), File(s.progress.bytes, false));
      case Flush => ContentsReadAlike(s, d, TempOf(s.progress.target), File(s.progress.bytes, true));
      case Publish => d0 := PublishReadsAlike(s, d);
      case Settle =>
        OnlyTheVisible(SyncDir(s.fs), d);
        VisibleIsOutcome(s.fs);
      case GiveUp =>
      case Delete(name) => d0 := DeleteReadsAlike(s, name, d);
      case Copy(name, bytes) => d0 := CopyReadsAlike(s, name, bytes, d);
      case Crash(after, found) =>
        OnlyTheVisible(s'.fs, d);
        CrashReadsAlike(s, after, found);
    }
  }

  ghost predicate PublishedOrNot(s: System, s': System, d: Directory, d0: Directory)
    requires s.progress.Flushed?
  {
    var n := s.progress.target;
    Reading(s'.fs, d, n) == Some(File(s.progress.bytes, true)) || Reading(s'.fs, d, n) == Reading(s.fs, d0, n)
  }

  lemma OnlyTheVisible(fs: Fs, d: Directory)
    requires fs.pending == [] && Outcome(fs, d)
    ensures d == fs.durable
  {
  }

  lemma ContentsReadAlike(s: System, d: Directory, x: Name, f: File)
    requires FsOk(s.fs, s.history, s.loose) && x in Visible(s.fs)
    requires Outcome(s.fs.(files := s.fs.files[Visible(s.fs)[x] := f]), d)
    ensures Outcome(s.fs, d)
    ensures ReadAlike(s.fs.(files := s.fs.files[Visible(s.fs)[x] := f]), d, s.fs, d, Some(x))
  {
    hide Visible;
    assert Outcome(s.fs, d);
    assert NamesApart(s.fs, d) && WholeAfter(s.fs, s.history, s.loose, d);
  }

  lemma NewLinkReadsAlike(s: System, x: Name, f: File, d: Directory) returns (d0: Directory)
    requires FsOk(s.fs, s.history, s.loose) && x !in Visible(s.fs) && Outcome(Linked(s.fs, x, f), d)
    ensures Outcome(s.fs, d0) && ReadAlike(Linked(s.fs, x, f), d, s.fs, d0, Some(x))
  {
    hide Outcome, Cached;
    OneMoreEdit(s.fs, Link(x, s.fs.next), Linked(s.fs, x, f));
    if Outcome(s.fs, d) {
      d0 := d;
    } else {
      d0 :| Outcome(s.fs, d0) && d == ApplyEdit(d0, Link(x, s.fs.next));
    }
    assert WholeAfter(s.fs, s.history, s.loose, d0);
  }

  lemma CopyReadsAlike(s: System, x: Name, bytes: Bytes, d: Directory) returns (d0: Directory)
    requires FsOk(s.fs, s.history, s.loose) && Outcome(CopyIn(s.fs, x, bytes), d)
    ensures Outcome(s.fs, d0) && ReadAlike(CopyIn(s.fs, x, bytes), d, s.fs, d0, Some(x))
  {
    hide FsOk, Outcome, Cached, CopyIn, ReadAlike;
    CopyInIs(s.fs, x, bytes);
    d0 := d;
    if x in Visible(s.fs) {
      ContentsReadAlike(s, d, x, File(bytes, false));
    } else {
      d0 := NewLinkReadsAlike(s, x, File(bytes, false), d);
    }
  }

  lemma PublishReadsAlike(s: System, d: Directory) returns (d0: Directory)
    requires Inv(s) && s.progress.Flushed? && Outcome(Apply(s, Publish).fs, d)
    ensures Outcome(s.fs, d0) && ReadAlike(Apply(s, Publish).fs, d, s.fs, d0, Some(s.progress.target))
    ensures PublishedOrNot(s, Apply(s, Publish), d, d0)
  {
    hide Outcome, Cached, FsOk;
    var t, n := TempOf(s.progress.target), s.progress.target;
    var e := Move(t, n, Visible(s.fs)[t]);
    OneMoreEdit(s.fs, e, Apply(s, Publish).fs);
    if Outcome(s.fs, d) {
      d0 := d;
    } else {
      d0 :| Outcome(s.fs, d0) && d == ApplyEdit(d0, e);
    }
  }

  lemma DeleteReadsAlike(s: System, n: Name, d: Directory) returns (d0: Directory)
    requires Outcome(Remove(s.fs, n), d)
    ensures Outcome(s.fs, d0) && ReadAlike(Remove(s.fs, n), d, s.fs, d0, Some(n))
    ensures Reading(Remove(s.fs, n), d, n) in {None, Reading(s.fs, d0, n)}
  {
    hide Outcome, Cached;
    OneMoreEdit(s.fs, Unlink(n), Remove(s.fs, n));
    if Outcome(s.fs, d) {
      d0 := d;
    } else {
      d0 :| Outcome(s.fs, d0) && d == ApplyEdit(d0, Unlink(n));
    }
  }

  lemma CrashReadsAlike(s: System, after: Directory, found: map<Inode, Bytes>)
    requires FsOk(s.fs, s.history, s.loose) && Outcome(s.fs, after) && Survives(s.fs.files, found)
    ensures SettledAlike(Reboot(s.fs, after, found), after, s.fs, after)
  {
  }

  // ---- One write: old or new, and new for good -----------------------------------------------

  /** Nothing but a publication, a deletion or a copy changes what a target must read as, not even a crash. */
  lemma StepKeepsMustRead(s: System, a: Action, n: Name, r: Option<File>)
    requires Inv(s) && Enabled(s, a) && !IsTemp(n) && MustRead(s.fs, n, r) && Touched(s, a) != Some(n)
    requires a.Crash? ==> Settled(r)
    ensures MustRead(Apply(s, a).fs, n, r)
  {
    hide Inv, Enabled, Apply, Outcome;
    forall d | Outcome(Apply(s, a).fs, d)
      ensures Reading(Apply(s, a).fs, d, n) == r
    {
      var d0 := StepOutcome(s, a, d);
    }
  }

  /** A name that no crash leaves in place stays so until it is published or copied. */
  lemma StepKeepsAbsent(s: System, a: Action, n: Name)
    requires Inv(s) && Enabled(s, a) && !IsTemp(n) && MustRead(s.fs, n, None) && !Publishes(s, a, n)
    requires a.Copy? ==> a.name != n
    ensures MustRead(Apply(s, a).fs, n, None)
  {
    hide Inv, Enabled, Apply, Outcome;
    forall d | Outcome(Apply(s, a).fs, d)
      ensures Reading(Apply(s, a).fs, d, n) == None
    {
      var d0 := StepOutcome(s, a, d);
    }
  }

  predicate Writes(a: Action, n: Name) {
    (a.Begin? && a.target == n) || (a.Copy? && a.name == n)
  }

  ghost predicate NeverWrites(s: System, acts: seq<Action>, n: Name) {
    && (s.progress.Idle? || s.progress.target != n)
    && (forall i :: 0 <= i < |acts| ==> !Writes(acts[i], n))
  }

  lemma NeverWritesStep(s: System, acts: seq<Action>, n: Name)
    requires acts != [] && Enabled(s, acts[0]) && NeverWrites(s, acts, n)
    ensures NeverWrites(Apply(s, acts[0]), acts[1..], n) && !Publishes(s, acts[0], n) && !Writes(acts[0], n)
  {
  }

  lemma {:induction false} RunKeepsAbsent(s: System, acts: seq<Action>, n: Name)
    requires Inv(s) && CanRun(s, acts) && !IsTemp(n) && MustRead(s.fs, n, None) && NeverWrites(s, acts, n)
    ensures MustRead(Run(s, acts).fs, n, None)
    decreases |acts|
  {
    hide Inv, Enabled, Apply, MustRead, NeverWrites;
    if acts != [] {
      NeverWritesStep(s, acts, n);
      StepKeepsInv(s, acts[0]);
      StepKeepsAbsent(s, acts[0], n);
      RunKeepsAbsent(Apply(s, acts[0]), acts[1..], n);
    }
  }

  /** No step from here on is about the name. */
  ghost predicate LeavesAlone(s: System, acts: seq<Action>, n: Name) {
    NeverWrites(s, acts, n) && forall i :: 0 <= i < |acts| ==> acts[i] != Delete(n)
  }

  lemma LeavesAloneStep(s: System, acts: seq<Action>, n: Name)
    requires acts != [] && Enabled(s, acts[0]) && LeavesAlone(s, acts, n)
    ensures LeavesAlone(Apply(s, acts[0]), acts[1..], n) && Touched(s, acts[0]) != Some(n)
  {
  }

  lemma {:induction false} RunKeepsMustRead(s: System, acts: seq<Action>, n: Name, r: Option<File>)
    requires Inv(s) && CanRun(s, acts) && !IsTemp(n) && MustRead(s.fs, n, r) && LeavesAlone(s, acts, n)
    requires Settled(r) || forall i :: 0 <= i < |acts| ==> !acts[i].Crash?
    ensures MustRead(Run(s, acts).fs, n, r)
    decreases |acts|
  {
    hide Inv, Enabled, Apply, MustRead, LeavesAlone;
    if acts != [] {
      LeavesAloneStep(s, acts, n);
      StepKeepsInv(s, acts[0]);
      StepKeepsMustRead(s, acts[0], n, r);
      RunKeepsMustRead(Apply(s, acts[0]), acts[1..], n, r);
    }
  }

  /** The calls of one atomic write. */
  function AtomicWrite(target: Name, bytes: Bytes): seq<Action> {
    [Begin(target, bytes), Fill, Flush, Publish, Settle]
  }

  lemma AfterPublish(s: System)
    requires Inv(s) && s.progress.Flushed?
    ensures var n, r := s.progress.target, Some(File(s.progress.bytes, true));
            MustRead(SyncDir(Apply(s, Publish).fs), n, r)
  {
  }

  lemma {:induction false} RunSplits(s: System, a: seq<Action>, b: seq<Action>)
    ensures CanRun(s, a + b) <==> CanRun(s, a) && CanRun(Run(s, a), b)
    ensures CanRun(s, a + b) ==> Run(s, a + b) == Run(Run(s, a), b)
    decreases |a|
  {
    hide Enabled, Apply;
    if a == [] {
      assert a + b == b;
    } else {
      assert (a + b)[0] == a[0] && (a + b)[1..] == a[1..] + b;
      if Enabled(s, a[0]) {
        RunSplits(Apply(s, a[0]), a[1..], b);
      }
    }
  }

  lemma {:induction false} RunOfSteps(s: System, acts: seq<Action>, last: Action)
    requires CanRun(s, acts) && Enabled(Run(s, acts), last)
    ensures CanRun(s, acts + [last]) && Run(s, acts + [last]) == Apply(Run(s, acts), last)
  {
    hide Enabled, Apply;
    RunSplits(s, acts, [last]);
    assert [last][1..] == [];
  }

  /** The first four calls reach the publication. */
  lemma WriteGetsThere(s: System, n: Name, bytes: Bytes)
    requires Inv(s) && s.progress.Idle? && !IsTemp(n)
    ensures CanRun(s, [Begin(n, bytes), Fill, Flush]) && Run(s, [Begin(n, bytes), Fill, Flush]).progress == Flushed(n, bytes)
  {
    hide FsOk;
    var a := Apply(s, Begin(n, bytes));
    var b := Apply(a, Fill);
    assert [Flush][1..] == [] && [Fill, Flush][1..] == [Flush];
    assert [Begin(n, bytes), Fill, Flush][1..] == [Fill, Flush];
    assert CanRun(b, [Flush]) && CanRun(a, [Fill, Flush]);
  }

  /** A write that returns is there for good: it reads as written after any later crash. */
  lemma WriteSettles(s: System, n: Name, bytes: Bytes)
    requires Inv(s) && s.progress.Idle? && !IsTemp(n)
    ensures CanRun(s, AtomicWrite(n, bytes)) && Run(s, AtomicWrite(n, bytes)).progress.Idle?
    ensures MustRead(Run(s, AtomicWrite(n, bytes)).fs, n, Some(File(bytes, true)))
  {
    hide FsOk, MustRead, CanRun, Run;
    var three := [Begin(n, bytes), Fill, Flush];
    WriteGetsThere(s, n, bytes);
    RunKeepsInv(s, three);
    AfterPublish(Run(s, three));
    RunOfSteps(s, three, Publish);
    RunOfSteps(s, three + [Publish], Settle);
    assert AtomicWrite(n, bytes) == three + [Publish] + [Settle];
  }

  lemma WriteStaysRead(s: System, n: Name, bytes: Bytes, later: seq<Action>)
    requires Inv(s) && s.progress.Idle? && !IsTemp(n)
    requires CanRun(s, AtomicWrite(n, bytes)) && CanRun(Run(s, AtomicWrite(n, bytes)), later)
    requires forall i :: 0 <= i < |later| ==> later[i] != Delete(n) && !Writes(later[i], n)
    ensures MustRead(Run(Run(s, AtomicWrite(n, bytes)), later).fs, n, Some(File(bytes, true)))
  {
    hide Inv, MustRead, CanRun, Run;
    WriteSettles(s, n, bytes);
    RunKeepsInv(s, AtomicWrite(n, bytes));
    RunKeepsMustRead(Run(s, AtomicWrite(n, bytes)), later, n, Some(File(bytes, true)));
  }

  /** A crash at any point of a write finds the target as it might have been before, or new. */
  lemma {:induction false} OldOrNew(s: System, n: Name, bytes: Bytes, k: nat, d: Directory)
    requires Inv(s) && s.progress.Idle? && !IsTemp(n) && k <= 5
    requires CanRun(s, AtomicWrite(n, bytes)[..k]) && Outcome(Run(s, AtomicWrite(n, bytes)[..k]).fs, d)
    ensures var r := Reading(Run(s, AtomicWrite(n, bytes)[..k]).fs, d, n);
            r == Some(File(bytes, true)) || MayRead(s.fs, n, r)
    decreases k
  {
    hide Inv, Outcome, Reading;
    var acts := AtomicWrite(n, bytes)[..k];
    if k > 0 {
      var before, a := acts[..k - 1], acts[k - 1];
      assert acts == before + [a] && before == AtomicWrite(n, bytes)[..k - 1];
      RunSplits(s, before, [a]);
      var m := Run(s, before);
      assert [a][1..] == [] && Run(m, [a]) == Apply(m, a);
      RunKeepsInv(s, before);
      var d0 := StepOutcome(m, a, d);
      OldOrNew(s, n, bytes, k - 1, d0);
      PrefixProgress(s, n, bytes, k - 1);
    }
  }

  function ProgressAt(n: Name, bytes: Bytes, k: nat): Progress {
    match k
    case 1 => Opened(n, bytes)
    case 2 => Filled(n, bytes)
    case 3 => Flushed(n, bytes)
    case 4 => Renamed(n, bytes)
    case _ => Idle
  }

  lemma {:induction false} PrefixProgress(s: System, n: Name, bytes: Bytes, k: nat)
    requires s.progress.Idle? && !IsTemp(n) && k <= 5 && CanRun(s, AtomicWrite(n, bytes)[..k])
    ensures Run(s, AtomicWrite(n, bytes)[..k]).progress == ProgressAt(n, bytes, k)
    decreases k
  {
    var acts := AtomicWrite(n, bytes)[..k];
    if k > 0 {
      var before, a := acts[..k - 1], acts[k - 1];
      assert acts == before + [a] && before == AtomicWrite(n, bytes)[..k - 1];
      RunSplits(s, before, [a]);
      var m := Run(s, before);
      assert [a][1..] == [] && Run(m, [a]) == Apply(m, a);
      PrefixProgress(s, n, bytes, k - 1);
    }
  }

  // ---- The method ----------------------------------------------------------------------------

  lemma WriteEffect(s: System, n: Name, bytes: Bytes)
    requires Inv(s) && s.progress.Idle? && !IsTemp(n)
    ensures CanRun(s, AtomicWrite(n, bytes))
    ensures var t := TempOf(n);
            Run(s, AtomicWrite(n, bytes)) ==
            System(SyncDir(Rename(SyncAll(WriteAll(OpenTruncated(s.fs, t), t, bytes), t), t, n)), Idle,
                   s.history + {(n, bytes)}, s.loose - {n})
  {
    hide FsOk, MustRead, CanRun, Run, OpenTruncated, WriteAll, SyncAll, Rename, SyncDir, Inv;
    WriteSettles(s, n, bytes);
    var all := AtomicWrite(n, bytes);
    assert all[..0] == [] && all[..5] == all;
    RunOfNothing(s);
    StepsUpTo(s, n, bytes, 5);
    StepsUpTo(s, n, bytes, 4);
    StepsUpTo(s, n, bytes, 3);
    StepsUpTo(s, n, bytes, 2);
    StepsUpTo(s, n, bytes, 1);
  }

  lemma RunOfNothing(s: System)
    ensures CanRun(s, []) && Run(s, []) == s
  {
  }

  lemma StepsUpTo(s: System, n: Name, bytes: Bytes, k: nat)
    requires s.progress.Idle? && !IsTemp(n) && 1 <= k <= 5 && CanRun(s, AtomicWrite(n, bytes)[..k])
    ensures var acts := AtomicWrite(n, bytes);
            && CanRun(s, acts[..k - 1]) && Enabled(Run(s, acts[..k - 1]), acts[k - 1])
            && Run(s, acts[..k]) == Apply(Run(s, acts[..k - 1]), acts[k - 1])
            && Run(s, acts[..k - 1]).progress == ProgressAt(n, bytes, k - 1)
  {
    hide Enabled, Apply;
    var acts := AtomicWrite(n, bytes)[..k];
    var before, a := acts[..k - 1], acts[k - 1];
    assert acts == before + [a] && before == AtomicWrite(n, bytes)[..k - 1];
    RunSplits(s, before, [a]);
    assert [a][1..] == [] && Run(Run(s, before), [a]) == Apply(Run(s, before), a);
    PrefixProgress(s, n, bytes, k - 1);
  }

  class Folder {
    var fs: Fs

    constructor (files: Fs)
      ensures fs == files
    {
      fs := files;
    }

    /**
     `write_json_atomic` and `write_text_atomic`: the target reads as written after any crash, and
     every other target as it did.
     */
    method WriteAtomic(target: Name, bytes: Bytes, ghost history: set<(Name, Bytes)>, ghost loose: set<Name>)
      requires !IsTemp(target) && FsOk(fs, history, loose)
      modifies this
      ensures FsOk(fs, history + {(target, bytes)}, loose - {target})
      ensures MustRead(fs, target, Some(File(bytes, true)))
      ensures forall n, r :: !IsTemp(n) && n != target && MustRead(old(fs), n, r) ==> MustRead(fs, n, r)
    {
      hide FsOk, MustRead, OpenTruncated, WriteAll, SyncAll, Rename, SyncDir, CanRun, Run;
      ghost var s := System(fs, Idle, history, loose);
      WriteEffect(s, target, bytes);
      WriteSettles(s, target, bytes);
      RunKeepsInv(s, AtomicWrite(target, bytes));
      forall n, r | !IsTemp(n) && n != target && MustRead(fs, n, r)
        ensures MustRead(Run(s, AtomicWrite(target, bytes)).fs, n, r)
      {
        RunKeepsMustRead(s, AtomicWrite(target, bytes), n, r);
      }
      var tmp := TempOf(target);
      fs := OpenTruncated(fs, tmp);
      fs := WriteAll(fs, tmp, bytes);
      fs := SyncAll(fs, tmp);
      fs := Rename(fs, tmp, target);
      fs := SyncDir(fs);
    }
  }
}
