/** The order of the last steps of `backup_physical_to_path`. */
module Backup {
  import opened Chars
  import opened AtomicFile

  const MANIFEST := Name("backup-manifest", "json")
  const MARKER := Name("complete", "marker")

  function Deletes(names: seq<Name>): seq<Action> {
    seq(|names|, i requires 0 <= i < |names| => Delete(names[i]))
  }

  function Copies(files: seq<(Name, Bytes)>): seq<Action> {
    seq(|files|, i requires 0 <= i < |files| => Copy(files[i].0, files[i].1))
  }

  function NamesOf(files: seq<(Name, Bytes)>): set<Name> {
    set f <- files :: f.0
  }

  function Clearing(removed: seq<Name>, copied: seq<(Name, Bytes)>): seq<Action> {
    Deletes(removed) + Copies(copied)
  }

  /**
   What was there is removed and the database's own files are copied in, each in any order; then the
   manifest is written, then the marker.
   */
  function Preparation(removed: seq<Name>, copied: seq<(Name, Bytes)>, manifest: Bytes): seq<Action> {
    Clearing(removed, copied) + AtomicWrite(MANIFEST, manifest)
  }

  function Program(removed: seq<Name>, copied: seq<(Name, Bytes)>, manifest: Bytes): seq<Action> {
    Preparation(removed, copied, manifest) + AtomicWrite(MARKER, "ok\n")
  }

  ghost predicate MarkerImpliesManifest(fs: Fs, d: Directory) {
    MARKER in d ==> MANIFEST in d && d[MANIFEST] in fs.files && fs.files[d[MANIFEST]].synced
  }

  lemma {:induction false} DeletesRun(s: System, names: seq<Name>)
    requires s.progress.Idle?
    ensures CanRun(s, Deletes(names)) && Run(s, Deletes(names)).progress.Idle?
    decreases |names|
  {
    hide Remove;
    if names != [] {
      assert Deletes(names)[1..] == Deletes(names[1..]) && Deletes(names)[0] == Delete(names[0]);
      DeletesRun(Apply(s, Delete(names[0])), names[1..]);
    }
  }

  lemma {:induction false} CopiesRun(s: System, files: seq<(Name, Bytes)>)
    requires s.progress.Idle?
    ensures CanRun(s, Copies(files)) && Run(s, Copies(files)).progress.Idle?
    decreases |files|
  {
    hide CopyIn;
    if files != [] {
      assert Copies(files)[1..] == Copies(files[1..]) && Copies(files)[0] == Copy(files[0].0, files[0].1);
      CopiesRun(Apply(s, Copy(files[0].0, files[0].1)), files[1..]);
    }
  }

  lemma ClearingRuns(s: System, removed: seq<Name>, copied: seq<(Name, Bytes)>)
    requires s.progress.Idle?
    ensures CanRun(s, Clearing(removed, copied)) && Run(s, Clearing(removed, copied)).progress.Idle?
  {
    hide CanRun, Run, Deletes, Copies;
    DeletesRun(s, removed);
    CopiesRun(Run(s, Deletes(removed)), copied);
    RunSplits(s, Deletes(removed), Copies(copied));
  }

  /** The program runs to its end from any idle state, with the manifest in place before the marker. */
  lemma ProgramRuns(s: System, removed: seq<Name>, copied: seq<(Name, Bytes)>, manifest: Bytes)
    requires Inv(s) && s.progress.Idle?
    ensures CanRun(s, Program(removed, copied, manifest)) && CanRun(s, Preparation(removed, copied, manifest))
    ensures var m := Run(s, Preparation(removed, copied, manifest));
            Inv(m) && m.progress.Idle? && MustRead(m.fs, MANIFEST, Some(File(manifest, true)))
  {
    hide Inv, MustRead, CanRun, Run, AtomicWrite, Clearing;
    ClearingRuns(s, removed, copied);
    RunKeepsInv(s, Clearing(removed, copied));
    WriteSettles(Run(s, Clearing(removed, copied)), MANIFEST, manifest);
    RunSplits(s, Clearing(removed, copied), AtomicWrite(MANIFEST, manifest));
    RunKeepsInv(s, Preparation(removed, copied, manifest));
    WriteSettles(Run(s, Preparation(removed, copied, manifest)), MARKER, "ok\n");
    RunSplits(s, Preparation(removed, copied, manifest), AtomicWrite(MARKER, "ok\n"));
  }

  lemma PreparationIsUnmarked(removed: seq<Name>, copied: seq<(Name, Bytes)>, manifest: Bytes)
    requires MARKER !in NamesOf(copied)
    ensures forall a <- Preparation(removed, copied, manifest) :: !Writes(a, MARKER)
  {
    forall a | a in Copies(copied)
      ensures !Writes(a, MARKER)
    {
      var i :| 0 <= i < |copied| && a == Copy(copied[i].0, copied[i].1);
      assert copied[i] in copied;
    }
  }

  /** Before the marker is begun no crash can leave one. */
  lemma NoMarkerYet(s: System, removed: seq<Name>, copied: seq<(Name, Bytes)>, manifest: Bytes, k: nat)
    requires Inv(s) && s.progress.Idle? && MustRead(s.fs, MARKER, None) && k <= |Preparation(removed, copied, manifest)|
    requires MARKER !in NamesOf(copied)
    ensures CanRun(s, Preparation(removed, copied, manifest)[..k])
    ensures MustRead(Run(s, Preparation(removed, copied, manifest)[..k]).fs, MARKER, None)
  {
    hide Inv, MustRead, CanRun, Run;
    var acts := Preparation(removed, copied, manifest);
    ProgramRuns(s, removed, copied, manifest);
    assert acts == acts[..k] + acts[k..];
    RunSplits(s, acts[..k], acts[k..]);
    PreparationIsUnmarked(removed, copied, manifest);
    RunKeepsAbsent(s, acts[..k], MARKER);
  }

  /** Once the manifest is settled nothing the marker does can lose it. */
  lemma ManifestStays(s: System, removed: seq<Name>, copied: seq<(Name, Bytes)>, manifest: Bytes, k: nat)
    requires Inv(s) && s.progress.Idle? && k <= 5
    ensures CanRun(s, Preparation(removed, copied, manifest) + AtomicWrite(MARKER, "ok\n")[..k])
    ensures MustRead(Run(s, Preparation(removed, copied, manifest) + AtomicWrite(MARKER, "ok\n")[..k]).fs, MANIFEST,
                     Some(File(manifest, true)))
  {
    hide Inv, MustRead, CanRun, Run, Preparation;
    var mark := AtomicWrite(MARKER, "ok\n");
    ProgramRuns(s, removed, copied, manifest);
    var m := Run(s, Preparation(removed, copied, manifest));
    assert mark == mark[..k] + mark[k..];
    RunSplits(s, Preparation(removed, copied, manifest), mark);
    RunSplits(m, mark[..k], mark[k..]);
    RunSplits(s, Preparation(removed, copied, manifest), mark[..k]);
    RunKeepsMustRead(m, mark[..k], MANIFEST, Some(File(manifest, true)));
  }

  /** Every crash of a backup that neither finds nor copies a marker: a marker comes with the whole manifest. */
  lemma MarkerComesLast(s: System, removed: seq<Name>, copied: seq<(Name, Bytes)>, manifest: Bytes, k: nat, d: Directory)
    requires Inv(s) && s.progress.Idle? && MustRead(s.fs, MARKER, None) && k <= |Program(removed, copied, manifest)|
    requires MARKER !in NamesOf(copied)
    requires CanRun(s, Program(removed, copied, manifest)[..k])
    requires Outcome(Run(s, Program(removed, copied, manifest)[..k]).fs, d) && MARKER in d
    ensures Reading(Run(s, Program(removed, copied, manifest)[..k]).fs, d, MANIFEST) == Some(File(manifest, true))
  {
    hide Inv, CanRun, Run, Preparation, AtomicWrite, Outcome;
    var prepare := Preparation(removed, copied, manifest);
    var mark := AtomicWrite(MARKER, "ok\n");
    var acts := Program(removed, copied, manifest)[..k];
    if k <= |prepare| {
      assert acts == prepare[..k];
      NoMarkerYet(s, removed, copied, manifest, k);
      RunKeepsInv(s, acts);
      NamedIsRead(Run(s, acts), d, MARKER);
    } else {
      assert |mark| == 5 by { FiveCalls(); }
      assert acts == prepare + mark[..k - |prepare|];
      ManifestStays(s, removed, copied, manifest, k - |prepare|);
    }
  }

  lemma FiveCalls()
    ensures |AtomicWrite(MARKER, "ok\n")| == 5
  {
  }

  lemma NamedIsRead(s: System, d: Directory, n: Name)
    requires Inv(s) && Outcome(s.fs, d) && n in d
    ensures Reading(s.fs, d, n).Some?
  {
    hide Outcome, Visible;
    assert WholeAfter(s.fs, s.history, s.loose, d);
  }

  // ---- Over an existing backup ---------------------------------------------------------------

  lemma {:induction false} NoneMayRemain(d: Directory, edits: seq<Edit>)
    ensures MayRemain(d, edits, d)
    decreases |edits|
  {
    if edits != [] {
      NoneMayRemain(d, edits[..|edits| - 1]);
    }
  }

  lemma {:induction false} OneMayRemain(d: Directory, edits: seq<Edit>, i: nat)
    requires i < |edits|
    ensures MayRemain(d, edits, ApplyEdit(d, edits[i]))
    decreases |edits|
  {
    var before := edits[..|edits| - 1];
    if i < |before| {
      OneMayRemain(d, before, i);
    } else {
      NoneMayRemain(d, before);
    }
  }

  function Unlinks(names: seq<Name>): seq<Edit> {
    seq(|names|, i requires 0 <= i < |names| => Unlink(names[i]))
  }

  lemma {:induction false} DeletesPend(s: System, names: seq<Name>)
    requires s.progress.Idle?
    ensures CanRun(s, Deletes(names))
    ensures var fs := Run(s, Deletes(names)).fs;
            fs.durable == s.fs.durable && fs.files == s.fs.files && fs.pending == s.fs.pending + Unlinks(names)
    decreases |names|
  {
    if names == [] {
      assert s.fs.pending + Unlinks(names) == s.fs.pending;
    } else {
      assert Deletes(names)[1..] == Deletes(names[1..]) && Deletes(names)[0] == Delete(names[0]);
      assert Unlinks(names) == [Unlink(names[0])] + Unlinks(names[1..]);
      DeletesPend(Apply(s, Delete(names[0])), names[1..]);
    }
  }

  /** Whether every crash of the whole program keeps the promise. */
  ghost predicate Safe(s: System, removed: seq<Name>, copied: seq<(Name, Bytes)>, manifest: Bytes) {
    forall k: nat, d :: k <= |Program(removed, copied, manifest)| && CanRun(s, Program(removed, copied, manifest)[..k]) &&
                        Outcome(Run(s, Program(removed, copied, manifest)[..k]).fs, d) ==>
                        MarkerImpliesManifest(Run(s, Program(removed, copied, manifest)[..k]).fs, d)
  }

  lemma UnsafeAt(s: System, removed: seq<Name>, copied: seq<(Name, Bytes)>, manifest: Bytes, acts: seq<Action>, d: Directory)
    requires acts <= Program(removed, copied, manifest) && CanRun(s, acts) && Outcome(Run(s, acts).fs, d)
    requires !MarkerImpliesManifest(Run(s, acts).fs, d)
    ensures !Safe(s, removed, copied, manifest)
  {
    hide CanRun, Run, Outcome, MarkerImpliesManifest, Program;
    assert acts == Program(removed, copied, manifest)[..|acts|];
  }

  lemma UnlinkMayRemain(s: System, removed: seq<Name>, n: Name)
    requires s.progress.Idle? && s.fs.pending == [] && n in removed && CanRun(s, Deletes(removed))
    ensures Outcome(Run(s, Deletes(removed)).fs, s.fs.durable - {n})
  {
    hide CanRun, Run, Deletes;
    DeletesPend(s, removed);
    var i :| 0 <= i < |removed| && removed[i] == n;
    var fs := Run(s, Deletes(removed)).fs;
    OneMayRemain(fs.durable, fs.pending, i);
  }

  /** A crash during the removal may take the manifest of an old backup and leave its marker. */
  lemma OldMarkerOutlivesManifest(s: System, removed: seq<Name>, copied: seq<(Name, Bytes)>, manifest: Bytes)
    requires Inv(s) && s.progress.Idle? && s.fs.pending == [] && MARKER in s.fs.durable
    requires MANIFEST in s.fs.durable ==> MANIFEST in removed
    ensures !Safe(s, removed, copied, manifest)
  {
    hide Inv, AtomicWrite, Deletes, Copies, CanRun, Run, Safe;
    if MANIFEST in s.fs.durable {
      DeletesRun(s, removed);
      UnlinkMayRemain(s, removed, MANIFEST);
      UnsafeAt(s, removed, copied, manifest, Deletes(removed), s.fs.durable - {MANIFEST});
    } else {
      RunOfNothing(s);
      UnsafeAt(s, removed, copied, manifest, [], s.fs.durable);
    }
  }

  // ---- With a marker among the copied files --------------------------------------------------

  /** What a crash may have left before a copy it may still leave after it. */
  lemma CopyMayBeLost(fs: Fs, name: Name, bytes: Bytes, d: Directory)
    requires Outcome(fs, d)
    ensures Outcome(CopyIn(fs, name, bytes), d)
    ensures name !in Visible(fs) ==> Outcome(CopyIn(fs, name, bytes), d[name := fs.next])
  {
    hide CopyIn, Cached;
    CopyInIs(fs, name, bytes);
    if name !in Visible(fs) {
      OneMoreEdit(fs, Link(name, fs.next), Linked(fs, name, File(bytes, false)));
      assert d[name := fs.next] == ApplyEdit(d, Link(name, fs.next));
    }
  }

  /** Copies up to and including the first of an absent name: a crash may leave that one alone. */
  lemma {:induction false} CopyMayRemain(s: System, files: seq<(Name, Bytes)>, n: Name, d: Directory)
    returns (k: nat, i: Inode)
    requires s.progress.Idle? && n in NamesOf(files) && n !in Visible(s.fs) && Outcome(s.fs, d)
    ensures k <= |files| && CanRun(s, Copies(files[..k])) && Outcome(Run(s, Copies(files[..k])).fs, d[n := i])
    decreases |files|
  {
    hide CopyIn, Outcome, Visible;
    var first := Copy(files[0].0, files[0].1);
    CopyMayBeLost(s.fs, files[0].0, files[0].1, d);
    if files[0].0 == n {
      k, i := 1, s.fs.next;
      assert Copies(files[..1]) == [first] && [first][1..] == [];
      RunOfNothing(Apply(s, first));
    } else {
      CopyInIs(s.fs, files[0].0, files[0].1);
      assert n in NamesOf(files[1..]) by { LaterName(files, n); }
      k, i := CopyMayRemain(Apply(s, first), files[1..], n, d);
      assert Copies(files[..k + 1])[1..] == Copies(files[1..][..k]) && Copies(files[..k + 1])[0] == first;
      k := k + 1;
    }
  }

  lemma LaterName(files: seq<(Name, Bytes)>, n: Name)
    requires files != [] && n in NamesOf(files) && files[0].0 != n
    ensures n in NamesOf(files[1..])
  {
    var f :| f in files && f.0 == n;
    assert files == [files[0]] + files[1..];
  }

  lemma {:induction false} DeletesHide(d: Directory, names: seq<Name>, n: Name)
    requires n !in d
    ensures n !in Cached(d, Unlinks(names))
    decreases |names|
  {
    if names != [] {
      var before := names[..|names| - 1];
      assert Unlinks(names)[..|names| - 1] == Unlinks(before);
      DeletesHide(d, before, n);
    }
  }

  /** The directory without its manifest may be what is left of the removal. */
  lemma ManifestMayBeGone(s: System, removed: seq<Name>)
    requires s.progress.Idle? && s.fs.pending == [] && (MANIFEST in s.fs.durable ==> MANIFEST in removed)
    ensures CanRun(s, Deletes(removed)) && Outcome(Run(s, Deletes(removed)).fs, s.fs.durable - {MANIFEST})
  {
    hide CanRun, Run, Deletes;
    DeletesRun(s, removed);
    if MANIFEST in s.fs.durable {
      UnlinkMayRemain(s, removed, MANIFEST);
    } else {
      DeletesPend(s, removed);
      NoneMayRemain(s.fs.durable, Run(s, Deletes(removed)).fs.pending);
      assert s.fs.durable - {MANIFEST} == s.fs.durable;
    }
  }

  /**
   A marker copied from the database is there before the manifest: a crash may keep it and lose
   every other change but the removal of an old manifest.
   */
  lemma CopiedMarkerComesFirst(s: System, removed: seq<Name>, copied: seq<(Name, Bytes)>, manifest: Bytes)
    requires s.progress.Idle? && s.fs.pending == [] && MARKER !in s.fs.durable && MARKER in NamesOf(copied)
    requires MANIFEST in s.fs.durable ==> MANIFEST in removed
    ensures !Safe(s, removed, copied, manifest)
  {
    hide AtomicWrite, Deletes, CanRun, Run, Safe, Copies, Outcome;
    DeletesRun(s, removed);
    ManifestMayBeGone(s, removed);
    DeletesPend(s, removed);
    DeletesHide(s.fs.durable, removed, MARKER);
    var m := Run(s, Deletes(removed));
    assert m.fs.pending == Unlinks(removed);
    var k, i := CopyMayRemain(m, copied, MARKER, s.fs.durable - {MANIFEST});
    var acts := Deletes(removed) + Copies(copied[..k]);
    RunSplits(s, Deletes(removed), Copies(copied[..k]));
    CopiesPrefix(copied, k);
    assert acts <= Program(removed, copied, manifest);
    UnsafeAt(s, removed, copied, manifest, acts, (s.fs.durable - {MANIFEST})[MARKER := i]);
  }

  lemma CopiesPrefix(files: seq<(Name, Bytes)>, k: nat)
    requires k <= |files|
    ensures Copies(files[..k]) <= Copies(files)
  {
  }

  /** A finished backup opened as a database and backed up into an empty place: its own marker goes along. */
  lemma BackupOfABackup(earlier: Bytes, manifest: Bytes)
    ensures var empty := System(Fs(map[], [], map[], 0), Idle, {}, {});
            Fresh(empty) && !Safe(empty, [], [(MANIFEST, earlier), (MARKER, "ok\n")], manifest)
  {
    hide Safe;
    var copied := [(MANIFEST, earlier), (MARKER, "ok\n")];
    assert copied[1] in copied;
    CopiedMarkerComesFirst(System(Fs(map[], [], map[], 0), Idle, {}, {}), [], copied, manifest);
  }

  /** The promise holds at every crash exactly when no marker is there to begin with and none is copied. */
  lemma MarkerImpliesManifestExactly(s: System, removed: seq<Name>, copied: seq<(Name, Bytes)>, manifest: Bytes)
    requires Fresh(s) && (forall n <- s.fs.durable :: n in removed)
    ensures Safe(s, removed, copied, manifest) <==> MARKER !in s.fs.durable && MARKER !in NamesOf(copied)
  {
    hide Inv, CanRun, Run, Program, NamesOf;
    FreshIsOk(s);
    if MARKER in s.fs.durable {
      OldMarkerOutlivesManifest(s, removed, copied, manifest);
    } else if MARKER in NamesOf(copied) {
      CopiedMarkerComesFirst(s, removed, copied, manifest);
    } else {
      assert MustRead(s.fs, MARKER, None);
      var all := Program(removed, copied, manifest);
      forall k: nat, d | k <= |all| && CanRun(s, all[..k]) && Outcome(Run(s, all[..k]).fs, d)
        ensures MarkerImpliesManifest(Run(s, all[..k]).fs, d)
      {
        if MARKER in d {
          MarkerComesLast(s, removed, copied, manifest, k, d);
        }
      }
    }
  }
}
