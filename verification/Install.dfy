/** Crash-safe installation of the browser by directory renames
    (src/chromium-fork-install.ts, installChromiumFork).

    Every disk operation may succeed, fail (throw) or be cut off by a crash.
    `history` records each state the disk passes through, so a statement about
    all of history is a statement about every point at which a run can stop. */
module Install {
  import opened Common

  /** A downloaded archive: its SHA-256 and whether the browser binary and DLL are inside. */
  datatype Archive = Archive(sha256: nat, binary: bool, dll: bool)

  /** A directory tree extracted from an archive; receipt is the SHA-256 the installer wrote into it. */
  datatype Tree = Tree(source: Archive, complete: bool, binary: bool, dll: bool, receipt: Option<nat>)

  /** platformDir, the stable backup, and per-run staging entries (mkdtemp names are never reused). */
  datatype Path = PlatformDir | BackupDir | Staged(run: nat) | OlderBackup(run: nat)

  type Files = map<Path, Tree>

  datatype Fault = Done | Fails | Crash

  /** The tree a later run will use: platformDir, or the backup it would restore. */
  function Usable(fs: Files): Option<Tree> {
    if PlatformDir in fs then Some(fs[PlatformDir])
    else if BackupDir in fs then Some(fs[BackupDir])
    else None
  }

  ghost predicate HasCompleteTree(fs: Files) {
    Usable(fs).Some? && Usable(fs).value.complete
  }

  /** The usable tree is whole if it carries a receipt, so the "already installed" test is sound. */
  ghost predicate ReceiptMeansComplete(fs: Files) {
    Usable(fs).Some? && Usable(fs).value.receipt.Some? ==> Usable(fs).value.complete
  }

  /** A receipt names the SHA-256 of the archive the tree really came from. */
  ghost predicate ReceiptsAreTrue(fs: Files) {
    forall p :: p in fs && fs[p].receipt.Some? ==> fs[p].receipt.value == fs[p].source.sha256
  }

  /** What a run may promote: the whole verified archive, with its receipt. */
  ghost predicate IsRelease(t: Tree, sha256: nat) {
    t.complete && t.binary && t.source.sha256 == sha256 && t.receipt == Some(sha256)
  }

  function Moved(fs: Files, src: Path, dst: Path): Files
    requires src in fs
  {
    (fs - {src})[dst := fs[src]]
  }

  /** An earlier run was cut off after it moved the current tree to the backup's place. */
  predicate NeedsRecovery(fs: Files) {
    PlatformDir !in fs && BackupDir in fs
  }

  function Restored(fs: Files): Files {
    if NeedsRecovery(fs) then Moved(fs, BackupDir, PlatformDir) else fs
  }

  ghost predicate SameExcept(fs: Files, fs': Files, p: Path) {
    forall q :: q != p ==> (q in fs <==> q in fs') && (q in fs ==> fs[q] == fs'[q])
  }

  /** t is what an interrupted write or delete may leave of `whole`. */
  ghost predicate IsPartOf(t: Tree, whole: Tree) {
    t.source == whole.source && (t.receipt == None || t.receipt == whole.receipt)
  }

  /** The states from `from` on show `before` as usable tree up to `cut` and `after` from there. */
  ghost predicate SwitchesAt(h: seq<Files>, from: nat, cut: nat, before: Option<Tree>, after: Tree) {
    && from <= cut <= |h|
    && (forall i :: from <= i < cut ==> Usable(h[i]) == before)
    && (forall i :: cut <= i < |h| ==> Usable(h[i]) == Some(after))
  }

  class Disk {
    var files: Files
    var runs: nat
    ghost var history: seq<Files>
    /** How many steps have failed, and how many were cut off by a crash. */
    ghost var failures: nat
    ghost var crashes: nat

    ghost predicate Valid()
      reads this
    {
      && history != [] && history[|history| - 1] == files
      && (forall p :: p in files && (p.Staged? || p.OlderBackup?) ==> p.run < runs)
    }

    constructor (initial: Files)
      requires forall p :: p in initial ==> p.PlatformDir? || p.BackupDir?
      ensures Valid() && files == initial && history == [initial] && runs == failures == crashes == 0
    {
      files, runs, history, failures, crashes := initial, 0, [initial], 0, 0;
    }

    /** The outcome of one step, chosen by the world. */
    method Try() returns (r: Fault)
      modifies this`failures, this`crashes
      ensures failures == old(failures) + if r.Fails? then 1 else 0
      ensures crashes == old(crashes) + if r.Crash? then 1 else 0
    {
      r := *;
      if r.Fails? { failures := failures + 1; }
      if r.Crash? { crashes := crashes + 1; }
    }

    /** Fetch the archive of a release; what arrives may be another one, or lack the browser. */
    method Download(sha256: nat) returns (r: Fault, archive: Archive)
      modifies this`failures, this`crashes
      ensures failures == old(failures) + if r.Fails? || (r.Done? && !(archive.sha256 == sha256 && archive.binary)) then 1 else 0
      ensures crashes == old(crashes) + if r.Crash? then 1 else 0
    {
      archive := *;
      r := Try();
      if r.Done? && !(archive.sha256 == sha256 && archive.binary) { failures := failures + 1; }
    }

    /** Directory renames are atomic. */
    method Rename(src: Path, dst: Path) returns (r: Fault)
      requires Valid() && src in files && dst !in files
      requires (dst.Staged? || dst.OlderBackup?) ==> dst.run < runs
      modifies this
      ensures Valid() && runs == old(runs)
      ensures r.Done? ==> files == Moved(old(files), src, dst) && history == old(history) + [files]
      ensures !r.Done? ==> files == old(files) && history == old(history)
      ensures ReceiptsAreTrue(old(files)) ==> ReceiptsAreTrue(files)
      ensures failures == old(failures) + if r.Fails? then 1 else 0
      ensures crashes == old(crashes) + if r.Crash? then 1 else 0
    {
      r := Try();
      if r.Done? {
        files := Moved(files, src, dst);
        history := history + [files];
      }
    }

    /** A recursive delete may stop half-way and leave part of the tree. */
    method Remove(p: Path) returns (r: Fault)
      requires Valid()
      modifies this
      ensures Valid() && runs == old(runs)
      ensures r.Done? ==> p !in files
      ensures SameExcept(old(files), files, p)
      ensures p in files ==> p in old(files) && IsPartOf(files[p], old(files)[p])
      ensures history == old(history) + [files]
      ensures ReceiptsAreTrue(old(files)) ==> ReceiptsAreTrue(files)
      ensures failures == old(failures) + if r.Fails? then 1 else 0
      ensures crashes == old(crashes) + if r.Crash? then 1 else 0
    {
      r := Try();
      var left: Tree := *;
      if r.Done? || p !in files {
        files := files - {p};
      } else if IsPart(left, files[p]) {
        files := files[p := left];
      }
      history := history + [files];
    }

    static predicate IsPart(t: Tree, whole: Tree)
      ensures IsPart(t, whole) <==> IsPartOf(t, whole)
    {
      t.source == whole.source && (t.receipt == None || t.receipt == whole.receipt)
    }

    method MakeStage() returns (r: Fault, run: nat)
      requires Valid()
      modifies this
      ensures Valid() && files == old(files) && history == old(history)
      ensures run == old(runs) && runs == old(runs) + if r.Done? then 1 else 0
      ensures failures == old(failures) + if r.Fails? then 1 else 0
      ensures crashes == old(crashes) + if r.Crash? then 1 else 0
    {
      run := runs;
      r := Try();
      if r.Done? { runs := runs + 1; }
    }

    /** Unpack an archive; an extraction that fails or is cut off leaves any part of it. */
    method Extract(archive: Archive, run: nat) returns (r: Fault)
      requires Valid() && run < runs && Staged(run) !in files
      modifies this
      ensures Valid() && runs == old(runs) && SameExcept(old(files), files, Staged(run))
      ensures r.Done? ==>
        Staged(run) in files && files[Staged(run)] == Tree(archive, true, archive.binary, archive.dll, None)
      ensures Staged(run) in files ==> files[Staged(run)].source == archive && files[Staged(run)].receipt == None
      ensures history == old(history) + [files]
      ensures failures == old(failures) + if r.Fails? then 1 else 0
      ensures crashes == old(crashes) + if r.Crash? then 1 else 0
    {
      r := Try();
      if r.Done? {
        files := files[Staged(run) := Tree(archive, true, archive.binary, archive.dll, None)];
      } else {
        var some: bool, binary: bool, dll: bool := *, *, *;
        if some { files := files[Staged(run) := Tree(archive, false, binary, dll, None)]; }
      }
      history := history + [files];
    }

    method WriteReceipt(run: nat, sha256: nat) returns (r: Fault)
      requires Valid() && Staged(run) in files
      modifies this
      ensures Valid() && runs == old(runs)
      ensures r.Done? ==>
        && files == old(files)[Staged(run) := old(files)[Staged(run)].(receipt := Some(sha256))]
        && history == old(history) + [files]
      ensures !r.Done? ==> files == old(files) && history == old(history)
      ensures failures == old(failures) + if r.Fails? then 1 else 0
      ensures crashes == old(crashes) + if r.Crash? then 1 else 0
    {
      r := Try();
      if r.Done? {
        files := files[Staged(run) := files[Staged(run)].(receipt := Some(sha256))];
        history := history + [files];
      }
    }
  }

  /** From state `from` on, the usable tree is `before` and every receipt is true. */
  ghost predicate Steady(h: seq<Files>, from: nat, before: Option<Tree>) {
    forall i :: from <= i < |h| ==> Usable(h[i]) == before && ReceiptsAreTrue(h[i])
  }

  /** platformDir and the backup, without the staging entries. */
  ghost function Installation(fs: Files): Files {
    map p | p in fs && (p.PlatformDir? || p.BackupDir?) :: fs[p]
  }

  datatype Promotion = Promoted | RolledBack | NotRolledBack | Interrupted

  /** The disk after the current tree (and an older backup before it) was moved aside. */
  ghost function Aside(fs: Files, run: nat, movedOlderBackup: bool, movedPrevious: bool): Files
    requires movedOlderBackup ==> BackupDir in fs
    requires movedPrevious ==> PlatformDir in fs
  {
    var fs' := if movedOlderBackup then Moved(fs, BackupDir, OlderBackup(run)) else fs;
    if movedPrevious then Moved(fs', PlatformDir, BackupDir) else fs'
  }

  /** Rotate the backup and move the current tree to the backup's place. */
  method MoveAside(d: Disk, run: nat) returns (r: Fault, movedOlderBackup: bool, movedPrevious: bool)
    requires d.Valid() && ReceiptsAreTrue(d.files) && run < d.runs
    requires OlderBackup(run) !in d.files && (BackupDir in d.files ==> PlatformDir in d.files)
    modifies d
    ensures d.Valid() && d.runs == old(d.runs) && old(d.history) <= d.history && ReceiptsAreTrue(d.files)
    ensures Steady(d.history, |old(d.history)|, Usable(old(d.files)))
    ensures movedOlderBackup ==> BackupDir in old(d.files)
    ensures movedPrevious ==> PlatformDir in old(d.files) && (movedOlderBackup || BackupDir !in old(d.files))
    ensures d.files == Aside(old(d.files), run, movedOlderBackup, movedPrevious)
    ensures r.Done? ==> PlatformDir !in d.files
    ensures Usable(d.files) == Usable(old(d.files))
    ensures d.failures == old(d.failures) + if r.Fails? then 1 else 0
    ensures d.crashes == old(d.crashes) + if r.Crash? then 1 else 0
  {
    var hadPrevious := PlatformDir in d.files;
    movedOlderBackup, movedPrevious, r := false, false, Done;
    if BackupDir in d.files {
      r := d.Rename(BackupDir, OlderBackup(run));
      movedOlderBackup := r.Done?;
    }
    if r.Done? && hadPrevious {
      r := d.Rename(PlatformDir, BackupDir);
      movedPrevious := r.Done?;
    }
  }

  /** Undo the renames of MoveAside, newest first. */
  method RollBack(d: Disk, run: nat, movedOlderBackup: bool, movedPrevious: bool, ghost fs: Files) returns (r: Fault)
    requires d.Valid() && ReceiptsAreTrue(d.files)
    requires OlderBackup(run) !in fs && (BackupDir in fs ==> PlatformDir in fs)
    requires movedOlderBackup ==> BackupDir in fs
    requires movedPrevious ==> PlatformDir in fs && (movedOlderBackup || BackupDir !in fs)
    requires d.files == Aside(fs, run, movedOlderBackup, movedPrevious)
    modifies d
    ensures d.Valid() && d.runs == old(d.runs) && old(d.history) <= d.history && ReceiptsAreTrue(d.files)
    ensures Steady(d.history, |old(d.history)|, Usable(fs)) && Usable(d.files) == Usable(fs)
    ensures r.Done? ==> d.files == fs
    ensures Staged(run) in fs ==> Staged(run) in d.files && d.files[Staged(run)] == fs[Staged(run)]
    ensures forall q :: q in d.files && (q.Staged? || q.OlderBackup?) ==> q in fs || q == OlderBackup(run)
    ensures d.failures == old(d.failures) + if r.Fails? then 1 else 0
    ensures d.crashes == old(d.crashes) + if r.Crash? then 1 else 0
  {
    r := Done;
    if movedPrevious {
      r := d.Rename(BackupDir, PlatformDir);
    }
    if r.Done? && movedOlderBackup {
      assert d.files == Aside(fs, run, true, false);
      r := d.Rename(OlderBackup(run), BackupDir);
    }
  }

  /** Swap the staged tree in; on a failed rename undo the renames already made. */
  method Promote(d: Disk, run: nat) returns (p: Promotion)
    requires d.Valid() && ReceiptsAreTrue(d.files) && run < d.runs
    requires Staged(run) in d.files && OlderBackup(run) !in d.files
    requires BackupDir in d.files ==> PlatformDir in d.files
    modifies d
    ensures d.Valid() && d.runs == old(d.runs) && old(d.history) <= d.history && ReceiptsAreTrue(d.files)
    ensures p.Promoted? ==>
      && |old(d.history)| < |d.history|
      && Steady(d.history[..|d.history| - 1], |old(d.history)|, Usable(old(d.files)))
      && PlatformDir in d.files && d.files[PlatformDir] == old(d.files)[Staged(run)]
    ensures !p.Promoted? ==> Steady(d.history, |old(d.history)|, Usable(old(d.files)))
    ensures p.RolledBack? ==> d.files == old(d.files)
    ensures p.NotRolledBack? || p.RolledBack? ==> Usable(d.files) == Usable(old(d.files))
    ensures p.NotRolledBack? ==> Staged(run) in d.files && d.files[Staged(run)] == old(d.files)[Staged(run)]
    ensures forall q :: q in d.files && (q.Staged? || q.OlderBackup?) ==> q in old(d.files) || q == OlderBackup(run)
    ensures d.failures >= old(d.failures) && d.crashes >= old(d.crashes)
    ensures d.failures == old(d.failures) + match p case Promoted => 0 case RolledBack => 1 case NotRolledBack => 2
      case Interrupted => d.failures - old(d.failures)
    ensures p.Interrupted? <==> d.crashes > old(d.crashes)
  {
    ghost var fs := d.files;
    var r, movedOlderBackup, movedPrevious := MoveAside(d, run);
    if r.Done? {
      r := d.Rename(Staged(run), PlatformDir);
      if r.Done? { return Promoted; }
    }
    if r.Crash? { return Interrupted; }
    r := RollBack(d, run, movedOlderBackup, movedPrevious, fs);
    return match r case Done => RolledBack case Fails => NotRolledBack case Crash => Interrupted;
  }

  /** Nothing below a staging name is seen from outside it. */
  lemma StageIsUnseen(fs: Files, fs': Files, p: Path)
    requires SameExcept(fs, fs', p) && (p.Staged? || p.OlderBackup?)
    ensures Usable(fs') == Usable(fs) && Installation(fs') == Installation(fs)
  {
  }

  datatype Staging = Ready(run: nat) | NoStage | BadStage(run: nat) | Stopped

  /** Download, check the SHA-256, extract into a fresh stage and write the receipt. */
  method Stage(d: Disk, sha256: nat) returns (s: Staging)
    requires d.Valid() && ReceiptsAreTrue(d.files)
    modifies d
    ensures d.Valid() && old(d.history) <= d.history && ReceiptsAreTrue(d.files)
    ensures Steady(d.history, |old(d.history)|, Usable(old(d.files)))
    ensures Installation(d.files) == Installation(old(d.files)) && old(d.runs) <= d.runs
    ensures s.Ready? || s.BadStage? ==> s.run == old(d.runs) < d.runs && OlderBackup(s.run) !in d.files
    ensures s.Ready? ==> Staged(s.run) in d.files && IsRelease(d.files[Staged(s.run)], sha256)
    ensures s.Stopped? <==> d.crashes > old(d.crashes)
    ensures s.Ready? <==> d.failures == old(d.failures) && d.crashes == old(d.crashes)
    ensures !s.Stopped? ==> d.runs == old(d.runs) + if s.NoStage? then 0 else 1
    ensures d.failures >= old(d.failures) && d.crashes >= old(d.crashes)
  {
    hide Usable, Installation;
    var downloaded, archive := d.Download(sha256);
    if downloaded.Crash? { return Stopped; }
    if downloaded.Fails? || archive.sha256 != sha256 { return NoStage; }
    var r, run := d.MakeStage();
    if r.Crash? { return Stopped; }
    if r.Fails? { return NoStage; }
    ghost var made := d.files;
    assert OlderBackup(run) !in made && Staged(run) !in made;
    r := d.Extract(archive, run);
    StageIsUnseen(made, d.files, Staged(run));
    if r.Crash? { return Stopped; }
    if r.Fails? || !d.files[Staged(run)].binary { return BadStage(run); }
    var assembled := d.Try();
    if assembled.Crash? { return Stopped; }
    if assembled.Fails? { return BadStage(run); }
    ghost var extracted := d.files;
    r := d.WriteReceipt(run, sha256);
    StageIsUnseen(extracted, d.files, Staged(run));
    if r.Crash? { return Stopped; }
    if r.Fails? { return BadStage(run); }
    return Ready(run);
  }

  /** The finally block: delete the stage with whatever it still holds. */
  method Discard(d: Disk, run: nat) returns (r: Fault)
    requires d.Valid() && ReceiptsAreTrue(d.files)
    modifies d
    ensures d.Valid() && d.runs == old(d.runs) && old(d.history) <= d.history && ReceiptsAreTrue(d.files)
    ensures Steady(d.history, |old(d.history)|, Usable(old(d.files)))
    ensures Installation(d.files) == Installation(old(d.files))
    ensures r.Done? ==> Staged(run) !in d.files && OlderBackup(run) !in d.files
    ensures forall p :: p in d.files ==> p in old(d.files)
    ensures d.failures == old(d.failures) + if r.Fails? then 1 else 0
    ensures d.crashes == old(d.crashes) + if r.Crash? then 1 else 0
  {
    hide Usable, Installation, ReceiptsAreTrue;
    ghost var before := d.files;
    r := d.Remove(Staged(run));
    StageIsUnseen(before, d.files, Staged(run));
    if r.Done? {
      ghost var between := d.files;
      r := d.Remove(OlderBackup(run));
      StageIsUnseen(between, d.files, OlderBackup(run));
    }
  }

  /** How a run ends. The middle three are thrown errors: nothing promoted; a delete or the
      assembly repair failed; the promotion failed and its rollback failed too. */
  datatype Outcome = Installed | AlreadyInstalled | Failed | CleanupFailed | NotRestored | Crashed

  method Recover(d: Disk) returns (r: Fault)
    requires d.Valid() && ReceiptsAreTrue(d.files)
    modifies d
    ensures d.Valid() && d.runs == old(d.runs) && old(d.history) <= d.history && ReceiptsAreTrue(d.files)
    ensures Steady(d.history, |old(d.history)|, Usable(old(d.files)))
    ensures r.Done? ==> d.files == Restored(old(d.files))
    ensures r.Done? && Usable(old(d.files)).Some? ==>
      PlatformDir in d.files && d.files[PlatformDir] == Usable(old(d.files)).value
    ensures !r.Done? ==> d.files == old(d.files)
    ensures d.failures == old(d.failures) + if r.Fails? then 1 else 0
    ensures d.crashes == old(d.crashes) + if r.Crash? then 1 else 0
    ensures d.history == old(d.history) + if r.Done? && NeedsRecovery(old(d.files)) then [Restored(old(d.files))] else []
  {
    r := Done;
    if PlatformDir !in d.files && BackupDir in d.files {
      r := d.Rename(BackupDir, PlatformDir);
    }
  }

  predicate IsCurrent(fs: Files, windows: bool, sha256: nat) {
    && PlatformDir in fs && fs[PlatformDir].binary
    && (windows ==> fs[PlatformDir].dll)
    && fs[PlatformDir].receipt == Some(sha256)
  }

  /** After a promotion: delete the displaced tree, then the stage. */
  method CleanUp(d: Disk, run: nat) returns (outcome: Outcome)
    requires d.Valid() && ReceiptsAreTrue(d.files) && PlatformDir in d.files
    modifies d
    ensures d.Valid() && old(d.history) <= d.history && ReceiptsAreTrue(d.files)
    ensures Steady(d.history, |old(d.history)|, Usable(old(d.files)))
    ensures outcome in {Installed, CleanupFailed, Crashed}
    ensures outcome.Installed? ==>
      PlatformDir in d.files && BackupDir !in d.files && Staged(run) !in d.files && OlderBackup(run) !in d.files
    ensures forall p :: p in d.files ==> p in old(d.files)
    ensures d.runs == old(d.runs) && (outcome.Crashed? <==> d.crashes > old(d.crashes))
    ensures d.failures >= old(d.failures) && d.crashes >= old(d.crashes)
    ensures outcome.Installed? <==> d.failures == old(d.failures) && d.crashes == old(d.crashes)
  {
    var r := d.Remove(BackupDir);
    if r.Crash? { return Crashed; }
    var r' := Discard(d, run);
    assert PlatformDir in Installation(d.files) && (r.Done? ==> BackupDir !in Installation(d.files));
    if r'.Crash? { return Crashed; }
    return if r.Done? && r'.Done? then Installed else CleanupFailed;
  }

  /** Discard the stage of a run that promoted nothing. */
  method GiveUp(d: Disk, run: nat) returns (outcome: Outcome)
    requires d.Valid() && ReceiptsAreTrue(d.files)
    modifies d
    ensures d.Valid() && old(d.history) <= d.history && ReceiptsAreTrue(d.files)
    ensures Steady(d.history, |old(d.history)|, Usable(old(d.files)))
    ensures Installation(d.files) == Installation(old(d.files)) && outcome in {Failed, Crashed}
    ensures d.runs == old(d.runs) && (outcome.Crashed? <==> d.crashes > old(d.crashes))
    ensures d.failures >= old(d.failures) && d.crashes >= old(d.crashes)
    ensures outcome.Failed? && d.failures == old(d.failures) ==> Staged(run) !in d.files && OlderBackup(run) !in d.files
    ensures forall p :: p in d.files ==> p in old(d.files)
  {
    var r := Discard(d, run);
    return if r.Crash? then Crashed else Failed;
  }

  /** Nothing staged by the runs from `from` on is left. */
  ghost predicate NoStageFrom(fs: Files, from: nat) {
    forall p :: p in fs && (p.Staged? || p.OlderBackup?) ==> p.run < from
  }

  /** What a run that ended with `outcome` tells of the steps it took: it crashed if one was cut off,
      and it succeeded if every one did. */
  ghost predicate Tells(outcome: Outcome, failures: nat, crashes: nat) {
    && (outcome.Crashed? <==> crashes > 0)
    && (outcome in {Installed, AlreadyInstalled} <==> failures == 0 && crashes == 0)
    && (outcome.NotRestored? ==> failures >= 2)
  }

  /** Promote the staged release, then clean up behind it. */
  method Swap(d: Disk, run: nat) returns (outcome: Outcome, ghost cut: nat)
    requires d.Valid() && ReceiptsAreTrue(d.files) && run < d.runs
    requires Staged(run) in d.files && OlderBackup(run) !in d.files
    requires BackupDir in d.files ==> PlatformDir in d.files
    requires NoStageFrom(d.files - {Staged(run)}, run)
    modifies d
    ensures d.Valid() && old(d.history) <= d.history && d.failures >= old(d.failures) && d.crashes >= old(d.crashes)
    ensures d.runs == old(d.runs) && Tells(outcome, d.failures - old(d.failures), d.crashes - old(d.crashes))
    ensures outcome.Installed? ==> NoStageFrom(d.files, run)
    ensures outcome.Failed? ==> NoStageFrom(d.files, run) || d.failures >= old(d.failures) + 2
    ensures outcome.NotRestored? ==> Staged(run) in d.files && d.files[Staged(run)] == old(d.files)[Staged(run)]
    ensures outcome.CleanupFailed? ==> cut < |d.history|
    ensures forall i :: |old(d.history)| <= i < |d.history| ==> ReceiptsAreTrue(d.history[i])
    ensures SwitchesAt(d.history, |old(d.history)|, cut, Usable(old(d.files)), old(d.files)[Staged(run)])
    ensures outcome.Installed? ==> cut < |d.history| && PlatformDir in d.files && BackupDir !in d.files
    ensures !outcome.AlreadyInstalled?
    ensures outcome.Failed? ==> cut == |d.history| && Installation(d.files) == Installation(old(d.files))
    ensures outcome.NotRestored? ==> cut == |d.history|
  {
    hide ReceiptsAreTrue, Installation;
    var p := Promote(d, run);
    cut := |d.history|;
    match p
    case Interrupted => return Crashed, cut;
    case NotRolledBack => return NotRestored, cut;
    case RolledBack =>
      outcome := GiveUp(d, run);
      return outcome, |d.history|;
    case Promoted =>
      cut := |d.history| - 1;
      outcome := CleanUp(d, run);
      return outcome, cut;
  }

  /** Fetch, verify, stage and promote a release over a recovered installation. */
  method Refresh(d: Disk, sha256: nat) returns (outcome: Outcome, ghost cut: nat, ghost release: Tree)
    requires d.Valid() && ReceiptsAreTrue(d.files)
    requires BackupDir in d.files ==> PlatformDir in d.files
    modifies d
    ensures d.Valid() && old(d.history) <= d.history && d.failures >= old(d.failures) && d.crashes >= old(d.crashes)
    ensures Tells(outcome, d.failures - old(d.failures), d.crashes - old(d.crashes))
    ensures outcome.Installed? ==> NoStageFrom(d.files, old(d.runs))
    ensures outcome.Failed? ==> NoStageFrom(d.files, old(d.runs)) || d.failures >= old(d.failures) + 2
    ensures outcome.NotRestored? ==> exists run :: Staged(run) in d.files && IsRelease(d.files[Staged(run)], sha256)
    ensures outcome.CleanupFailed? ==> cut < |d.history|
    ensures forall i :: |old(d.history)| <= i < |d.history| ==> ReceiptsAreTrue(d.history[i])
    ensures SwitchesAt(d.history, |old(d.history)|, cut, Usable(old(d.files)), release)
    ensures cut < |d.history| ==> IsRelease(release, sha256)
    ensures outcome.Installed? ==> cut < |d.history| && PlatformDir in d.files && BackupDir !in d.files
    ensures !outcome.AlreadyInstalled?
    ensures outcome.Failed? ==> cut == |d.history| && Installation(d.files) == Installation(old(d.files))
    ensures outcome.NotRestored? ==> cut == |d.history|
  {
    hide ReceiptsAreTrue, IsRelease, Usable;
    ghost var restored := d.files;
    var stage := Stage(d, sha256);
    release := Tree(Archive(0, false, false), false, false, false, None);
    cut := |d.history|;
    if stage.Stopped? { return Crashed, cut, release; }
    if stage.NoStage? { return Failed, cut, release; }
    if stage.BadStage? {
      outcome := GiveUp(d, stage.run);
      return outcome, |d.history|, release;
    }
    release := d.files[Staged(stage.run)];
    assert BackupDir in Installation(d.files) <==> BackupDir in Installation(restored);
    assert PlatformDir in Installation(d.files) <==> PlatformDir in Installation(restored);
    SameUsable(restored, d.files);
    outcome, cut := Swap(d, stage.run);
  }

  lemma SameUsable(fs: Files, fs': Files)
    requires Installation(fs) == Installation(fs')
    ensures Usable(fs) == Usable(fs')
  {
    assert forall p :: p in Installation(fs) <==> p in fs && (p.PlatformDir? || p.BackupDir?);
    assert forall p :: p in Installation(fs') <==> p in fs' && (p.PlatformDir? || p.BackupDir?);
  }

  /** A crash-safe install: an interrupted update is undone before anything else, and the usable
      tree changes at most once, at `cut`, from what it was before the run to a complete, verified
      release. A tree that is the release already is kept; otherwise, if no step fails, the release
      is installed. */
  method InstallChromiumFork(d: Disk, force: bool, windows: bool, sha256: nat)
    returns (outcome: Outcome, ghost cut: nat, ghost release: Tree)
    requires d.Valid() && ReceiptsAreTrue(d.files)
    modifies d
    ensures d.Valid() && old(d.history) <= d.history && d.failures >= old(d.failures) && d.crashes >= old(d.crashes)
    ensures forall i :: |old(d.history)| <= i < |d.history| ==> ReceiptsAreTrue(d.history[i])
    ensures SwitchesAt(d.history, |old(d.history)|, cut, Usable(old(d.files)), release)
    ensures cut < |d.history| ==> IsRelease(release, sha256)
    ensures Tells(outcome, d.failures - old(d.failures), d.crashes - old(d.crashes))
    ensures outcome.Installed? ==>
      cut < |d.history| && PlatformDir in d.files && BackupDir !in d.files && NoStageFrom(d.files, old(d.runs))
    ensures outcome.AlreadyInstalled? ==>
      && !force && cut == |d.history| && BackupDir !in d.files && PlatformDir in d.files
      && var t := d.files[PlatformDir];
         t.binary && (windows ==> t.dll) && t.receipt == Some(sha256) && t.source.sha256 == sha256
    ensures var found := Usable(old(d.files));
      !force && found.Some? && found.value.binary && (windows ==> found.value.dll) && found.value.receipt == Some(sha256) ==>
        outcome in {AlreadyInstalled, Failed, CleanupFailed, Crashed} && cut == |d.history| && d.runs == old(d.runs)
    ensures outcome.Failed? ==>
      && cut == |d.history|
      && Installation(d.files) == Installation(if |d.history| == |old(d.history)| then old(d.files) else Restored(old(d.files)))
      && (NoStageFrom(d.files, old(d.runs)) || d.failures >= old(d.failures) + 2)
    ensures outcome.NotRestored? ==>
      cut == |d.history| && exists run :: Staged(run) in d.files && IsRelease(d.files[Staged(run)], sha256)
    ensures NeedsRecovery(old(d.files)) && |d.history| > |old(d.history)| ==>
      d.history[|old(d.history)|] == Restored(old(d.files))
  {
    hide IsRelease, Installation, Steady;
    release := Tree(Archive(0, false, false), false, false, false, None);
    var r := Recover(d);
    cut := |d.history|;
    if !r.Done? { return if r.Crash? then Crashed else Failed, cut, release; }
    if !force && IsCurrent(d.files, windows, sha256) {
      var repaired := d.Try();
      if !repaired.Done? { return if repaired.Crash? then Crashed else Failed, cut, release; }
      r := d.Remove(BackupDir);
      return match r case Done => AlreadyInstalled case Fails => CleanupFailed case Crash => Crashed,
             |d.history|, release;
    }
    outcome, cut, release := Refresh(d, sha256);
  }

  ghost predicate StaysComplete(h: seq<Files>, from: int) {
    forall i, j :: 0 <= from <= i <= j < |h| && HasCompleteTree(h[i]) ==> HasCompleteTree(h[j])
  }

  /** Any number of runs, each with any options and any faults: once the usable tree is
      complete it is complete in every later state of the disk. */
  method RunRepeatedly(d: Disk, count: nat)
    requires d.Valid() && ReceiptsAreTrue(d.files)
    modifies d
    ensures d.Valid() && old(d.history) <= d.history
    ensures forall i :: |old(d.history)| <= i < |d.history| ==> ReceiptsAreTrue(d.history[i])
    ensures StaysComplete(d.history, |old(d.history)| - 1)
    ensures ReceiptMeansComplete(old(d.files)) ==>
      forall i :: |old(d.history)| <= i < |d.history| ==> ReceiptMeansComplete(d.history[i])
  {
    ghost var h0 := |d.history|;
    for n := 0 to count
      invariant d.Valid() && h0 <= |d.history| && old(d.history) <= d.history && ReceiptsAreTrue(d.files)
      invariant forall i :: h0 <= i < |d.history| ==> ReceiptsAreTrue(d.history[i])
      invariant StaysComplete(d.history, h0 - 1)
      invariant ReceiptMeansComplete(old(d.files)) ==>
        forall i :: h0 - 1 <= i < |d.history| ==> ReceiptMeansComplete(d.history[i])
    {
      ghost var h := d.history;
      var force: bool, windows: bool, sha256: nat := *, *, *;
      var outcome, cut, release := InstallChromiumFork(d, force, windows, sha256);
      assert forall i :: 0 <= i < |h| ==> d.history[i] == h[i];
    }
  }
}
