/**
 * `keystore restore` (keystore/restore.py): copy the keystore's `rootfs`
 * tree onto a target root, directories first within each walked
 * directory, logging one line per entry; with `--execute` unset nothing is
 * changed and only the log is written.
 */
module Restore {
  import opened PyPath
  import opened Files
  import opened Host
  import opened Naming
  import opened Volume
  import opened SourceTree
  import Coverage

  /** `Restore.DIRNAME` */
  const DirName: string := "rootfs"

  /** 0o40000 and 0o100000: the file-type bits of a directory and of a regular file. */
  const DirType: nat := 16384
  const FileType: nat := 32768

  /** 0o700: what the process's umask of 0o077 leaves of the mode a new directory or file asks for. */
  const UmaskedMode: nat := 448

  /** The file-type bits of a mode, which `chmod` keeps. */
  function TypeBits(mode: nat): nat
  {
    mode - PermissionBits(mode)
  }

  /** `os.chmod(path, mode)`: the permission bits of `mode` replace the node's own. */
  function Chmod(fs: FileSystem, path: string, mode: nat): FileSystem
    requires path in fs
  {
    var m := fs[path].meta;
    fs[path := fs[path].(meta := m.(mode := TypeBits(m.mode) + PermissionBits(mode)))]
  }

  /**
   * `chmod` sets the permission bits and keeps the file type, the owner,
   * the group and the kind of node; no path appears, vanishes or changes
   * besides `path`.
   */
  lemma ChmodEffect(fs: FileSystem, path: string, mode: nat)
    requires path in fs
    ensures var r := Chmod(fs, path, mode);
      && r.Keys == fs.Keys
      && PermissionBits(r[path].meta.mode) == PermissionBits(mode)
      && TypeBits(r[path].meta.mode) == TypeBits(fs[path].meta.mode)
      && r[path].meta.uid == fs[path].meta.uid && r[path].meta.gid == fs[path].meta.gid
      && r[path].DirNode? == fs[path].DirNode?
      && (forall p :: p in fs && p != path ==> r[p] == fs[p])
  {
    var m := fs[path].meta;
    PermissionBitsOfSum(TypeBits(m.mode) / ModeTypeUnit, PermissionBits(mode));
  }

  /** A type part plus permission bits: the permission bits come back unchanged. */
  lemma PermissionBitsOfSum(k: nat, bits: nat)
    requires bits < ModeTypeUnit
    ensures PermissionBits(k * ModeTypeUnit + bits) == bits
  {
  }

  /** `os.chown(path, uid, gid)`: owner and group replaced. */
  function Chown(fs: FileSystem, path: string, uid: nat, gid: nat): FileSystem
    requires path in fs
  {
    fs[path := fs[path].(meta := fs[path].meta.(uid := uid, gid := gid))]
  }

  /** `chown` sets the owner and group and nothing else; no other path changes. */
  lemma ChownEffect(fs: FileSystem, path: string, uid: nat, gid: nat)
    requires path in fs
    ensures var r := Chown(fs, path, uid, gid);
      && r.Keys == fs.Keys
      && r[path].meta == fs[path].meta.(uid := uid, gid := gid)
      && r[path].DirNode? == fs[path].DirNode?
      && (forall p :: p in fs && p != path ==> r[p] == fs[p])
  {
  }

  /** `utils.mkdir_p(path)`: creates the directory unless one is there; a file there makes it raise. */
  function MkdirP(fs: FileSystem, path: string): Result<FileSystem>
  {
    if path in fs then
      if fs[path].DirNode? then Ok(fs) else Err(FileInTheWay(path))
    else Ok(fs[path := DirNode(Meta(0, 0, DirType + UmaskedMode))])
  }

  /**
   * `mkdir_p` raises exactly when a file is in the way; otherwise `path` is
   * a directory afterwards, an existing one untouched and a new one owned
   * by root with mode 0o700 under the umask, and no other path changes.
   */
  lemma MkdirPEffect(fs: FileSystem, path: string)
    ensures var r := MkdirP(fs, path);
      && (r.Err? <==> IsFile(fs, path))
      && (r.Err? ==> r.error == FileInTheWay(path))
      && (r.Ok? ==> IsDir(r.value, path) && r.value.Keys == fs.Keys + {path})
      && (IsDir(fs, path) ==> r == Ok(fs))
      && (r.Ok? && path !in fs ==> r.value[path] == DirNode(Meta(0, 0, DirType + UmaskedMode)))
      && (r.Ok? ==> forall p :: p in fs && p != path ==> r.value[p] == fs[p])
  {
  }

  /** Where `shutil.copy2(src, dst)` writes: into `dst` when it is a directory, else `dst` itself. */
  function CopyDestination(fs: FileSystem, name: string, dst: string): string
  {
    if IsDir(fs, dst) then Join(dst, name) else dst
  }

  /**
   * `shutil.copy2` of a file called `name` with metadata `m` and bytes
   * `content` to `dst`, writing where `CopyDestination` says.
   */
  function Copy2(fs: FileSystem, m: Meta, content: Bytes, name: string, dst: string): Result<FileSystem>
  {
    var w := CopyDestination(fs, name, dst);
    if IsDir(fs, w) then Err(DirectoryInTheWay(w))
    else
      var owner := if w in fs then fs[w].meta else Meta(0, 0, FileType + UmaskedMode);
      Ok(fs[w := FileNode(Meta(owner.uid, owner.gid, FileType + PermissionBits(m.mode)), content)])
  }

  /**
   * `copy2` raises exactly when a directory is where it writes; otherwise
   * the destination is a file with the content and the permission bits, an
   * existing destination file keeps its owner and group, a new one belongs
   * to root, and no other path changes.
   */
  lemma Copy2Effect(fs: FileSystem, m: Meta, content: Bytes, name: string, dst: string)
    ensures var w := CopyDestination(fs, name, dst); var r := Copy2(fs, m, content, name, dst);
      && (r.Err? <==> IsDir(fs, w))
      && (r.Err? ==> r.error == DirectoryInTheWay(w))
      && (r.Ok? ==> r.value.Keys == fs.Keys + {w} && r.value[w].FileNode? && r.value[w].content == content)
      && (r.Ok? ==> PermissionBits(r.value[w].meta.mode) == PermissionBits(m.mode))
      && (r.Ok? && w in fs ==> r.value[w].meta.uid == fs[w].meta.uid && r.value[w].meta.gid == fs[w].meta.gid)
      && (r.Ok? && w !in fs ==> r.value[w].meta.uid == 0 && r.value[w].meta.gid == 0)
      && (r.Ok? ==> forall p :: p in fs && p != w ==> r.value[p] == fs[p])
  {
    PermissionBitsOfSum(FileType / ModeTypeUnit, PermissionBits(m.mode));
  }

  /** What `--execute` does for one entry. */
  function ApplyEntry(fs: FileSystem, e: Entry): Result<FileSystem>
  {
    if e.isDir then
      match MkdirP(fs, e.target)
      case Err(f) => Err(f)
      case Ok(fs1) => Ok(Chmod(Chown(fs1, e.target, e.meta.uid, e.meta.gid), e.target, e.meta.mode))
    else Copy2(fs, e.meta, e.content, Basename(e.source), e.target)
  }

  /**
   * A directory entry leaves its target a directory with the source's
   * owner, group and permission bits, whether or not it existed before,
   * and changes no other path; it fails only over an existing file.
   */
  lemma ApplyDirEntry(fs: FileSystem, e: Entry)
    requires e.isDir
    ensures ApplyEntry(fs, e).Err? <==> IsFile(fs, e.target)
    ensures var r := ApplyEntry(fs, e);
      r.Ok? ==>
        && IsDir(r.value, e.target)
        && r.value[e.target].meta.uid == e.meta.uid && r.value[e.target].meta.gid == e.meta.gid
        && PermissionBits(r.value[e.target].meta.mode) == PermissionBits(e.meta.mode)
        && r.value.Keys == fs.Keys + {e.target}
        && (forall p :: p in fs && p != e.target ==> r.value[p] == fs[p])
  {
    MkdirPEffect(fs, e.target);
    var made := MkdirP(fs, e.target);
    if made.Ok? {
      ChownEffect(made.value, e.target, e.meta.uid, e.meta.gid);
      ChmodEffect(Chown(made.value, e.target, e.meta.uid, e.meta.gid), e.target, e.meta.mode);
    }
  }

  /** Applying the entries of a plan in order, stopping at the first that raises. */
  datatype Applied = Applied(fs: FileSystem, count: nat, outcome: Outcome)

  /**
   * Applies `plan` from `fs` entry by entry with `step`, stopping at the
   * first entry that raises: the filesystem left, how many entries were
   * reached (the failing one included) and how it ended.
   */
  function Replay(step: (FileSystem, Entry) -> Result<FileSystem>, fs: FileSystem, plan: seq<Entry>): (r: Applied)
    ensures r.count <= |plan|
    ensures r.outcome.Pass? ==> r.count == |plan|
    ensures r.outcome.Fail? ==> r.count >= 1
  {
    if plan == [] then Applied(fs, 0, Pass)
    else
      var prev := Replay(step, fs, plan[..|plan| - 1]);
      if prev.outcome.Fail? then prev
      else
        match step(prev.fs, plan[|plan| - 1])
        case Ok(fs1) => Applied(fs1, |plan|, Pass)
        case Err(f) => Applied(prev.fs, |plan|, Fail(f))
  }

  /**
   * A failed replay stops at entry `count - 1`: the entries before it all
   * succeeded, that entry raised the reported error, and the filesystem is
   * the one the entries before it left.
   */
  lemma {:induction false} ReplayFailsAt(step: (FileSystem, Entry) -> Result<FileSystem>, fs: FileSystem, plan: seq<Entry>)
    requires Replay(step, fs, plan).outcome.Fail?
    ensures var r := Replay(step, fs, plan); var before := Replay(step, fs, plan[..r.count - 1]);
      before.outcome.Pass? && before.fs == r.fs && step(before.fs, plan[r.count - 1]) == Err(r.outcome.failure)
    decreases |plan|
  {
    var init := plan[..|plan| - 1];
    var prev := Replay(step, fs, init);
    if prev.outcome.Fail? {
      ReplayFailsAt(step, fs, init);
      var k := prev.count - 1;
      assert init[..k] == plan[..k] && init[k] == plan[k];
    } else {
      assert plan[..|plan| - 1] == init;
    }
  }

  /** Once a prefix of the plan has failed, the entries after it are never applied. */
  lemma {:induction false} ReplayStops(step: (FileSystem, Entry) -> Result<FileSystem>, fs: FileSystem, p: seq<Entry>, q: seq<Entry>)
    requires Replay(step, fs, p).outcome.Fail?
    ensures Replay(step, fs, p + q) == Replay(step, fs, p)
    decreases |q|
  {
    if q == [] {
      assert p + q == p;
    } else {
      assert (p + q)[..|p + q| - 1] == p + q[..|q| - 1];
      ReplayStops(step, fs, p, q[..|q| - 1]);
    }
  }

  /**
   * A file entry copies its source's content and permission bits to where
   * `copy2` writes, and changes no other path; it fails only over a
   * directory there.
   */
  lemma ApplyFileEntry(fs: FileSystem, e: Entry)
    requires !e.isDir
    ensures var w := CopyDestination(fs, Basename(e.source), e.target); var r := ApplyEntry(fs, e);
      && (r.Err? <==> IsDir(fs, w))
      && (r.Ok? ==>
            && r.value.Keys == fs.Keys + {w} && r.value[w].FileNode? && r.value[w].content == e.content
            && PermissionBits(r.value[w].meta.mode) == PermissionBits(e.meta.mode)
            && (forall p :: p in fs && p != w ==> r.value[p] == fs[p]))
  {
    Copy2Effect(fs, e.meta, e.content, Basename(e.source), e.target);
  }

  /** What an executed restore does with its plan. */
  function ApplyPlan(fs: FileSystem, plan: seq<Entry>): Applied
  {
    Replay(ApplyEntry, fs, plan)
  }

  /**
   * A failed restore stops at entry `count - 1`, after the entries before it
   * all succeeded: a directory entry fails because a file is at its target,
   * a file entry because a directory is where `copy2` would write.
   */
  lemma ApplyPlanFailsAt(fs: FileSystem, plan: seq<Entry>)
    requires ApplyPlan(fs, plan).outcome.Fail?
    ensures var r := ApplyPlan(fs, plan); var before := ApplyPlan(fs, plan[..r.count - 1]); var e := plan[r.count - 1];
      && before.outcome.Pass? && before.fs == r.fs
      && (e.isDir ==> IsFile(r.fs, e.target) && r.outcome.failure == FileInTheWay(e.target))
      && (!e.isDir ==>
            var w := CopyDestination(r.fs, Basename(e.source), e.target);
            IsDir(r.fs, w) && r.outcome.failure == DirectoryInTheWay(w))
  {
    ReplayFailsAt(ApplyEntry, fs, plan);
  }

  /**
   * The report is the same with and without `--execute`: the executed run
   * logs a prefix of the dry run's lines, all of them when it succeeds,
   * and up to the entry that failed otherwise.
   */
  lemma ReportIsDryRunReport(fs: FileSystem, plan: seq<Entry>)
    ensures var r := ApplyPlan(fs, plan);
      Lines(plan[..r.count]) <= Lines(plan) &&
      (r.outcome.Pass? ==> Lines(plan[..r.count]) == Lines(plan)) &&
      (r.outcome.Fail? ==> Lines(plan[..r.count]) == Lines(plan)[..r.count])
  {
    var r := ApplyPlan(fs, plan);
    assert plan[..|plan|] == plan;
    LinesPrefix(plan, r.count);
  }

  /** An entry that succeeds deletes nothing and turns no directory into a file. */
  lemma EntryKeepsDirectories(fs: FileSystem, e: Entry)
    requires ApplyEntry(fs, e).Ok?
    ensures fs.Keys <= ApplyEntry(fs, e).value.Keys
    ensures forall p :: IsDir(fs, p) ==> IsDir(ApplyEntry(fs, e).value, p)
    ensures forall p :: IsDir(fs, p) && !(e.isDir && e.target == p) ==> ApplyEntry(fs, e).value[p] == fs[p]
  {
    if e.isDir {
      ApplyDirEntry(fs, e);
    } else {
      ApplyFileEntry(fs, e);
    }
  }

  /** An executed restore deletes nothing and turns no directory into a file, even when it fails. */
  lemma {:induction false} PlanKeepsDirectories(fs: FileSystem, plan: seq<Entry>)
    ensures fs.Keys <= ApplyPlan(fs, plan).fs.Keys
    ensures forall p :: IsDir(fs, p) ==> IsDir(ApplyPlan(fs, plan).fs, p)
    decreases |plan|
  {
    if plan != [] {
      var prev := ApplyPlan(fs, plan[..|plan| - 1]);
      PlanKeepsDirectories(fs, plan[..|plan| - 1]);
      if prev.outcome.Pass? && ApplyEntry(prev.fs, plan[|plan| - 1]).Ok? {
        EntryKeepsDirectories(prev.fs, plan[|plan| - 1]);
      }
    }
  }

  /**
   * After an executed restore that succeeds, the target of directory entry
   * `k` is a directory with the source's owner, group and permission bits,
   * unless a later directory entry has the same target.
   */
  lemma {:induction false} DirectoriesRestored(fs: FileSystem, plan: seq<Entry>, k: nat)
    requires ApplyPlan(fs, plan).outcome.Pass?
    requires k < |plan| && plan[k].isDir
    requires forall m :: k < m < |plan| && plan[m].isDir ==> plan[m].target != plan[k].target
    ensures var r := ApplyPlan(fs, plan).fs; var t := plan[k].target;
      IsDir(r, t) && r[t].meta.uid == plan[k].meta.uid && r[t].meta.gid == plan[k].meta.gid &&
      PermissionBits(r[t].meta.mode) == PermissionBits(plan[k].meta.mode)
    decreases |plan|
  {
    var init, last := plan[..|plan| - 1], plan[|plan| - 1];
    var prev := ApplyPlan(fs, init);
    assert prev.outcome.Pass?;
    if k == |plan| - 1 {
      ApplyDirEntry(prev.fs, last);
    } else {
      DirectoriesRestored(fs, init, k);
      EntryKeepsDirectories(prev.fs, last);
    }
  }

  /**
   * After an executed restore of a well-formed tree that succeeds, every
   * directory below the source has been recreated at its target with the
   * source's owner, group and permission bits: no two entries share a
   * target, so no later entry undoes one.
   */
  lemma RunRestoresDirectories(fs: FileSystem, root: string, src: string, tree: Tree, k: nat)
    requires SourceRoot(src) && WellFormed(tree)
    requires ApplyPlan(fs, Plan(root, src, tree)).outcome.Pass?
    requires k < |Plan(root, src, tree)| && Plan(root, src, tree)[k].isDir
    ensures var plan := Plan(root, src, tree); var r := ApplyPlan(fs, plan).fs; var t := plan[k].target;
      IsDir(r, t) && r[t].meta.uid == plan[k].meta.uid && r[t].meta.gid == plan[k].meta.gid &&
      PermissionBits(r[t].meta.mode) == PermissionBits(plan[k].meta.mode)
  {
    Coverage.PlanTargetsDistinct(root, src, tree);
    DirectoriesRestored(fs, Plan(root, src, tree), k);
  }

  /** Applying one more entry after a prefix that passed. */
  lemma ApplyPlanNext(fs0: FileSystem, done: seq<Entry>, e: Entry, fs: FileSystem)
    requires ApplyPlan(fs0, done) == Applied(fs, |done|, Pass)
    ensures ApplyPlan(fs0, done + [e]) ==
      match ApplyEntry(fs, e)
      case Ok(fs1) => Applied(fs1, |done| + 1, Pass)
      case Err(f) => Applied(fs, |done| + 1, Fail(f))
  {
    assert (done + [e])[..|done + [e]| - 1] == done;
  }

  /** The entries of the first `i + 1` walked directories: those of the first `i`, then those of directory `i`. */
  lemma PlanOfSnoc(root: string, src: string, steps: seq<Step>, i: nat)
    requires i < |steps|
    ensures PlanOf(root, src, steps[..i + 1]) == PlanOf(root, src, steps[..i]) + StepEntries(root, src, steps[i])
  {
    assert steps[..i + 1][..i] == steps[..i];
  }

  /** A split of the entries of the first `i + 1` walked directories is, with the later ones, a split of the whole plan. */
  lemma PlanSplit(root: string, src: string, steps: seq<Step>, i: nat, done: seq<Entry>, rest: seq<Entry>)
    requires i < |steps| && done + rest == PlanOf(root, src, steps[..i + 1])
    ensures done + (rest + PlanOf(root, src, steps[i + 1..])) == PlanOf(root, src, steps)
  {
    TakeDrop(steps, i + 1);
    ConcatAssoc(done, rest, PlanOf(root, src, steps[i + 1..]));
    PlanOfAppend(root, src, steps[..i + 1], steps[i + 1..]);
  }

  /** Logging one more entry. */
  lemma LinesSnoc(log0: seq<LogRecord>, done: seq<Entry>, e: Entry)
    ensures log0 + Lines(done) + [LogLine(e)] == log0 + Lines(done + [e])
  {
    LinesAppend(done, [e]);
  }

  /**
   * An entry that fails ends the run: the whole plan ends where the part
   * done ended, with its state and its outcome.
   */
  lemma FailureIsFinal(fs0: FileSystem, log0: seq<LogRecord>, plan: seq<Entry>, done: seq<Entry>, rest: seq<Entry>,
                       fs: FileSystem, log: seq<LogRecord>, o: Outcome)
    requires plan == done + rest && o.Fail?
    requires ApplyPlan(fs0, done) == Applied(fs, |done|, o) && log == log0 + Lines(done)
    ensures var r := ApplyPlan(fs0, plan); fs == r.fs && o == r.outcome && log == log0 + Lines(plan[..r.count])
  {
    ReplayStops(ApplyEntry, fs0, done, rest);
    assert plan[..|done|] == done;
  }

  /**
   * restore.py:36-40 for subdirectory `dirs[j]` of `dirpath`, whose plan
   * entries are `es`: log it and, with `execute`, create it and give it the
   * source's owner and mode; the log and the filesystem move on by exactly
   * its entry `es[j]`.
   */
  method RestoreDirectory(host: Machine, root: string, src: string, dirpath: string, targetDirpath: string,
                          dirs: seq<Child>, j: nat, execute: bool, ghost fs0: FileSystem,
                          ghost log0: seq<LogRecord>, ghost done: seq<Entry>, ghost es: seq<Entry>)
    returns (o: Outcome)
    requires targetDirpath == TargetDir(root, src, dirpath) && j < |dirs| && dirs[j].node.SrcDir?
    requires |es| == |dirs|
    requires forall k {:trigger dirs[k]} :: 0 <= k < |dirs| ==> es[k] == MakeEntry(root, src, dirpath, dirs[k])
    requires host.log == log0 + Lines(done)
    requires !execute ==> host.fs == fs0
    requires execute ==> ApplyPlan(fs0, done) == Applied(host.fs, |done|, Pass)
    modifies host`fs, host`log
    ensures host.log == log0 + Lines(done + [es[j]])
    ensures !execute ==> o == Pass && host.fs == fs0
    ensures execute ==> ApplyPlan(fs0, done + [es[j]]) == Applied(host.fs, |done| + 1, o)
  {
    ghost var e := es[j];
    var c := dirs[j];
    var targetPath := Join(targetDirpath, c.name);
    var stat := c.node.meta;
    assert e.isDir && e.target == targetPath && e.meta == stat;
    host.log := host.log + [NewDirectory(targetPath, stat)];
    LinesSnoc(log0, done, e);
    o := Pass;
    if execute {
      ApplyPlanNext(fs0, done, e, host.fs);
      var made := MkdirP(host.fs, targetPath);
      if made.Err? {
        return Fail(made.error);
      }
      host.fs := Chmod(Chown(made.value, targetPath, stat.uid, stat.gid), targetPath, stat.mode);
    }
  }

  /**
   * restore.py:44-48 for file `files[j]` of `dirpath`, whose plan entries
   * are `es`: log it and, with `execute`, copy it with `copy2`; the log and
   * the filesystem move on by exactly its entry `es[j]`.
   */
  method RestoreFile(host: Machine, root: string, src: string, dirpath: string, targetDirpath: string,
                     files: seq<Child>, j: nat, execute: bool, ghost fs0: FileSystem,
                     ghost log0: seq<LogRecord>, ghost done: seq<Entry>, ghost es: seq<Entry>)
    returns (o: Outcome)
    requires targetDirpath == TargetDir(root, src, dirpath) && j < |files| && files[j].node.SrcFile?
    requires |es| == |files|
    requires forall k {:trigger files[k]} :: 0 <= k < |files| ==> es[k] == MakeEntry(root, src, dirpath, files[k])
    requires host.log == log0 + Lines(done)
    requires !execute ==> host.fs == fs0
    requires execute ==> ApplyPlan(fs0, done) == Applied(host.fs, |done|, Pass)
    modifies host`fs, host`log
    ensures host.log == log0 + Lines(done + [es[j]])
    ensures !execute ==> o == Pass && host.fs == fs0
    ensures execute ==> ApplyPlan(fs0, done + [es[j]]) == Applied(host.fs, |done| + 1, o)
  {
    ghost var e := es[j];
    var c := files[j];
    var sourcePath := Join(dirpath, c.name);
    var targetPath := Join(targetDirpath, c.name);
    var stat := c.node.meta;
    assert e == Entry(false, sourcePath, RelPath(src, sourcePath), targetPath, stat, c.node.content);
    host.log := host.log + [Copied(RelPath(src, sourcePath), targetPath, stat)];
    LinesSnoc(log0, done, e);
    o := Pass;
    if execute {
      ApplyPlanNext(fs0, done, e, host.fs);
      var copied := Copy2(host.fs, stat, c.node.content, Basename(sourcePath), targetPath);
      if copied.Err? {
        return Fail(copied.error);
      }
      host.fs := copied.value;
    }
  }

  /**
   * restore.py:32-40, the subdirectories `dirs` of walked directory
   * `dirpath`, whose plan entries are `es`: log each one and, with
   * `execute`, create it and give it the source's owner and mode. `done'`
   * is what was handled, from `done` on, and `rest'` what was not.
   */
  method RestoreDirectories(host: Machine, root: string, src: string, dirpath: string, targetDirpath: string,
                            dirs: seq<Child>, execute: bool, ghost fs0: FileSystem, ghost log0: seq<LogRecord>,
                            ghost done: seq<Entry>, ghost es: seq<Entry>)
    returns (o: Outcome, ghost done': seq<Entry>, ghost rest': seq<Entry>)
    requires targetDirpath == TargetDir(root, src, dirpath)
    requires forall k :: 0 <= k < |dirs| ==> dirs[k].node.SrcDir?
    requires |es| == |dirs|
    requires forall k {:trigger dirs[k]} :: 0 <= k < |dirs| ==> es[k] == MakeEntry(root, src, dirpath, dirs[k])
    requires host.log == log0 + Lines(done)
    requires !execute ==> host.fs == fs0
    requires execute ==> ApplyPlan(fs0, done) == Applied(host.fs, |done|, Pass)
    modifies host`fs, host`log
    ensures done' + rest' == done + es
    ensures host.log == log0 + Lines(done')
    ensures !execute ==> o == Pass && host.fs == fs0
    ensures o.Pass? ==> rest' == [] && done' == done + es
    ensures execute && o.Pass? ==> ApplyPlan(fs0, done') == Applied(host.fs, |done'|, Pass)
    ensures o.Fail? ==> ApplyPlan(fs0, done') == Applied(host.fs, |done'|, o)
  {
    done', rest' := done, [];
    assert es[..0] == [];
    var j := 0;
    while j < |dirs|
      invariant 0 <= j <= |dirs|
      invariant done' == done + es[..j] && rest' == []
      invariant host.log == log0 + Lines(done')
      invariant !execute ==> host.fs == fs0
      invariant execute ==> ApplyPlan(fs0, done') == Applied(host.fs, |done'|, Pass)
    {
      o := RestoreDirectory(host, root, src, dirpath, targetDirpath, dirs, j, execute, fs0, log0, done', es);
      TakeOneMore(done, es, j);
      done' := done' + [es[j]];
      if o.Fail? {
        HandledAndRest(done, es, j + 1);
        return o, done', es[j + 1..];
      }
      j := j + 1;
    }
    TakeAll(es);
    o := Pass;
  }

  /**
   * restore.py:42-48, the files `files` of walked directory `dirpath`,
   * whose plan entries are `es`: log each one and, with `execute`, copy it
   * with `copy2`.
   */
  method RestoreFiles(host: Machine, root: string, src: string, dirpath: string, targetDirpath: string,
                      files: seq<Child>, execute: bool, ghost fs0: FileSystem, ghost log0: seq<LogRecord>,
                      ghost done: seq<Entry>, ghost es: seq<Entry>)
    returns (o: Outcome, ghost done': seq<Entry>, ghost rest': seq<Entry>)
    requires targetDirpath == TargetDir(root, src, dirpath)
    requires forall k :: 0 <= k < |files| ==> files[k].node.SrcFile?
    requires |es| == |files|
    requires forall k {:trigger files[k]} :: 0 <= k < |files| ==> es[k] == MakeEntry(root, src, dirpath, files[k])
    requires host.log == log0 + Lines(done)
    requires !execute ==> host.fs == fs0
    requires execute ==> ApplyPlan(fs0, done) == Applied(host.fs, |done|, Pass)
    modifies host`fs, host`log
    ensures done' + rest' == done + es
    ensures host.log == log0 + Lines(done')
    ensures !execute ==> o == Pass && host.fs == fs0
    ensures o.Pass? ==> rest' == [] && done' == done + es
    ensures execute && o.Pass? ==> ApplyPlan(fs0, done') == Applied(host.fs, |done'|, Pass)
    ensures o.Fail? ==> ApplyPlan(fs0, done') == Applied(host.fs, |done'|, o)
  {
    done', rest' := done, [];
    assert es[..0] == [];
    var j := 0;
    while j < |files|
      invariant 0 <= j <= |files|
      invariant done' == done + es[..j] && rest' == []
      invariant host.log == log0 + Lines(done')
      invariant !execute ==> host.fs == fs0
      invariant execute ==> ApplyPlan(fs0, done') == Applied(host.fs, |done'|, Pass)
    {
      o := RestoreFile(host, root, src, dirpath, targetDirpath, files, j, execute, fs0, log0, done', es);
      TakeOneMore(done, es, j);
      done' := done' + [es[j]];
      if o.Fail? {
        HandledAndRest(done, es, j + 1);
        return o, done', es[j + 1..];
      }
      j := j + 1;
    }
    TakeAll(es);
    o := Pass;
  }

  /**
   * restore.py:30-48 for the walked directory `steps[i]`: its
   * subdirectories, then its files, each logged and, with `execute`,
   * applied, after the entries of `steps[..i]` were handled. `done` is what
   * it has handled of the entries of `steps[..i + 1]`, `rest` what it has not.
   */
  method RestoreStep(host: Machine, root: string, src: string, steps: seq<Step>, i: nat, execute: bool,
                     ghost fs0: FileSystem, ghost log0: seq<LogRecord>)
    returns (o: Outcome, ghost done: seq<Entry>, ghost rest: seq<Entry>)
    requires i < |steps| && Classified(steps[i])
    requires host.log == log0 + Lines(PlanOf(root, src, steps[..i]))
    requires !execute ==> host.fs == fs0
    requires execute ==>
      ApplyPlan(fs0, PlanOf(root, src, steps[..i])) == Applied(host.fs, |PlanOf(root, src, steps[..i])|, Pass)
    modifies host`fs, host`log
    ensures done + rest == PlanOf(root, src, steps[..i + 1])
    ensures host.log == log0 + Lines(done)
    ensures !execute ==> o == Pass && host.fs == fs0
    ensures o.Pass? ==> rest == [] && done == PlanOf(root, src, steps[..i + 1])
    ensures execute && o.Pass? ==> ApplyPlan(fs0, done) == Applied(host.fs, |done|, Pass)
    ensures o.Fail? ==> ApplyPlan(fs0, done) == Applied(host.fs, |done|, o)
  {
    var st := steps[i];
    ghost var before := PlanOf(root, src, steps[..i]);
    ghost var plan := PlanOf(root, src, steps[..i + 1]);
    PlanOfSnoc(root, src, steps, i);
    var targetDirpath := TargetDir(root, src, st.dirpath);
    ghost var fes := EntriesOf(root, src, st.dirpath, st.files);
    ghost var des := EntriesOf(root, src, st.dirpath, st.dirs);
    EntriesAt(root, src, st.dirpath, st.files);
    EntriesAt(root, src, st.dirpath, st.dirs);
    o, done, rest := RestoreDirectories(host, root, src, st.dirpath, targetDirpath, st.dirs, execute, fs0, log0,
                                        before, des);
    if o.Fail? {
      ConcatAssoc(done, rest, fes);
      ConcatAssoc(before, des, fes);
      rest := rest + fes;
      return;
    }
    o, done, rest := RestoreFiles(host, root, src, st.dirpath, targetDirpath, st.files, execute, fs0, log0,
                                  done, fes);
    ConcatAssoc(before, des, fes);
  }

  /**
   * `Restore.run` over the source tree `tree` found at `src`: log every
   * entry of the walk, and with `execute` apply it right after logging it.
   * A dry run changes nothing and logs the whole plan; an executed run ends
   * in the state and outcome of applying the plan, having logged every
   * entry up to the one that failed.
   */
  method Run(host: Machine, root: string, src: string, execute: bool, tree: Tree) returns (o: Outcome)
    modifies host`fs, host`log
    ensures var plan := Plan(root, src, tree);
      !execute ==> o == Pass && host.fs == old(host.fs) && host.log == old(host.log) + Lines(plan)
    ensures var plan := Plan(root, src, tree); var r := ApplyPlan(old(host.fs), plan);
      execute ==> host.fs == r.fs && o == r.outcome && host.log == old(host.log) + Lines(plan[..r.count])
  {
    var steps := Walk(src, tree);
    WalkClassified(src, tree);
    ghost var plan := Plan(root, src, tree);
    ghost var done, rest;
    o, done, rest := RestoreSteps(host, root, src, steps, execute);
    if o.Fail? {
      FailureIsFinal(old(host.fs), old(host.log), plan, done, rest, host.fs, host.log, o);
    } else {
      assert done == plan && plan[..|plan|] == plan;
    }
  }

  /**
   * The loop of restore.py:30-48 over the walked directories `steps`:
   * `done` is the part of their plan that was handled, `rest` the part
   * that was not; a failure ends the loop at the entry that raised.
   */
  method RestoreSteps(host: Machine, root: string, src: string, steps: seq<Step>, execute: bool)
    returns (o: Outcome, ghost done: seq<Entry>, ghost rest: seq<Entry>)
    requires forall i :: 0 <= i < |steps| ==> Classified(steps[i])
    modifies host`fs, host`log
    ensures done + rest == PlanOf(root, src, steps)
    ensures host.log == old(host.log) + Lines(done)
    ensures !execute ==> o == Pass && host.fs == old(host.fs)
    ensures o.Pass? ==> rest == []
    ensures execute && o.Pass? ==> ApplyPlan(old(host.fs), done) == Applied(host.fs, |done|, Pass)
    ensures o.Fail? ==> ApplyPlan(old(host.fs), done) == Applied(host.fs, |done|, o)
  {
    ghost var fs0, log0 := host.fs, host.log;
    done, rest := [], [];
    assert steps[..0] == [];
    o := Pass;
    var i := 0;
    while i < |steps|
      invariant 0 <= i <= |steps|
      invariant done == PlanOf(root, src, steps[..i])
      invariant host.log == log0 + Lines(done)
      invariant !execute ==> host.fs == fs0
      invariant execute ==> ApplyPlan(fs0, done) == Applied(host.fs, |done|, Pass)
      invariant o == Pass && rest == []
    {
      o, done, rest := RestoreStep(host, root, src, steps, i, execute, fs0, log0);
      if o.Fail? {
        PlanSplit(root, src, steps, i, done, rest);
        rest := rest + PlanOf(root, src, steps[i + 1..]);
        return;
      }
      i := i + 1;
    }
    assert steps[..|steps|] == steps;
  }

  /** `os.path.join(fs.mnt_path, Restore.DIRNAME)` for the keystore named by `name`. */
  function SourcePath(name: string): string
  {
    Join(MntPath(NormalizeName(name)), DirName)
  }

  /** The source directory is `/mnt/keystore-<stem>/rootfs`, a valid walk root. */
  lemma SourcePathShape(name: string)
    ensures SourcePath(name) == "/mnt/" + NormalizeName(name) + "/rootfs"
    ensures SourceRoot(SourcePath(name)) && |SourcePath(name)| >= 2
    ensures SourcePath(name)[0] == '/' && SourcePath(name)[1] != '/'
  {
    var n := NormalizeName(name);
    assert MntPath(n) == "/mnt/" + n && n != "" && NoSlash(n) by {
      ProbedPathsAreHandlePaths(map[], name);
      NormalizeNameStripsExtension(name);
    }
    RootfsBelow(n);
  }

  /** `/mnt/<n>/rootfs` for a non-empty name `n` without '/'. */
  lemma RootfsBelow(n: string)
    requires n != "" && NoSlash(n)
    ensures var p := Join("/mnt/" + n, DirName);
      p == "/mnt/" + n + "/rootfs" && SourceRoot(p) && |p| >= 2 && p[0] == '/' && p[1] != '/'
  {
    var m := "/mnt/" + n;
    assert m[|m| - 1] == n[|n| - 1] != '/';
  }

  /**
   * The keystore's own source directory exhibits the target-path defect: a
   * directory `<src>/mnt/<name>/rootfs` below it, whose path holds the
   * source path twice, is sent to `root` itself by restore.py:31, while its
   * place below `root` is `root/mnt/<name>/rootfs`.
   */
  lemma RestoreTargetAsWrittenCollapses(root: string, name: string)
    ensures var src := SourcePath(name);
      UnderSource(src, src + src) &&
      TargetDirAsWritten(root, src, src + src) == Join(root, "") &&
      TargetDir(root, src, src + src) == Join(root, src[1..]) &&
      TargetDirAsWritten(root, src, src + src) != TargetDir(root, src, src + src)
  {
    SourcePathShape(name);
    TargetDirAsWrittenCollapses(root, SourcePath(name));
  }

  /**
   * `Restore.validate_args`, guard by guard: the root must be a directory,
   * then the keystore must be attached, then its `rootfs` must be a
   * directory. On success the source directory is returned.
   */
  method ValidateRestore(host: Machine, root: string, name: string) returns (r: Result<string>)
    ensures r.Ok? <==>
      IsDir(host.fs, host.Abs(root)) && Attached(host.fs, NormalizeName(name)) && IsDir(host.fs, SourcePath(name))
    ensures !IsDir(host.fs, host.Abs(root)) ==> r == Err(NotADirectory(root))
    ensures IsDir(host.fs, host.Abs(root)) && !Attached(host.fs, NormalizeName(name)) ==> r == Err(NotAttached(name))
    ensures IsDir(host.fs, host.Abs(root)) && Attached(host.fs, NormalizeName(name)) && !IsDir(host.fs, SourcePath(name)) ==>
      r == Err(NotADirectory(SourcePath(name)))
    ensures r.Ok? ==> r.value == "/mnt/" + NormalizeName(name) + "/rootfs"
    ensures r.Err? ==> r.error.IsValidation()
  {
    if !IsDir(host.fs, host.Abs(root)) {
      return Err(NotADirectory(root));
    }
    var attached := ValidateAttached(host, name);
    ProbedPathsAreHandlePaths(host.fs, name);
    if attached.Fail? {
      return Err(attached.failure);
    }
    var fs := new KeystoreFS(name, None);
    var sourcePath := Join(fs.mntPath, DirName);
    if !IsDir(host.fs, sourcePath) {
      return Err(NotADirectory(sourcePath));
    }
    SourcePathShape(name);
    return Ok(sourcePath);
  }
}
