/**
 * The sub-commands of keystore/cmds.py that manage a keystore's life:
 * each one's `validate_args` (guards that stop the program before any
 * outside action) and `run` (a fixed order of lifecycle steps).
 */
module Commands {
  import opened PyPath
  import opened Files
  import opened Host
  import opened Naming
  import opened Volume

  /** Everything `Attach.run` issues when nothing fails: open, verify, then one read-only setting. */
  function AttachRunSteps(path: string, name: string, readonly: bool): seq<Action>
  {
    AttachSteps(path, name) + VerifySteps(name) + [Exec(ReadonlyCommand(name, readonly))]
  }

  /** Everything `Create.run` issues when nothing fails: `_create`, then the `rootfs` directory. */
  function CreateRunSteps(path: string, size: int): seq<Action>
  {
    var n := NormalizeName(path);
    CreateSteps(path, n, "/mnt/" + n, "/dev/mapper/" + n, size) + [Mkdir(Join("/mnt/" + n, "rootfs"))]
  }

  /** Everything `Verify.run` issues when nothing fails: read-only off, verify, read-only on. */
  function VerifyRunSteps(name: string): seq<Action>
  {
    [Exec(ReadonlyCommand(name, false))] + VerifySteps(name) + [Exec(ReadonlyCommand(name, true))]
  }

  /** `Attach.validate_args`: the path must be a regular file, then its keystore must not be attached. */
  method ValidateAttach(host: Machine, path: string) returns (o: Outcome)
    ensures o.Pass? <==> IsFile(host.fs, host.Abs(path)) && !Attached(host.fs, NormalizeName(path))
    ensures !IsFile(host.fs, host.Abs(path)) ==> o == Fail(NotAFile(path))
    ensures o.Fail? ==> o.failure.IsValidation()
  {
    if !IsFile(host.fs, host.Abs(path)) {
      return Fail(NotAFile(path));
    }
    o := ValidateNotAttached(host, path);
    ProbedPathsAreHandlePaths(host.fs, path);
  }

  /** `Detach.validate_args` (and `Verify.validate_args`): the keystore must be attached. */
  method ValidateDetach(host: Machine, name: string) returns (o: Outcome)
    ensures o.Pass? <==> Attached(host.fs, NormalizeName(name))
    ensures o.Fail? ==> o == Fail(NotAttached(name))
  {
    o := ValidateAttached(host, name);
    ProbedPathsAreHandlePaths(host.fs, name);
  }

  /**
   * `Create.validate_args`, guard by guard in the program's order: the path
   * must not exist, its keystore must not be attached, its parent must be a
   * directory owned by user 0 and group 0.
   */
  method ValidateCreate(host: Machine, path: string) returns (o: Outcome)
    ensures var parent := Dirname(host.Abs(path));
      o.Pass? <==>
        host.Abs(path) !in host.fs && !Attached(host.fs, NormalizeName(path)) &&
        IsDir(host.fs, parent) && host.fs[parent].meta.uid == 0 && host.fs[parent].meta.gid == 0
    ensures host.Abs(path) in host.fs ==> o == Fail(AlreadyExists(path))
    ensures host.Abs(path) !in host.fs && Attached(host.fs, NormalizeName(path)) ==> o == Fail(AlreadyAttached(path))
    ensures host.Abs(path) !in host.fs && !Attached(host.fs, NormalizeName(path)) && !IsDir(host.fs, Dirname(host.Abs(path))) ==>
      o == Fail(NotADirectory(Dirname(host.Abs(path))))
    ensures o.Fail? ==> o.failure.IsValidation()
  {
    if host.Abs(path) in host.fs {
      return Fail(AlreadyExists(path));
    }
    o := ValidateNotAttached(host, path);
    ProbedPathsAreHandlePaths(host.fs, path);
    if o.Fail? {
      return;
    }
    var parent := Dirname(host.Abs(path));
    if !IsDir(host.fs, parent) {
      return Fail(NotADirectory(parent));
    }
    var st := host.fs[parent].meta;
    if st.uid != 0 || st.gid != 0 {
      return Fail(NotOwnedByRoot(parent));
    }
    return Pass;
  }

  /**
   * `Attach.run`: open the keystore, verify it once, then set it read-only
   * unless `writable` was asked for and the verification found it healthy.
   */
  method RunAttach(host: Machine, path: string, writable: bool) returns (o: Outcome)
    modifies host`trace
    ensures var n := NormalizeName(path);
      var steps := AttachRunSteps(path, n, !(writable && Healthy(host.output(StatusArgv(n)))));
      host.trace == old(host.trace) + Issued(steps, host.status) && o == RunOutcome(steps, host.status)
    ensures var n := NormalizeName(path);
      o.Pass? ==> ReadonlyState(host.trace, n, host.status) == Some(!(writable && Healthy(host.output(StatusArgv(n)))))
  {
    var fs, attached := Volume.Attach(host, path, writable);
    ghost var n := fs.name;
    ghost var readonly := !(writable && Healthy(host.output(StatusArgv(n))));
    ghost var a, v, r := AttachSteps(path, n), VerifySteps(n), [Exec(ReadonlyCommand(n, readonly))];
    ghost var t0, t1 := old(host.trace), host.trace;
    if attached.Fail? {
      Chain(t0, a, v, t1, t1, attached, attached, host.status);
      Chain(t0, a + v, r, t1, t1, attached, attached, host.status);
      return attached;
    }
    var verified := fs.Verify(host);
    ghost var t2 := host.trace;
    ghost var ov := if verified.Err? then Fail(verified.error) else Pass;
    Chain(t0, a, v, t1, t2, attached, ov, host.status);
    if verified.Err? {
      Chain(t0, a + v, r, t2, t2, ov, ov, host.status);
      return Fail(verified.error);
    }
    if writable && verified.value {
      o := fs.SetReadonly(host, false);
    } else {
      o := fs.SetReadonly(host, true);
    }
    Chain(t0, a + v, r, t2, host.trace, ov, o, host.status);
  }

  /** `Detach.run`: export, remove the mount directory, close LUKS. */
  method RunDetach(host: Machine, name: string) returns (o: Outcome)
    modifies host`trace
    ensures var n := NormalizeName(name);
      host.trace == old(host.trace) + Issued(DetachSteps(n, "/mnt/" + n), host.status) &&
      o == RunOutcome(DetachSteps(n, "/mnt/" + n), host.status)
  {
    o := Volume.Detach(host, name);
  }

  /**
   * `Create.run`: build the keystore, then its `rootfs` directory; on
   * success also return the name to pass to `detach` later (the corrected
   * hint, which names this keystore).
   */
  method RunCreate(host: Machine, path: string, size: int) returns (o: Outcome, hint: string)
    modifies host`trace
    ensures host.trace == old(host.trace) + Issued(CreateRunSteps(path, size), host.status)
    ensures o == RunOutcome(CreateRunSteps(path, size), host.status)
    ensures o.Pass? ==> NormalizeName(hint) == NormalizeName(path)
  {
    var fs, created := Volume.Create(host, path, size);
    ghost var c := CreateSteps(path, fs.name, fs.mntPath, fs.mapperPath, size);
    ghost var m := [Mkdir(Join(fs.mntPath, "rootfs"))];
    ghost var t0, t1 := old(host.trace), host.trace;
    hint := "";
    if created.Fail? {
      Chain(t0, c, m, t1, t1, created, created, host.status);
      return created, hint;
    }
    o := host.Perform(Mkdir(Join(fs.mntPath, "rootfs")));
    if o.Fail? {
      IssuedAt(m, 0, host.status);
    } else {
      IssuedAt(m, 1, host.status);
      hint := CorrectedDetachHint(path);
      CorrectedDetachHintRoundTrips(path);
    }
    Chain(t0, c, m, t1, host.trace, created, o, host.status);
  }

  /** `Verify.run`: make the pool writable, verify it, make it read-only again; the verdict is not used. */
  method RunVerify(host: Machine, name: string) returns (o: Outcome)
    modifies host`trace
    ensures var n := NormalizeName(name);
      host.trace == old(host.trace) + Issued(VerifyRunSteps(n), host.status) && o == RunOutcome(VerifyRunSteps(n), host.status)
    ensures var n := NormalizeName(name);
      o.Pass? ==> ReadonlyState(host.trace, n, host.status) == Some(true)
    ensures var n := NormalizeName(name);
      o.Fail? && !Fails(Exec(ReadonlyCommand(n, false)), host.status) ==>
        ReadonlyState(host.trace, n, host.status) == Some(false)
  {
    var fs := new KeystoreFS(name, None);
    ghost var n := fs.name;
    ghost var w, v, r := [Exec(ReadonlyCommand(n, false))], VerifySteps(n), [Exec(ReadonlyCommand(n, true))];
    ghost var t0 := host.trace;
    o := fs.SetReadonly(host, false);
    ghost var t1 := host.trace;
    if o.Fail? {
      Chain(t0, w, v, t1, t1, o, o, host.status);
      Chain(t0, w + v, r, t1, t1, o, o, host.status);
      return;
    }
    var verified := fs.Verify(host);
    ghost var t2 := host.trace;
    VerifyLeavesReadonly(t1, n, host.status);
    ghost var ov := if verified.Err? then Fail(verified.error) else Pass;
    Chain(t0, w, v, t1, t2, o, ov, host.status);
    if verified.Err? {
      Chain(t0, w + v, r, t2, t2, ov, ov, host.status);
      return Fail(verified.error);
    }
    o := fs.SetReadonly(host, true);
    Chain(t0, w + v, r, t2, host.trace, ov, o, host.status);
  }

  /** `Create.run` makes the `rootfs` directory only once every step of `_create` has succeeded. */
  lemma RootfsAfterCreate(path: string, size: int, status: Action -> int)
    ensures var n := NormalizeName(path);
      var c := CreateSteps(path, n, "/mnt/" + n, "/dev/mapper/" + n, size);
      Mkdir(Join("/mnt/" + n, "rootfs")) in Issued(CreateRunSteps(path, size), status) ==>
        RunOutcome(c, status).Pass?
  {
    var n := NormalizeName(path);
    var c := CreateSteps(path, n, "/mnt/" + n, "/dev/mapper/" + n, size);
    var mk := Mkdir(Join("/mnt/" + n, "rootfs"));
    IssuedAppend(c, [mk], status);
    if RunOutcome(c, status).Fail? {
      assert mk !in c;
    }
  }
}
