/**
 * The keystore volume (keystore/fs.py `KeystoreFS`): a LUKS-encrypted file
 * holding a ZFS pool. Each lifecycle operation is a fixed sequence of
 * raising outside actions; the first one that fails aborts the rest.
 */
module Volume {
  import opened PyPath
  import opened Files
  import opened Host
  import opened Naming

  /** `set_readonly`'s command: "on" exactly when `readonly` holds. */
  function ReadonlyCommand(name: string, readonly: bool): string
  {
    "zfs set readonly=" + (if readonly then "on" else "off") + " " + name
  }

  /** The mode `_create` gives the mount directory: 0o700. */
  const MountMode: nat := 448

  /** The actions of `_create`, in order. */
  function CreateSteps(path: string, name: string, mnt: string, mapper: string, size: int): seq<Action>
  {
    [ SparseFile(path, size),
      Exec("cryptsetup luksFormat " + path),
      Exec("cryptsetup luksOpen " + path + " " + name),
      Exec("zpool create -m " + mnt + " " + name + " " + mapper),
      Exec("zfs set compression=on " + name),
      Chmod(mnt, MountMode) ]
  }

  /** The actions of `_attach`, in order. */
  function AttachSteps(path: string, name: string): seq<Action>
  {
    [ Exec("cryptsetup luksOpen " + path + " " + name),
      Exec("zpool import -d /dev/mapper " + name) ]
  }

  /** The actions of `_detach`, in order. */
  function DetachSteps(name: string, mnt: string): seq<Action>
  {
    [ Exec("zpool export " + name), Rmdir(mnt), Exec("cryptsetup luksClose " + name) ]
  }

  /** The final health query of `verify`. */
  function StatusArgv(name: string): seq<string>
  {
    ["zpool", "status", "-x", name]
  }

  /** The actions of `verify` (the polling loop between them is not modelled). */
  function VerifySteps(name: string): seq<Action>
  {
    [ Exec("zpool scrub " + name), Query(StatusArgv(name)) ]
  }

  /** `verify`'s verdict on the query's output. */
  predicate Healthy(report: string)
  {
    Contains(report, "healthy")
  }

  /**
   * The read-only property of pool `name` as the trace last set it: the
   * value of the latest `zfs set readonly` command for that pool that
   * succeeded, or `None` when no such command has succeeded.
   */
  function ReadonlyState(trace: seq<Action>, name: string, status: Action -> int): Option<bool>
  {
    if trace == [] then None
    else
      var a := trace[|trace| - 1];
      if !Fails(a, status) && a == Exec(ReadonlyCommand(name, true)) then Some(true)
      else if !Fails(a, status) && a == Exec(ReadonlyCommand(name, false)) then Some(false)
      else ReadonlyState(trace[..|trace| - 1], name, status)
  }

  /** An action that is not a `zfs set readonly` command for `name`. */
  predicate KeepsReadonly(a: Action, name: string)
  {
    a != Exec(ReadonlyCommand(name, true)) && a != Exec(ReadonlyCommand(name, false))
  }

  /** Later actions decide the read-only state; earlier ones matter only when the later ones never set it. */
  lemma {:induction false} ReadonlyStateAppend(t: seq<Action>, s: seq<Action>, name: string, status: Action -> int)
    ensures ReadonlyState(t + s, name, status) ==
      if ReadonlyState(s, name, status).Some? then ReadonlyState(s, name, status) else ReadonlyState(t, name, status)
    decreases |s|
  {
    if s == [] {
      assert t + s == t;
    } else {
      assert (t + s)[..|t + s| - 1] == t + s[..|s| - 1];
      ReadonlyStateAppend(t, s[..|s| - 1], name, status);
    }
  }

  /** A sequence none of whose actions sets the read-only property of `name` leaves it unset. */
  lemma {:induction false} ReadonlyStateUntouched(s: seq<Action>, name: string, status: Action -> int)
    requires forall i :: 0 <= i < |s| ==> KeepsReadonly(s[i], name)
    ensures ReadonlyState(s, name, status) == None
    decreases |s|
  {
    if s != [] {
      ReadonlyStateUntouched(s[..|s| - 1], name, status);
    }
  }

  /** The two values give two different commands, so the trace tells which one was set. */
  lemma ReadonlyCommandsDiffer(name: string)
    ensures ReadonlyCommand(name, true) != ReadonlyCommand(name, false)
  {
    assert ReadonlyCommand(name, true)[18] == 'n';
    assert ReadonlyCommand(name, false)[18] == 'f';
  }

  /** Neither action of `verify` touches the read-only property. */
  lemma VerifyKeepsReadonly(name: string)
    ensures forall i :: 0 <= i < |VerifySteps(name)| ==> KeepsReadonly(VerifySteps(name)[i], name)
  {
    var scrub := "zpool scrub " + name;
    assert scrub[2] == 'o';
    assert ReadonlyCommand(name, true)[2] == 's';
    assert ReadonlyCommand(name, false)[2] == 's';
  }

  /** A keystore handle: its canonical name, its file and the two paths derived from the name. */
  class KeystoreFS {
    const name: string
    const path: Option<string>
    const mapperPath: string
    const mntPath: string

    /** `KeystoreFS.__init__(name, path)` */
    constructor (name: string, path: Option<string>)
      ensures this.name == NormalizeName(name) && this.path == path
      ensures mapperPath == "/dev/mapper/" + this.name && mntPath == "/mnt/" + this.name
    {
      var n := NormalizeName(name);
      ProbedPathsAreHandlePaths(map[], name);
      this.name := n;
      this.path := path;
      this.mapperPath := MapperPath(n);
      this.mntPath := MntPath(n);
    }

    /** `set_readonly(readonly)`: one `zfs set readonly=on|off` command for this pool. */
    method SetReadonly(host: Machine, readonly: bool) returns (o: Outcome)
      modifies host`trace
      ensures host.trace == old(host.trace) + [Exec(ReadonlyCommand(name, readonly))]
      ensures host.trace == old(host.trace) + Issued([Exec(ReadonlyCommand(name, readonly))], host.status)
      ensures o.Pass? ==> ReadonlyState(host.trace, name, host.status) == Some(readonly)
      ensures o.Fail? ==> ReadonlyState(host.trace, name, host.status) == ReadonlyState(old(host.trace), name, host.status)
      ensures o == RunOutcome([Exec(ReadonlyCommand(name, readonly))], host.status)
    {
      var value := if readonly then "on" else "off";
      o := host.Perform(Exec("zfs set readonly=" + value + " " + name));
      ReadonlyCommandsDiffer(name);
      assert host.trace[..|host.trace| - 1] == old(host.trace);
      if o.Fail? {
        IssuedAt([Exec(ReadonlyCommand(name, readonly))], 0, host.status);
      } else {
        IssuedAt([Exec(ReadonlyCommand(name, readonly))], 1, host.status);
      }
    }

    /**
     * `verify()`: scrub the pool, then query its health; the result is
     * whether the report says "healthy". Either action raising aborts.
     */
    method Verify(host: Machine) returns (r: Result<bool>)
      modifies host`trace
      ensures host.trace == old(host.trace) + Issued(VerifySteps(name), host.status)
      ensures r.Err? <==> RunOutcome(VerifySteps(name), host.status).Fail?
      ensures r.Err? ==> r.error == RunOutcome(VerifySteps(name), host.status).failure
      ensures r.Ok? ==> (r.value <==> Healthy(host.output(StatusArgv(name))))
    {
      ghost var steps := VerifySteps(name);
      var o := host.Perform(Exec("zpool scrub " + name));
      if o.Fail? {
        IssuedAt(steps, 0, host.status);
        return Err(o.failure);
      }
      var report := host.CheckOutput(["zpool", "status", "-x", name]);
      if report.Err? {
        IssuedAt(steps, 1, host.status);
        return Err(report.error);
      }
      IssuedAt(steps, 2, host.status);
      return Ok(Contains(report.value, "healthy"));
    }

    /** `_create(size)`: sparse file, LUKS format and open, pool creation, compression, then the mount's mode. */
    method CreateVolume(host: Machine, size: int) returns (o: Outcome)
      requires path.Some?
      modifies host`trace
      ensures host.trace == old(host.trace) + Issued(CreateSteps(path.value, name, mntPath, mapperPath, size), host.status)
      ensures o == RunOutcome(CreateSteps(path.value, name, mntPath, mapperPath, size), host.status)
    {
      ghost var steps := CreateSteps(path.value, name, mntPath, mapperPath, size);
      ghost var t0 := host.trace;
      var p := path.value;
      o := host.Perform(SparseFile(p, size));
      if o.Fail? { IssuedAt(steps, 0, host.status); return; }
      assert host.trace == t0 + steps[..1];
      o := host.Perform(Exec("cryptsetup luksFormat " + p));
      if o.Fail? { IssuedAt(steps, 1, host.status); return; }
      assert host.trace == t0 + steps[..2];
      o := host.Perform(Exec("cryptsetup luksOpen " + p + " " + name));
      if o.Fail? { IssuedAt(steps, 2, host.status); return; }
      assert host.trace == t0 + steps[..3];
      o := host.Perform(Exec("zpool create -m " + mntPath + " " + name + " " + mapperPath));
      if o.Fail? { IssuedAt(steps, 3, host.status); return; }
      assert host.trace == t0 + steps[..4];
      o := host.Perform(Exec("zfs set compression=on " + name));
      if o.Fail? { IssuedAt(steps, 4, host.status); return; }
      assert host.trace == t0 + steps[..5];
      o := host.Perform(Chmod(mntPath, 448));
      if o.Fail? { IssuedAt(steps, 5, host.status); return; }
      assert host.trace == t0 + steps;
      IssuedAt(steps, 6, host.status);
    }

    /** `_attach()`: LUKS open, then pool import. */
    method AttachVolume(host: Machine) returns (o: Outcome)
      requires path.Some?
      modifies host`trace
      ensures host.trace == old(host.trace) + Issued(AttachSteps(path.value, name), host.status)
      ensures o == RunOutcome(AttachSteps(path.value, name), host.status)
    {
      ghost var steps := AttachSteps(path.value, name);
      o := host.Perform(Exec("cryptsetup luksOpen " + path.value + " " + name));
      if o.Fail? { IssuedAt(steps, 0, host.status); return; }
      o := host.Perform(Exec("zpool import -d /dev/mapper " + name));
      if o.Fail? { IssuedAt(steps, 1, host.status); return; }
      IssuedAt(steps, 2, host.status);
    }

    /** `_detach()`: pool export, removal of the mount directory, then LUKS close. */
    method DetachVolume(host: Machine) returns (o: Outcome)
      modifies host`trace
      ensures host.trace == old(host.trace) + Issued(DetachSteps(name, mntPath), host.status)
      ensures o == RunOutcome(DetachSteps(name, mntPath), host.status)
    {
      ghost var steps := DetachSteps(name, mntPath);
      o := host.Perform(Exec("zpool export " + name));
      if o.Fail? { IssuedAt(steps, 0, host.status); return; }
      o := host.Perform(Rmdir(mntPath));
      if o.Fail? { IssuedAt(steps, 1, host.status); return; }
      o := host.Perform(Exec("cryptsetup luksClose " + name));
      if o.Fail? { IssuedAt(steps, 2, host.status); return; }
      IssuedAt(steps, 3, host.status);
    }
  }

  /** `KeystoreFS.create(path, size)` */
  method Create(host: Machine, path: string, size: int) returns (fs: KeystoreFS, o: Outcome)
    modifies host`trace
    ensures fs.name == NormalizeName(path) && fs.path == Some(path)
    ensures fs.mapperPath == "/dev/mapper/" + fs.name && fs.mntPath == "/mnt/" + fs.name
    ensures host.trace == old(host.trace) + Issued(CreateSteps(path, fs.name, fs.mntPath, fs.mapperPath, size), host.status)
    ensures o == RunOutcome(CreateSteps(path, fs.name, fs.mntPath, fs.mapperPath, size), host.status)
  {
    fs := new KeystoreFS(path, Some(path));
    o := fs.CreateVolume(host, size);
  }

  /** `KeystoreFS.attach(path, writable)`: `writable` is accepted and ignored by `_attach`. */
  method Attach(host: Machine, path: string, writable: bool) returns (fs: KeystoreFS, o: Outcome)
    modifies host`trace
    ensures fs.name == NormalizeName(path) && fs.path == Some(path)
    ensures fs.mapperPath == "/dev/mapper/" + fs.name && fs.mntPath == "/mnt/" + fs.name
    ensures host.trace == old(host.trace) + Issued(AttachSteps(path, fs.name), host.status)
    ensures o == RunOutcome(AttachSteps(path, fs.name), host.status)
  {
    fs := new KeystoreFS(path, Some(path));
    o := fs.AttachVolume(host);
  }

  /** `KeystoreFS.detach(name)` */
  method Detach(host: Machine, name: string) returns (o: Outcome)
    modifies host`trace
    ensures host.trace == old(host.trace) + Issued(DetachSteps(NormalizeName(name), "/mnt/" + NormalizeName(name)), host.status)
    ensures o == RunOutcome(DetachSteps(NormalizeName(name), "/mnt/" + NormalizeName(name)), host.status)
  {
    var fs := new KeystoreFS(name, None);
    o := fs.DetachVolume(host);
  }

  /** `_create` stops at its first failing step: the steps after it are never issued, the ones before it all passed. */
  lemma CreateStopsAtFailure(path: string, name: string, mnt: string, mapper: string, size: int, status: Action -> int, k: nat)
    requires k < 6
    requires Fails(CreateSteps(path, name, mnt, mapper, size)[k], status)
    ensures |Issued(CreateSteps(path, name, mnt, mapper, size), status)| <= k + 1
    ensures RunOutcome(CreateSteps(path, name, mnt, mapper, size), status).Fail?
  {
    var steps := CreateSteps(path, name, mnt, mapper, size);
    assert FirstFailure(steps, status) <= k;
  }

  /** A size below one byte stops `_create` at its first step, before LUKS is set up. */
  lemma CreateRejectsEmptySize(path: string, name: string, mnt: string, mapper: string, size: int, status: Action -> int)
    requires size < 1
    ensures Issued(CreateSteps(path, name, mnt, mapper, size), status) == [SparseFile(path, size)]
    ensures RunOutcome(CreateSteps(path, name, mnt, mapper, size), status) == Fail(ActionFailed(SparseFile(path, size)))
  {
    IssuedAt(CreateSteps(path, name, mnt, mapper, size), 0, status);
  }

  /** `_detach` closes the LUKS device only after the pool was exported and the mount directory removed. */
  lemma DetachClosesLast(name: string, mnt: string, status: Action -> int)
    ensures var done := Issued(DetachSteps(name, mnt), status);
      Exec("cryptsetup luksClose " + name) in done ==>
        |done| == 3 && !Fails(Exec("zpool export " + name), status) && !Fails(Rmdir(mnt), status)
  {
    var steps := DetachSteps(name, mnt);
    var done := Issued(steps, status);
    var close := Exec("cryptsetup luksClose " + name);
    if close in done {
      var j :| 0 <= j < |done| && done[j] == close;
      assert steps[0] != close by { assert steps[0].command[1] == 'p'; assert close.command[1] == 'r'; }
      assert j == 2;
      assert done[1] == steps[1];
    }
  }

  /** Whatever part of `verify` runs, the read-only property of its pool stays as it was. */
  lemma VerifyLeavesReadonly(t: seq<Action>, name: string, status: Action -> int)
    ensures ReadonlyState(t + Issued(VerifySteps(name), status), name, status) == ReadonlyState(t, name, status)
  {
    var done := Issued(VerifySteps(name), status);
    VerifyKeepsReadonly(name);
    assert forall i :: 0 <= i < |done| ==> done[i] == VerifySteps(name)[i];
    ReadonlyStateUntouched(done, name, status);
    ReadonlyStateAppend(t, done, name, status);
  }

  /** `validate_keystore_not_attached_or_exit(name)`: passes exactly when neither probed path exists. */
  method ValidateNotAttached(host: Machine, name: string) returns (o: Outcome)
    ensures o.Pass? <==>
      ("/dev/mapper/" + NormalizeName(name)) !in host.fs && ("/mnt/" + NormalizeName(name)) !in host.fs
    ensures o.Fail? ==> o == Fail(AlreadyAttached(name))
  {
    ProbedPathsAreHandlePaths(host.fs, name);
    if Attached(host.fs, NormalizeName(name)) {
      return Fail(AlreadyAttached(name));
    }
    return Pass;
  }

  /** `validate_keystore_attached_or_exit(name)`: passes exactly when one of the probed paths exists. */
  method ValidateAttached(host: Machine, name: string) returns (o: Outcome)
    ensures o.Pass? <==>
      ("/dev/mapper/" + NormalizeName(name)) in host.fs || ("/mnt/" + NormalizeName(name)) in host.fs
    ensures o.Fail? ==> o == Fail(NotAttached(name))
  {
    ProbedPathsAreHandlePaths(host.fs, name);
    if !Attached(host.fs, NormalizeName(name)) {
      return Fail(NotAttached(name));
    }
    return Pass;
  }
}
