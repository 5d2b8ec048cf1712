/**
 * The program's entry point (keystore/cmds.py, `main`): the chosen
 * sub-command's `validate_args`, then its `run`. Argument parsing, the
 * start-up sanity check and logging set-up are not modelled.
 */
module Cli {
  import opened PyPath
  import opened Files
  import opened Host
  import opened Naming
  import opened Volume
  import opened Commands
  import opened SourceTree
  import opened Restore

  /** The sub-commands with state of their own, and their arguments. */
  datatype Command =
    | AttachCommand(path: string, writable: bool)
    | DetachCommand(name: string)
    | CreateCommand(path: string, size: int)
    | RestoreCommand(root: string, name: string, execute: bool)
    | VerifyCommand(name: string)

  /** Whether the command's `validate_args` lets it through on filesystem `fs` with working directory `cwd`. */
  predicate Admitted(fs: FileSystem, cwd: string, cmd: Command)
  {
    match cmd
    case AttachCommand(path, _) => IsFile(fs, Join(cwd, path)) && !Attached(fs, NormalizeName(path))
    case DetachCommand(name) => Attached(fs, NormalizeName(name))
    case CreateCommand(path, _) =>
      var parent := Dirname(Join(cwd, path));
      Join(cwd, path) !in fs && !Attached(fs, NormalizeName(path)) &&
      IsDir(fs, parent) && fs[parent].meta.uid == 0 && fs[parent].meta.gid == 0
    case RestoreCommand(root, name, _) =>
      IsDir(fs, Join(cwd, root)) && Attached(fs, NormalizeName(name)) && IsDir(fs, SourcePath(name))
    case VerifyCommand(name) => Attached(fs, NormalizeName(name))
  }

  /** `main` for `attach`: a rejected path issues nothing; an admitted one runs `Attach.run`. */
  method MainAttach(host: Machine, path: string, writable: bool) returns (o: Outcome)
    modifies host`trace
    ensures !Admitted(host.fs, host.cwd, AttachCommand(path, writable)) <==> o.Fail? && o.failure.IsValidation()
    ensures !Admitted(host.fs, host.cwd, AttachCommand(path, writable)) ==> host.trace == old(host.trace)
    ensures Admitted(host.fs, host.cwd, AttachCommand(path, writable)) ==>
      var n := NormalizeName(path);
      var steps := AttachRunSteps(path, n, !(writable && Healthy(host.output(StatusArgv(n)))));
      host.trace == old(host.trace) + Issued(steps, host.status) && o == RunOutcome(steps, host.status)
  {
    o := ValidateAttach(host, path);
    if o.Pass? {
      o := RunAttach(host, path, writable);
    }
  }

  /** `main` for `detach`: an unattached name issues nothing; an attached one runs `Detach.run`. */
  method MainDetach(host: Machine, name: string) returns (o: Outcome)
    modifies host`trace
    ensures !Admitted(host.fs, host.cwd, DetachCommand(name)) <==> o.Fail? && o.failure.IsValidation()
    ensures !Admitted(host.fs, host.cwd, DetachCommand(name)) ==> o == Fail(NotAttached(name))
    ensures !Admitted(host.fs, host.cwd, DetachCommand(name)) ==> host.trace == old(host.trace)
    ensures Admitted(host.fs, host.cwd, DetachCommand(name)) ==>
      var n := NormalizeName(name);
      host.trace == old(host.trace) + Issued(DetachSteps(n, "/mnt/" + n), host.status) &&
      o == RunOutcome(DetachSteps(n, "/mnt/" + n), host.status)
  {
    o := ValidateDetach(host, name);
    if o.Pass? {
      o := RunDetach(host, name);
    }
  }

  /** `main` for `create`: a rejected path issues nothing; an admitted one runs `Create.run`. */
  method MainCreate(host: Machine, path: string, size: int) returns (o: Outcome)
    modifies host`trace
    ensures !Admitted(host.fs, host.cwd, CreateCommand(path, size)) <==> o.Fail? && o.failure.IsValidation()
    ensures !Admitted(host.fs, host.cwd, CreateCommand(path, size)) ==> host.trace == old(host.trace)
    ensures Admitted(host.fs, host.cwd, CreateCommand(path, size)) ==>
      host.trace == old(host.trace) + Issued(CreateRunSteps(path, size), host.status) &&
      o == RunOutcome(CreateRunSteps(path, size), host.status)
  {
    o := ValidateCreate(host, path);
    if o.Pass? {
      var hint;
      o, hint := RunCreate(host, path, size);
    }
  }

  /** `main` for `verify`: an unattached name issues nothing; an attached one runs `Verify.run`. */
  method MainVerify(host: Machine, name: string) returns (o: Outcome)
    modifies host`trace
    ensures !Admitted(host.fs, host.cwd, VerifyCommand(name)) <==> o.Fail? && o.failure.IsValidation()
    ensures !Admitted(host.fs, host.cwd, VerifyCommand(name)) ==> o == Fail(NotAttached(name))
    ensures !Admitted(host.fs, host.cwd, VerifyCommand(name)) ==> host.trace == old(host.trace)
    ensures Admitted(host.fs, host.cwd, VerifyCommand(name)) ==>
      var n := NormalizeName(name);
      host.trace == old(host.trace) + Issued(VerifyRunSteps(n), host.status) &&
      o == RunOutcome(VerifyRunSteps(n), host.status)
  {
    o := ValidateDetach(host, name);
    if o.Pass? {
      o := RunVerify(host, name);
    }
  }

  /**
   * `main` for `restore`: a rejected command writes nothing; an admitted
   * one restores the tree found at the keystore's `rootfs`.
   */
  method MainRestore(host: Machine, root: string, name: string, execute: bool, tree: Tree) returns (o: Outcome)
    modifies host`fs, host`log
    ensures !Admitted(old(host.fs), host.cwd, RestoreCommand(root, name, execute)) <==> o.Fail? && o.failure.IsValidation()
    ensures !Admitted(old(host.fs), host.cwd, RestoreCommand(root, name, execute)) ==>
      host.fs == old(host.fs) && host.log == old(host.log)
    ensures Admitted(old(host.fs), host.cwd, RestoreCommand(root, name, execute)) ==>
      var plan := Plan(root, SourcePath(name), tree);
      var r := ApplyPlan(old(host.fs), plan);
      (!execute ==> o == Pass && host.fs == old(host.fs) && host.log == old(host.log) + Lines(plan)) &&
      (execute ==> host.fs == r.fs && o == r.outcome && host.log == old(host.log) + Lines(plan[..r.count]))
  {
    var src := ValidateRestore(host, root, name);
    if src.Err? {
      return Fail(src.error);
    }
    SourcePathShape(name);
    ghost var fs0 := host.fs;
    o := Run(host, root, src.value, execute, tree);
    if o.Fail? {
      ApplyPlanFailsAt(fs0, Plan(root, SourcePath(name), tree));
    }
  }

  /** `main` for the sub-commands that manage a keystore's life: they issue actions and write no file. */
  method MainLifecycle(host: Machine, cmd: Command) returns (o: Outcome)
    requires !cmd.RestoreCommand?
    modifies host`trace
    ensures !Admitted(host.fs, host.cwd, cmd) <==> o.Fail? && o.failure.IsValidation()
    ensures !Admitted(host.fs, host.cwd, cmd) ==> host.trace == old(host.trace)
  {
    match cmd
    case AttachCommand(path, writable) =>
      o := MainAttach(host, path, writable);
    case DetachCommand(name) =>
      o := MainDetach(host, name);
    case CreateCommand(path, size) =>
      o := MainCreate(host, path, size);
    case VerifyCommand(name) =>
      o := MainVerify(host, name);
  }

  /**
   * `main`'s last two lines, over every sub-command: a command its guards
   * reject issues no action, writes no log line and changes no file. Here
   * the lifecycle commands only extend the action trace, since the effects
   * of the outside tools are not modelled; `restore` issues no action.
   */
  method Invoke(host: Machine, cmd: Command, tree: Tree) returns (o: Outcome)
    modifies host`trace, host`fs, host`log
    ensures !Admitted(old(host.fs), host.cwd, cmd) <==> o.Fail? && o.failure.IsValidation()
    ensures !Admitted(old(host.fs), host.cwd, cmd) ==>
      host.trace == old(host.trace) && host.fs == old(host.fs) && host.log == old(host.log)
    ensures !cmd.RestoreCommand? ==> host.fs == old(host.fs) && host.log == old(host.log)
    ensures cmd.RestoreCommand? ==> host.trace == old(host.trace)
  {
    if cmd.RestoreCommand? {
      o := MainRestore(host, cmd.root, cmd.name, cmd.execute, tree);
    } else {
      o := MainLifecycle(host, cmd);
    }
  }
}
