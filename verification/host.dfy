/**
 * The machine the keystore tool runs on, as the model sees it: the
 * filesystem it inspects, the ordered trace of outside actions it has
 * issued (shell commands through `execute`, the few `os` calls of the
 * lifecycle, `subprocess.check_output` queries) and the log it writes.
 * Whether an outside action succeeds is decided by an oracle, since its
 * real effect belongs to cryptsetup, zpool, zfs and the kernel.
 */
module Host {
  import opened PyPath
  import opened Files

  /** One outside action, in the terms the program issues it. */
  datatype Action =
    | Exec(command: string)               // `os.system(command)` through `execute`
    | SparseFile(path: string, size: int)  // `create_sparse_file(path, size)`
    | Chmod(path: string, mode: nat)       // `os.chmod`
    | Rmdir(path: string)                  // `os.rmdir`
    | Mkdir(path: string)                  // `os.mkdir`
    | Query(argv: seq<string>)             // `subprocess.check_output(argv)`

  /** Why a command stopped. */
  datatype Failure =
    | NotAFile(path: string)               // `validate_file_or_exit`
    | NotADirectory(path: string)          // `validate_dir_or_exit` and the parent check of `create`
    | AlreadyExists(path: string)
    | NotOwnedByRoot(path: string)
    | AlreadyAttached(name: string)        // `validate_keystore_not_attached_or_exit`
    | NotAttached(name: string)            // `validate_keystore_attached_or_exit`
    | ActionFailed(action: Action)         // an outside action raised
    | FileInTheWay(path: string)           // `mkdir_p` over an existing file
    | DirectoryInTheWay(path: string)      // `copy2` onto a directory
  {
    /** The failures `fatal` reports before any outside action is issued. */
    predicate IsValidation()
    {
      !ActionFailed? && !FileInTheWay? && !DirectoryInTheWay?
    }
  }

  datatype Outcome = Pass | Fail(failure: Failure)

  datatype Result<T> = Ok(value: T) | Err(error: Failure)

  datatype Option<T> = None | Some(value: T)

  /**
   * `create_sparse_file(path, size)` writes one zero byte at offset
   * `size - 1`, so the file holds `size` zero bytes; a size below one makes
   * the seek raise.
   */
  function SparseContent(size: int): (r: Option<Bytes>)
    ensures r.None? <==> size < 1
    ensures r.Some? ==> |r.value| == size && forall i :: 0 <= i < |r.value| ==> r.value[i] == 0
  {
    if size < 1 then None else Some(seq(size, _ => 0 as bv8))
  }

  /** An action fails when the oracle reports a non-zero status, or when its arguments make Python raise. */
  predicate Fails(a: Action, status: Action -> int)
  {
    status(a) != 0 || (a.SparseFile? && SparseContent(a.size).None?)
  }

  /** The index of the first failing step, or `|steps|` when every step succeeds. */
  function FirstFailure(steps: seq<Action>, status: Action -> int): (k: nat)
    ensures k <= |steps|
    ensures forall i :: 0 <= i < k ==> !Fails(steps[i], status)
    ensures k < |steps| ==> Fails(steps[k], status)
  {
    if |steps| == 0 then 0
    else if Fails(steps[0], status) then 0
    else 1 + FirstFailure(steps[1..], status)
  }

  /**
   * The actions a straight-line sequence of raising steps actually issues:
   * every step up to and including the first one that fails.
   */
  function Issued(steps: seq<Action>, status: Action -> int): (done: seq<Action>)
    ensures done <= steps
    ensures forall i :: 0 <= i < |done| - 1 ==> !Fails(done[i], status)
    ensures |done| < |steps| ==> done != [] && Fails(done[|done| - 1], status)
  {
    var k := FirstFailure(steps, status);
    if k < |steps| then steps[..k + 1] else steps
  }

  /** How such a sequence ends: with the first failing step, or normally. */
  function RunOutcome(steps: seq<Action>, status: Action -> int): (o: Outcome)
    ensures o.Pass? <==> forall i :: 0 <= i < |steps| ==> !Fails(steps[i], status)
    ensures o.Fail? ==> o.failure.ActionFailed? && Fails(o.failure.action, status)
  {
    var k := FirstFailure(steps, status);
    if k < |steps| then Fail(ActionFailed(steps[k])) else Pass
  }

  /** A sequence that passes issues all of itself; one that fails issues a prefix ending at the step that failed. */
  lemma IssuedMatchesOutcome(steps: seq<Action>, status: Action -> int)
    ensures RunOutcome(steps, status).Pass? ==> Issued(steps, status) == steps
    ensures RunOutcome(steps, status).Fail? ==>
      var done := Issued(steps, status);
      done != [] && RunOutcome(steps, status) == Fail(ActionFailed(done[|done| - 1]))
  {
    var k := FirstFailure(steps, status);
    if k < |steps| {
      assert |Issued(steps, status)| == k + 1;
    }
  }

  /**
   * When steps `0..j-1` pass, step `j` decides: if it fails the sequence
   * ends there; when there is no step `j` the whole sequence passed.
   */
  lemma IssuedAt(steps: seq<Action>, j: nat, status: Action -> int)
    requires j <= |steps|
    requires forall i :: 0 <= i < j ==> !Fails(steps[i], status)
    ensures j < |steps| && Fails(steps[j], status) ==>
      Issued(steps, status) == steps[..j + 1] && RunOutcome(steps, status) == Fail(ActionFailed(steps[j]))
    ensures j == |steps| ==> Issued(steps, status) == steps && RunOutcome(steps, status) == Pass
  {
    var k := FirstFailure(steps, status);
    if j < |steps| && Fails(steps[j], status) {
      assert k == j;
    }
  }

  /** The first failure of `a + b` is the first failure of `a`, or else `|a|` plus the first failure of `b`. */
  lemma {:induction false} FirstFailureAppend(a: seq<Action>, b: seq<Action>, status: Action -> int)
    ensures FirstFailure(a + b, status) ==
      if FirstFailure(a, status) < |a| then FirstFailure(a, status) else |a| + FirstFailure(b, status)
    decreases |a|
  {
    if |a| == 0 {
      assert a + b == b;
    } else {
      assert (a + b)[0] == a[0];
      assert (a + b)[1..] == a[1..] + b;
      if !Fails(a[0], status) {
        FirstFailureAppend(a[1..], b, status);
      }
    }
  }

  /** Running `a` and then `b` as one raising sequence. */
  lemma IssuedAppend(a: seq<Action>, b: seq<Action>, status: Action -> int)
    ensures Issued(a + b, status) ==
      if RunOutcome(a, status).Pass? then a + Issued(b, status) else Issued(a, status)
    ensures RunOutcome(a + b, status) ==
      if RunOutcome(a, status).Pass? then RunOutcome(b, status) else RunOutcome(a, status)
  {
    FirstFailureAppend(a, b, status);
    var ka := FirstFailure(a, status);
    var kb := FirstFailure(b, status);
    if ka < |a| {
      assert (a + b)[..ka + 1] == a[..ka + 1];
      assert (a + b)[ka] == a[ka];
    } else if kb < |b| {
      assert (a + b)[..|a| + kb + 1] == a + b[..kb + 1];
      assert (a + b)[|a| + kb] == b[kb];
    }
  }

  /**
   * Running the raising sequence `a` and, only when it passed, the raising
   * sequence `b` is running `a + b`.
   */
  lemma Chain(t0: seq<Action>, a: seq<Action>, b: seq<Action>, t1: seq<Action>, t2: seq<Action>,
              oa: Outcome, ob: Outcome, status: Action -> int)
    requires t1 == t0 + Issued(a, status) && oa == RunOutcome(a, status)
    requires oa.Pass? ==> t2 == t1 + Issued(b, status) && ob == RunOutcome(b, status)
    requires oa.Fail? ==> t2 == t1 && ob == oa
    ensures t2 == t0 + Issued(a + b, status) && ob == RunOutcome(a + b, status)
  {
    IssuedAppend(a, b, status);
    IssuedMatchesOutcome(a, status);
  }

  /**
   * A line `restore` logs, kept as the values it formats: a directory
   * (keystore/restore.py:36) or a file (keystore/restore.py:46) with its
   * target path and the source's stat; `Text` gives its characters.
   */
  datatype LogRecord =
    | NewDirectory(target: string, stat: Meta)
    | Copied(rel: string, target: string, stat: Meta)

  /** `"(owner={}, group={}, mode={})"` filled with `str`, `str` and `oct`. */
  function StatText(m: Meta): string
  {
    "(owner=" + Str(m.uid) + ", group=" + Str(m.gid) + ", mode=" + Oct(m.mode) + ")"
  }

  /** The characters of a logged line. */
  function Text(r: LogRecord): string
  {
    match r
    case NewDirectory(target, stat) => "new directory -> " + target + " " + StatText(stat)
    case Copied(rel, target, stat) => rel + " -> " + target + " " + StatText(stat)
  }

  /** The machine: its filesystem, the actions issued so far and the log written so far. */
  class Machine {
    var fs: FileSystem
    var trace: seq<Action>
    var log: seq<LogRecord>
    /** The exit status each outside action would report. */
    const status: Action -> int
    /** What each `check_output` query would print. */
    const output: seq<string> -> string
    /** The working directory relative paths are resolved against. */
    const cwd: string

    constructor (fs0: FileSystem, status: Action -> int, output: seq<string> -> string, cwd: string)
      ensures fs == fs0 && trace == [] && log == []
      ensures this.status == status && this.output == output && this.cwd == cwd
    {
      this.fs := fs0;
      this.trace := [];
      this.log := [];
      this.status := status;
      this.output := output;
      this.cwd := cwd;
    }

    /** `os.path.abspath` without the normalisation of "." and ".." components. */
    function Abs(path: string): string
      reads this
    {
      Join(cwd, path)
    }

    /**
     * `execute(command, raises)`: the command is always issued; it raises
     * exactly when `raises` is set and its status is non-zero, and returns
     * that status otherwise.
     */
    method Execute(command: string, raises: bool) returns (r: Result<int>)
      modifies this`trace
      ensures trace == old(trace) + [Exec(command)]
      ensures r.Err? <==> raises && status(Exec(command)) != 0
      ensures r.Err? ==> r.error == ActionFailed(Exec(command))
      ensures r.Ok? ==> r.value == status(Exec(command))
    {
      trace := trace + [Exec(command)];
      var s := status(Exec(command));
      if raises && s != 0 {
        return Err(ActionFailed(Exec(command)));
      } else {
        return Ok(s);
      }
    }

    /** One raising step: a shell command through `execute`, or an `os` call. */
    method Perform(a: Action) returns (o: Outcome)
      requires !a.Query?
      modifies this`trace
      ensures trace == old(trace) + [a]
      ensures o.Fail? <==> Fails(a, status)
      ensures o.Fail? ==> o == Fail(ActionFailed(a))
    {
      if a.Exec? {
        var r := Execute(a.command, true);
        o := if r.Err? then Fail(r.error) else Pass;
      } else {
        trace := trace + [a];
        o := if Fails(a, status) then Fail(ActionFailed(a)) else Pass;
      }
    }

    /** `subprocess.check_output(argv)`: raises on a non-zero status, else returns what the command printed. */
    method CheckOutput(argv: seq<string>) returns (r: Result<string>)
      modifies this`trace
      ensures trace == old(trace) + [Query(argv)]
      ensures r.Err? <==> Fails(Query(argv), status)
      ensures r.Err? ==> r.error == ActionFailed(Query(argv))
      ensures r.Ok? ==> r.value == output(argv)
    {
      trace := trace + [Query(argv)];
      if status(Query(argv)) != 0 {
        return Err(ActionFailed(Query(argv)));
      }
      return Ok(output(argv));
    }
  }
}
