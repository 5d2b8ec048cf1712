# keystore, modelled in Dafny

`keystore` is a root-only command-line tool that keeps secrets in an
encrypted file. The file is a LUKS container holding a ZFS pool. The tool
has these sub-commands:

- `create` builds a new keystore and its `rootfs` directory.
- `attach` opens a keystore, verifies it, and leaves it read-only unless it
  is asked for writable and found healthy.
- `detach` exports the pool, removes its mount directory and closes LUKS.
- `verify` makes the pool writable, scrubs it, and makes it read-only again.
- `restore` copies the keystore's `rootfs` tree onto a target root. This is
  a dry run unless `--execute` is given.

The model covers these parts:

- The naming rules: the canonical name `keystore-<stem>`, the mapper and
  mount paths, and the attachment probe.
- Each sub-command's guards (`validate_args`).
- Each sub-command's ordered lifecycle actions (`run`).
- The restore engine: a walk of the source tree, the target paths, the log
  lines, and the changes it makes to the target filesystem.

Outside tools (cryptsetup, zpool, zfs, `os.system`, `subprocess`) are not
modelled. Each call becomes an `Action` appended to the machine's trace. A
status oracle (`Host.Machine.status`) decides whether the action fails, and
a failing action ends the command, as a raised exception does.

Modules, one per file:

| file | module | what it holds |
|---|---|---|
| pypath.dfy | `PyPath` | the `os.path` and `str` operations the program relies on: `basename`, `splitext`, `join`, `dirname`, `lstrip("/")`, `replace(x, "")`, `in`, `str()` and `oct()` of a number |
| files.dfy | `Files` | a filesystem as a map from absolute path to a directory or file node (uid, gid, mode, content) |
| naming.dfy | `Naming` | `normalize_name`, `attached`, the derived paths, and the detach hint |
| host.dfy | `Host` | actions, failures, outcomes, the restore log records and their text, the class `Machine` (filesystem, action trace, log), `execute`, and the rule for raising sequences |
| volume.dfy | `Volume` | the class `KeystoreFS` (`set_readonly`, `verify`, `_create`, `_attach`, `_detach`), its class methods, and the two attachment guards |
| commands.dfy | `Commands` | `validate_args` and `run` of `Attach`, `Detach`, `Create` and `Verify` |
| sourcetree.dfy | `SourceTree` | the source tree, `os.walk`, the restore plan, target paths and log lines |
| coverage.dfy | `Coverage` | which directories and files of the source tree the plan handles, and where they go |
| restore.dfy | `Restore` | `mkdir_p`, `chown`, `chmod`, `copy2`, `Restore.validate_args` and `Restore.run` |
| cli.dfy | `Cli` | `main`'s validate-then-run for each sub-command |

Where the code and its documentation disagree, the model follows the code:

- `Attach.run` does not set the pool read-only before verifying it. It opens
  the keystore, verifies it once, and then makes exactly one `set_readonly`
  call.
- For files, `copy2` copies content and permission bits, not owner and
  group. A restored file keeps the owner of the file it overwrote, or
  belongs to root when it is new. Only directories get the source's owner
  and group (`chown`).
- `Verify.run` stops at the first failing step. If the scrub or the status
  query fails after read-only was switched off, the keystore stays writable
  (`Commands.RunVerify`).

## Model

| member | source | states |
|---|---|---|
| PyPath.Basename | keystore/fs.py:47 | `os.path.basename`: the result holds no '/' and is the tail of the path after its last '/' |
| PyPath.BasenameOfChild | keystore/fs.py:47 | the basename of `d/b` is the basename of `b` |
| PyPath.SplitExtOfName | keystore/fs.py:47 | `splitext` on one component cuts at its last dot, unless every dot before that is leading; the root plus the extension is the name |
| PyPath.LStripSlashesRemovesSlashes | keystore/restore.py:31 | `lstrip("/")` removes exactly the leading run of '/' and keeps the rest |
| PyPath.RemoveAllAbsent | keystore/restore.py:31 | `replace(x, "")` changes nothing when `x` does not occur |
| PyPath.NumeralValue | keystore/restore.py:36 | the digits written for `n` in base 10 or 8 are digits of that base, have no leading zero, and denote `n` |
| PyPath.StrValue | keystore/restore.py:36 | the owner and group of a log line, `str(n)`, are the decimal numeral of `n` |
| PyPath.OctValue | keystore/restore.py:36 | the mode of a log line, `oct(n)`, is "0o" followed by the octal numeral of `n` |
| PyPath.StrInjective | keystore/restore.py:46 | two different owners or groups are never logged the same way |
| Naming.StemOfBasename | keystore/fs.py:47 | the stem is a slash-free prefix of the basename, and the rest is the extension `splitext` cuts off |
| Naming.NormalizeNameStripsExtension | keystore/fs.py:45-47 | a canonical name is "keystore-" followed by the basename with its last extension removed; a leading run of dots is not an extension |
| Naming.NormalizeNameIgnoresDirectories | keystore/fs.py:47 | directory components never affect the canonical name |
| Naming.NormalizeNameNotIdempotent | keystore/fs.py:47 | normalizing a canonical name again always changes it |
| Naming.DoubleNormalizeExample | keystore/fs.py:47 | "keystore-foo" normalizes to "keystore-keystore-foo" |
| Naming.ProbedPathsAreHandlePaths | keystore/fs.py:50-76 | `__init__` derives `/dev/mapper/<n>` and `/mnt/<n>`; `attached(n)` holds iff one of these two paths exists |
| Naming.FirstDashOfCanonical | keystore/cmds.py:100 | the first '-' of a canonical name is the one that ends "keystore-" |
| Naming.DetachHintIsStem | keystore/cmds.py:100 | `name.split("-", 1)[1]` of a canonical name is the stem of the keystore path |
| Naming.StemOfDotted | keystore/fs.py:47 | `x.e`, with `x` starting with a non-dot and `e` dot-free, has stem `x` |
| Naming.NormalizeDottedPath | keystore/fs.py:47 | a path ending in `h.e` normalizes to "keystore-h" |
| Naming.DetachHintMissesDottedStem | keystore/cmds.py:100 | for a file `dir/x.y.e` the printed hint "x.y" normalizes to "keystore-x", not to the keystore "keystore-x.y" |
| Naming.CorrectedDetachHintRoundTrips | keystore/cmds.py:100 | the corrected hint (the file's basename) normalizes to the keystore's own name |
| Host.SparseContent | keystore/fs.py:26-29 | the sparse file holds `size` zero bytes; a size below one makes the seek raise |
| Host.Machine.Execute | keystore/fs.py:16-23 | the command is always issued; it raises iff `raises` is set and the status is non-zero, and returns the status otherwise |
| Host.Machine.Perform | keystore/fs.py:19-21 | one raising step is appended to the trace and fails iff the oracle or its arguments make it fail |
| Host.Machine.CheckOutput | keystore/fs.py:88 | `check_output` is issued; it raises on failure and returns the command's output otherwise |
| Host.FirstFailure | keystore/fs.py:20-21 | the index of the first failing step: every earlier step passes |
| Host.Issued | keystore/fs.py:20-21 | a raising sequence issues a prefix of its steps; every step but the last passed, and the last failed if the prefix is shorter than the sequence |
| Host.RunOutcome | keystore/fs.py:20-21 | a sequence passes iff every step passes; a failure names a failing action |
| Host.IssuedMatchesOutcome | keystore/fs.py:20-21 | a passing sequence issues all its steps; a failing one ends with the step it failed at |
| Host.IssuedAt | keystore/fs.py:20-21 | when steps before `j` pass and step `j` fails, exactly steps `0..j` are issued |
| Host.FirstFailureAppend | keystore/fs.py:20-21 | the first failure of `a + b` lies in `a` or, after `|a|`, in `b` |
| Host.IssuedAppend | keystore/fs.py:20-21 | running `a + b` is running `a`, then `b` only if `a` passed |
| Host.Chain | keystore/fs.py:20-21 | two phases, the second run only after the first passed, compose into one raising sequence |
| Volume.ReadonlyStateAppend | keystore/fs.py:92-98 | the read-only state after `t + s` is the one `s` last set, or else the one `t` left |
| Volume.ReadonlyStateUntouched | keystore/fs.py:92-98 | actions that never set `readonly` leave the state unset |
| Volume.ReadonlyCommandsDiffer | keystore/fs.py:93-98 | "on" and "off" give two different commands |
| Volume.VerifyKeepsReadonly | keystore/fs.py:79-88 | neither action of `verify` sets `readonly` |
| Volume.KeystoreFS.constructor | keystore/fs.py:70-76 | the handle's name is the canonical name; the mapper path is `/dev/mapper/<name>` and the mount path `/mnt/<name>` |
| Volume.KeystoreFS.SetReadonly | keystore/fs.py:92-98 | exactly one `zfs set readonly=X name` is issued, with X = "on" iff `readonly`; on success the pool's read-only state is `readonly`, on failure it is unchanged |
| Volume.KeystoreFS.Verify | keystore/fs.py:78-90 | scrub, then `zpool status -x`; fails iff one of them fails; otherwise returns true iff the output contains "healthy" |
| Volume.KeystoreFS.CreateVolume | keystore/fs.py:100-113 | sparse file, luksFormat, luksOpen, zpool create with the mount path, compression on, chmod 0700 of the mount path, in this order, stopping at the first failure |
| Volume.KeystoreFS.AttachVolume | keystore/fs.py:115-117 | luksOpen, then zpool import from /dev/mapper, stopping at the first failure |
| Volume.KeystoreFS.DetachVolume | keystore/fs.py:119-122 | zpool export, rmdir of the mount path, luksClose, stopping at the first failure |
| Volume.Create | keystore/fs.py:53-57 | builds a handle on the path and runs `_create` |
| Volume.Attach | keystore/fs.py:59-63 | builds a handle on the path and runs `_attach`; `writable` has no effect here |
| Volume.Detach | keystore/fs.py:65-68 | builds a handle from the name and runs `_detach` |
| Volume.CreateStopsAtFailure | keystore/fs.py:100-113 | if step k of `_create` fails, no step after k is issued |
| Volume.CreateRejectsEmptySize | keystore/fs.py:26-29 | a size below one stops `_create` at the sparse file, before LUKS is touched |
| Volume.DetachClosesLast | keystore/fs.py:119-122 | luksClose is issued only after export and rmdir both succeeded |
| Volume.VerifyLeavesReadonly | keystore/fs.py:78-90 | whatever part of `verify` runs, the pool's read-only state is unchanged |
| Volume.ValidateNotAttached | keystore/fs.py:32-34 | passes iff neither `/dev/mapper/<n>` nor `/mnt/<n>` exists; fails with "already attached" |
| Volume.ValidateAttached | keystore/fs.py:37-39 | passes iff one of them exists; fails with "not attached" |
| Commands.ValidateAttach | keystore/cmds.py:25-27 | passes iff the path is a regular file and its keystore is not attached; the file check comes first |
| Commands.ValidateDetach | keystore/cmds.py:46-47 | passes iff the keystore is attached (also `Verify.validate_args`, keystore/cmds.py:122-123) |
| Commands.ValidateCreate | keystore/cmds.py:70-82 | passes iff the path does not exist, its keystore is not attached, and its parent is a directory owned by uid 0 and gid 0; each failure is reported by the first guard that fails, in that order |
| Commands.RunAttach | keystore/cmds.py:29-36 | open, verify once, then one `set_readonly`; on success the pool is writable iff `--writable` was given and verify found it healthy |
| Commands.RunDetach | keystore/cmds.py:49-51 | runs `_detach` for the canonical name |
| Commands.RunCreate | keystore/cmds.py:84-100 | `_create`, then mkdir of `<mnt>/rootfs`; the returned hint normalizes to the keystore's name |
| Commands.RunVerify | keystore/cmds.py:125-129 | read-only off, verify, read-only on; on success the pool ends read-only; a failure after the first step leaves it writable |
| Commands.RootfsAfterCreate | keystore/cmds.py:85-86 | `rootfs` is created only if every step of `_create` passed |
| SourceTree.DirChildren | keystore/restore.py:30 | `os.walk`'s `dirnames`: the directory children, in order |
| SourceTree.FileChildren | keystore/restore.py:30 | `os.walk`'s `filenames`: the file children, in order |
| SourceTree.ChildrenSplit | keystore/restore.py:30 | every child is either in `dirnames` or in `filenames` |
| SourceTree.StripPrefix | keystore/restore.py:31 | the corrected form of the `replace` on this line (see Findings): the source path removed once, as a prefix; a path that starts with it is the source path followed by the result |
| SourceTree.Lines | keystore/restore.py:36-46 | as many log lines as entries |
| SourceTree.LineOfEntry | keystore/restore.py:36-46 | line `i` of the log is the log line of entry `i` |
| SourceTree.LinesPrefix | keystore/restore.py:36-46 | the lines of the first `k` entries are the first `k` lines |
| SourceTree.LinesAppend | keystore/restore.py:36-46 | the lines of a concatenation are the concatenated lines |
| SourceTree.EntryAt | keystore/restore.py:32-48 | entry `i` of a walked directory's children is the entry of child `i`: its source, relative path, target, stat and content |
| SourceTree.EntriesAt | keystore/restore.py:32-48 | the same, for every position at once |
| SourceTree.EntryKind | keystore/restore.py:32-48 | an entry is a directory entry iff its child is a directory |
| SourceTree.PlanOfAppend | keystore/restore.py:30-48 | the entries of consecutive walk steps are the concatenated entries |
| SourceTree.WalkEntryCount | keystore/restore.py:30-46 | a walk yields as many entries as there are directories and files below its top (which entries: Coverage.WalkSources) |
| Coverage.NodesAreBelow | keystore/restore.py:30 | the walk visits exactly the directories and files below the source: a path of names is in walk order iff it leads to a node of the tree |
| Coverage.NodesGood | keystore/restore.py:30 | in a tree whose directories list each name once, no node is visited twice |
| Coverage.WalkSources | keystore/restore.py:30-44 | entry `i` of a walk from `top` has as source the path of the `i`-th node joined onto `top`, as lines 33 and 43 join it |
| Coverage.PlanCoversTree | keystore/restore.py:30-46 | every directory and file below the source is the source of an entry; there are as many entries and log lines as nodes |
| Coverage.PlanSources | keystore/restore.py:30-44 | every entry comes from a directory or file below the source, the `i`-th in walk order |
| Coverage.PlanSourcesDistinct | keystore/restore.py:30-44 | no directory or file is handled twice |
| Coverage.JoinInjective | keystore/restore.py:34 | `os.path.join` onto one root sends different relative paths to different places |
| Coverage.PlanTargetsDistinct | keystore/restore.py:31-44 | no two entries of the plan are restored to the same target |
| SourceTree.StepEntriesOrder | keystore/restore.py:32-48 | within a walked directory, the entries for `dirnames` come before those for `filenames` |
| SourceTree.WalkedDirsBeforeFiles | keystore/restore.py:32-48 | within a walked directory, no directory entry follows a file entry |
| SourceTree.WalkClassified | keystore/restore.py:30 | every walk step lists only directories in `dirnames` and only files in `filenames` |
| SourceTree.PlanRerooted | keystore/restore.py:31-44 | with the prefix removed once, every entry whose source is `src/rel` has target `root` joined with `rel` |
| SourceTree.TargetDirAsWrittenCollapses | keystore/restore.py:31 | removing every occurrence of the source path sends the walked directory `src/<src without its leading '/'>` to `root` itself |
| SourceTree.AsWrittenAgrees | keystore/restore.py:31 | when the source path does not occur again below itself, removing every occurrence (lines 31 and 46) gives the same relative path and target directory as removing it once |
| Restore.ChmodEffect | keystore/restore.py:40 | `chmod` sets the permission bits and keeps the file type, owner, group and kind of node; no other path changes |
| Restore.ChownEffect | keystore/restore.py:39 | `chown` replaces owner and group and nothing else; no other path changes |
| Restore.MkdirPEffect | keystore/utils.py:30-37 | `mkdir_p` raises iff a file is in the way; an existing directory is left as it is; a new one belongs to root with mode 0o700 (the umask of keystore/utils.py:56); no other path changes |
| Restore.Copy2Effect | keystore/restore.py:48 | `copy2` writes into `dst`, or into `dst/<name>` when `dst` is a directory, and raises iff a directory is there; the destination gets the content and the permission bits, keeps its owner and group if it existed and belongs to root otherwise; no other path changes |
| Restore.ApplyDirEntry | keystore/restore.py:38-40 | a directory entry leaves its target a directory with the source's owner, group and permission bits, whether or not it existed; it fails only over a file |
| Restore.ApplyFileEntry | keystore/restore.py:47-48 | a file entry copies its content and permission bits to where `copy2` writes and changes no other path; it fails only over a directory there |
| Restore.Replay | keystore/restore.py:30-48 | entries are applied in order up to the first that raises: a passing run reaches every entry, a failing one reaches at least one |
| Restore.ReplayFailsAt | keystore/restore.py:30-48 | in a failed run every entry before the failing one passed, the filesystem is the one they left, and the failing entry raised the reported error |
| Restore.ReplayStops | keystore/restore.py:30-48 | once a prefix of the plan has failed, the entries after it are never applied |
| Restore.ApplyPlanFailsAt | keystore/restore.py:37-48 | a failed restore stops at a directory entry whose target is a file, or at a file entry whose `copy2` destination is a directory, after every earlier entry passed |
| Restore.ApplyPlanNext | keystore/restore.py:37-48 | after a prefix that passed, one more entry either applies or ends the run with its own error |
| Restore.EntryKeepsDirectories | keystore/restore.py:37-48 | an entry that succeeds deletes nothing and changes no directory other than its own target |
| Restore.PlanKeepsDirectories | keystore/restore.py:37-48 | an executed restore deletes nothing and turns no directory into a file, even when it fails |
| Restore.DirectoriesRestored | keystore/restore.py:38-40 | after a successful execute, each directory target exists with the source's owner, group and permission bits, unless a later entry re-targets it |
| Restore.RunRestoresDirectories | keystore/restore.py:37-40 | after a successful executed restore, every directory below the source exists at its target with the source's owner, group and permission bits |
| Restore.ReportIsDryRunReport | keystore/restore.py:36-47 | the executed run logs the dry run's lines: all of them on success, the prefix up to the failing entry otherwise |
| Restore.PlanOfSnoc | keystore/restore.py:30 | the entries of the first `i + 1` walked directories are those of the first `i`, then those of directory `i` |
| Restore.PlanSplit | keystore/restore.py:30 | what was handled and what was not of the first `i + 1` walked directories, followed by the later ones, is the whole plan |
| Restore.LinesSnoc | keystore/restore.py:36-46 | logging one more entry appends exactly its line |
| Restore.FailureIsFinal | keystore/restore.py:37-48 | when the handled part of the plan fails, the whole plan ends in the same filesystem and outcome, and the log holds the lines up to the failing entry |
| Restore.RestoreDirectory | keystore/restore.py:33-40 | one subdirectory: its line is logged and, with `execute`, the filesystem and outcome move on by exactly its entry; a dry run changes no file |
| Restore.RestoreFile | keystore/restore.py:43-48 | one file: its line is logged and, with `execute`, the filesystem and outcome move on by exactly its entry; a dry run changes no file |
| Restore.RestoreDirectories | keystore/restore.py:32-40 | the loop over `dirnames`: on success every entry is logged and applied; on failure the part handled ends at the entry that raised and the rest is untouched |
| Restore.RestoreFiles | keystore/restore.py:42-48 | the loop over `filenames`, with the same contract |
| Restore.RestoreStep | keystore/restore.py:30-48 | one walked directory: its subdirectories and then its files, continuing the plan of the directories walked before it |
| Restore.RestoreSteps | keystore/restore.py:30-48 | the walk loop: the handled part and the rest make up the plan; the log holds the handled part's lines and the filesystem is the result of applying it |
| Restore.Run | keystore/restore.py:28-48 | a dry run logs the whole plan and changes nothing; an executed run ends in the state and outcome of applying the plan, logging each entry before applying it |
| Restore.SourcePathShape | keystore/restore.py:24-25 | the source is `/mnt/keystore-<stem>/rootfs` |
| Restore.RestoreTargetAsWrittenCollapses | keystore/restore.py:31 | for the keystore's own source path, the as-written target of `<src>/mnt/<name>/rootfs` is `root`, not `root/mnt/<name>/rootfs` |
| Restore.ValidateRestore | keystore/restore.py:21-26 | the root must be a directory, then the keystore must be attached, then `<mnt>/rootfs` must be a directory; on success that path is returned, and every failure is a validation failure |
| Cli.MainAttach | keystore/cmds.py:164-165 | a rejected `attach` issues nothing; an admitted one issues exactly `Attach.run`'s actions |
| Cli.MainDetach | keystore/cmds.py:164-165 | a rejected `detach` issues nothing and reports "not attached"; an admitted one issues `_detach` |
| Cli.MainCreate | keystore/cmds.py:164-165 | a rejected `create` issues nothing; an admitted one issues `_create`, then the `rootfs` mkdir |
| Cli.MainVerify | keystore/cmds.py:164-165 | a rejected `verify` issues nothing; an admitted one issues off, verify, on |
| Cli.MainRestore | keystore/cmds.py:164-165 | a rejected `restore` writes nothing; an admitted one runs the restore of the keystore's `rootfs` |
| Cli.MainLifecycle | keystore/cmds.py:164-165 | a rejected lifecycle command issues no action |
| Cli.Invoke | keystore/cmds.py:164-165 | a command rejected by its guards changes no file, log or trace; in the model a lifecycle command only extends the action trace, and `restore` issues no action |

## Left out

- The polling loop of `verify` (keystore/fs.py:80-86) and the `print` of its output: the loop waits on an external scrub with no timeout. Only the final status query and its "healthy" rule are modelled.
- What the outside tools actually do. An action's effect on the filesystem (the pool's mount directory, `/dev/mapper` entries, the `rootfs` directory) is not modelled; lifecycle actions only extend the trace.
- Logging of lifecycle commands ("EXECUTING: ..." and the informational messages of `run`). `Host.Machine.log` holds only the lines `restore` writes, as records; `Host.Text` gives the characters of each.
- `Open` (xdg-open), argument parsing, `sanity_check`, `fatal`'s exit and logging set-up are not modelled. `fatal` becomes a validation `Failure` that stops the command.
- The race between the guards and the later actions: concurrency is out of scope.
- `os.path.abspath`'s normalisation of "." and ".." is not modelled. `Host.Machine.Abs` only joins the path onto the working directory.
- Symbolic links, timestamps kept by `copy2`, and `os.walk`'s error handling are not modelled.
- Restore.Run: the source tree is a snapshot value passed in, not read from the machine's filesystem, so a target root that overlaps the source is not modelled. A relative `--root` is joined as given, not resolved against the working directory.
- Restore.MkdirP: missing parents are not created, since the walk always creates a parent before its children. A missing parent is not treated as an error.
- Restore.Copy2: a missing parent directory of the destination is not an error.
- Restore.DirectoriesRestored: no final-state property is proved for files; only the per-entry contract of `Copy2` states what a file receives. The lemma assumes that no later directory entry has the same target. Restore.RunRestoresDirectories proves this for the plan of a tree whose directories list each name once.
- Restore.Run: targets and logged relative paths remove the source path once, as a prefix (the corrected form, see Findings). Lines 31 and 46 of keystore/restore.py remove every occurrence. The two agree whenever the source path does not occur again below itself (SourceTree.AsWrittenAgrees).
- Restore.RestoreStep: uses the same corrected target directory as Restore.Run, for the same reason.
- Restore.RestoreFile: logs the corrected relative path, as Restore.Run does.
- Cli.Invoke: the lifecycle commands' real effects are not modelled: the keystore file, the `/dev/mapper` entry, the mount directory, `chmod`, `rmdir`, `mkdir` and their logger output. Only their action trace is.
- Volume.KeystoreFS.CreateVolume: requires the handle to carry a path. The source only reaches `_create` through `KeystoreFS.create`, which always passes one.
- Volume.KeystoreFS.AttachVolume: requires the handle to carry a path, for the same reason, through `KeystoreFS.attach`.
- Commands.RunCreate: the closing messages are not logged. Only the detach hint is kept, and it is returned in its corrected form (see Findings).
- Naming.DetachHint: requires a '-' in the name. Every canonical name has one (Naming.FirstDashOfCanonical).

## Findings

| source | as written | input that shows it | evidently intended | confidence | as-written member | corrected member |
|---|---|---|---|---|---|---|
| keystore/cmds.py:100 | the hint is `fs.name.split("-", 1)[1]`, the stem of the keystore file | `create /root/my.keys.img` prints `keystore detach my.keys`, but `detach my.keys` normalizes to "keystore-my", not "keystore-my.keys" | a name that `detach` maps back to this keystore, such as the file's basename | not executed | Naming.DetachHintMissesDottedStem | Naming.CorrectedDetachHintRoundTrips |
| keystore/restore.py:31 | the target directory removes every occurrence of the source path from `dirpath`, with `str.replace`; line 46 computes the logged relative path the same way | in source `/mnt/keystore-k/rootfs`, the directory `mnt/keystore-k/rootfs` below it goes to `root` instead of `root/mnt/keystore-k/rootfs` | remove the source path once, as a prefix, as Restore.Run does; the two agree when the source path does not occur again below itself (SourceTree.AsWrittenAgrees) | not executed | Restore.RestoreTargetAsWrittenCollapses | SourceTree.PlanRerooted |
