/**
 * What `Restore.run` (keystore/restore.py) walks and what it plans to do:
 * the keystore's `rootfs` tree, the top-down `os.walk` over it, one entry
 * per directory and file found, the target path each entry is restored
 * to, and the log line each entry produces.
 */
module SourceTree {
  import opened PyPath
  import opened Files
  import opened Host

  /** A snapshot of the tree below the source directory, children in listing order. */
  datatype Tree =
    | SrcDir(meta: Meta, children: seq<Child>)
    | SrcFile(meta: Meta, content: Bytes)

  datatype Child = Child(name: string, node: Tree)

  /** A directory entry name: not empty and without '/'. */
  predicate ValidName(name: string)
  {
    name != "" && NoSlash(name)
  }

  /** Every name in the tree is a valid entry name, and no directory lists a name twice. */
  predicate WellFormed(t: Tree)
    decreases t, 1
  {
    t.SrcDir? ==> AllWellFormed(t.children)
  }

  predicate AllWellFormed(cs: seq<Child>)
    decreases cs, 0
  {
    && (forall i :: 0 <= i < |cs| ==> ValidName(cs[i].name) && WellFormed(cs[i].node))
    && DistinctNames(cs)
  }

  /** No two children share a name, as in any directory listing. */
  predicate DistinctNames(cs: seq<Child>)
  {
    forall i, j :: 0 <= i < j < |cs| ==> cs[i].name != cs[j].name
  }

  /** The children `os.walk` lists as directories, in order. */
  function DirChildren(cs: seq<Child>): (r: seq<Child>)
    ensures forall i :: 0 <= i < |r| ==> r[i] in cs && r[i].node.SrcDir?
  {
    if cs == [] then []
    else (if cs[0].node.SrcDir? then [cs[0]] else []) + DirChildren(cs[1..])
  }

  /** The children `os.walk` lists as files, in order. */
  function FileChildren(cs: seq<Child>): (r: seq<Child>)
    ensures forall i :: 0 <= i < |r| ==> r[i] in cs && r[i].node.SrcFile?
  {
    if cs == [] then []
    else (if cs[0].node.SrcFile? then [cs[0]] else []) + FileChildren(cs[1..])
  }

  /** Every child is listed exactly once, as a directory or as a file. */
  lemma {:induction false} ChildrenSplit(cs: seq<Child>)
    ensures |DirChildren(cs)| + |FileChildren(cs)| == |cs|
  {
    if cs != [] {
      ChildrenSplit(cs[1..]);
    }
  }

  /** One triple `(dirpath, dirnames, filenames)` of `os.walk`. */
  datatype Step = Step(dirpath: string, dirs: seq<Child>, files: seq<Child>)

  /** `os.walk(top)` top-down: the directory itself, then each subdirectory's walk in order. */
  function Walk(top: string, t: Tree): seq<Step>
    decreases t, 1
  {
    match t
    case SrcFile(_, _) => []
    case SrcDir(_, cs) => [Step(top, DirChildren(cs), FileChildren(cs))] + WalkChildren(top, cs)
  }

  /** The walks of the children of `top`, in order; a file child contributes nothing. */
  function WalkChildren(top: string, cs: seq<Child>): seq<Step>
    decreases cs, 0
  {
    if cs == [] then [] else Walk(Join(top, cs[0].name), cs[0].node) + WalkChildren(top, cs[1..])
  }

  /** The number of directories and files strictly below `t`. */
  function Descendants(t: Tree): nat
    decreases t, 1
  {
    match t
    case SrcFile(_, _) => 0
    case SrcDir(_, cs) => DescendantsOf(cs)
  }

  /** The number of directories and files in the forest `cs`. */
  function DescendantsOf(cs: seq<Child>): nat
    decreases cs, 0
  {
    if cs == [] then 0 else 1 + Descendants(cs[0].node) + DescendantsOf(cs[1..])
  }

  /** What the program does for one directory or file of the source tree. */
  datatype Entry = Entry(isDir: bool, source: string, rel: string, target: string, meta: Meta, content: Bytes)

  /** `s` with the leading `p` removed, if `s` starts with `p`. */
  function StripPrefix(s: string, p: string): (r: string)
    ensures p <= s ==> s == p + r
  {
    if p <= s then s[|p|..] else s
  }

  /** The path of `source` relative to the source directory `src`. */
  function RelPath(src: string, source: string): string
  {
    LStripSlashes(StripPrefix(source, src))
  }

  /**
   * The target directory of walked directory `dirpath`: `root` joined with
   * the path of `dirpath` below `src` (the prefix removed once).
   */
  function TargetDir(root: string, src: string, dirpath: string): string
  {
    Join(root, RelPath(src, dirpath))
  }

  /**
   * The target directory as restore.py:31 computes it: every occurrence of
   * `src` in `dirpath` removed, wherever it occurs.
   */
  function TargetDirAsWritten(root: string, src: string, dirpath: string): string
  {
    Join(root, LStripSlashes(RemoveAll(dirpath, src)))
  }

  /** The entry for child `c` of walked directory `dirpath`. */
  function MakeEntry(root: string, src: string, dirpath: string, c: Child): Entry
  {
    var source := Join(dirpath, c.name);
    Entry(c.node.SrcDir?, source, RelPath(src, source), Join(TargetDir(root, src, dirpath), c.name),
          c.node.meta, if c.node.SrcFile? then c.node.content else [])
  }

  function EntriesOf(root: string, src: string, dirpath: string, cs: seq<Child>): (es: seq<Entry>)
    ensures |es| == |cs|
  {
    if cs == [] then [] else EntriesOf(root, src, dirpath, cs[..|cs| - 1]) + [MakeEntry(root, src, dirpath, cs[|cs| - 1])]
  }

  /** Entry `i` is the entry of child `i`. */
  lemma {:induction false} EntryAt(root: string, src: string, dirpath: string, cs: seq<Child>, i: nat)
    requires i < |cs|
    ensures EntriesOf(root, src, dirpath, cs)[i] == MakeEntry(root, src, dirpath, cs[i])
    decreases |cs|
  {
    if i < |cs| - 1 {
      EntryAt(root, src, dirpath, cs[..|cs| - 1], i);
    }
  }

  /** Every entry of `EntriesOf` is the entry of the child at the same position. */
  lemma EntriesAt(root: string, src: string, dirpath: string, cs: seq<Child>)
    ensures forall k {:trigger cs[k]} :: 0 <= k < |cs| ==>
      EntriesOf(root, src, dirpath, cs)[k] == MakeEntry(root, src, dirpath, cs[k])
  {
    forall k | 0 <= k < |cs| {
      EntryAt(root, src, dirpath, cs, k);
    }
  }

  /** The entries of one walked directory: all its subdirectories, then all its files. */
  function StepEntries(root: string, src: string, st: Step): seq<Entry>
  {
    EntriesOf(root, src, st.dirpath, st.dirs) + EntriesOf(root, src, st.dirpath, st.files)
  }

  /** The entries of a sequence of walked directories, in walk order. */
  function PlanOf(root: string, src: string, steps: seq<Step>): seq<Entry>
  {
    if steps == [] then []
    else PlanOf(root, src, steps[..|steps| - 1]) + StepEntries(root, src, steps[|steps| - 1])
  }

  /** Every entry `Restore.run` handles, in order, for the tree `t` found at `src`. */
  function Plan(root: string, src: string, t: Tree): seq<Entry>
  {
    PlanOf(root, src, Walk(src, t))
  }

  /** The log line of an entry (restore.py:36 for a directory, restore.py:46 for a file). */
  function LogLine(e: Entry): LogRecord
  {
    if e.isDir then NewDirectory(e.target, e.meta) else Copied(e.rel, e.target, e.meta)
  }

  /** The log lines of a sequence of entries, one each, in order. */
  function Lines(plan: seq<Entry>): (ls: seq<LogRecord>)
    ensures |ls| == |plan|
  {
    if plan == [] then [] else Lines(plan[..|plan| - 1]) + [LogLine(plan[|plan| - 1])]
  }

  /** Line `i` of the log is the line of entry `i`. */
  lemma {:induction false} LineOfEntry(plan: seq<Entry>, i: nat)
    requires i < |plan|
    ensures Lines(plan)[i] == LogLine(plan[i])
    decreases |plan|
  {
    if i < |plan| - 1 {
      LineOfEntry(plan[..|plan| - 1], i);
    }
  }

  /** The lines of the first `k` entries are the first `k` lines. */
  lemma {:induction false} LinesPrefix(plan: seq<Entry>, k: nat)
    requires k <= |plan|
    ensures Lines(plan[..k]) == Lines(plan)[..k]
    decreases |plan|
  {
    if k == |plan| {
      assert plan[..k] == plan;
    } else {
      var init := plan[..|plan| - 1];
      LinesPrefix(init, k);
      assert init[..k] == plan[..k];
    }
  }

  /** Lines of a concatenation are the concatenated lines. */
  lemma {:induction false} LinesAppend(a: seq<Entry>, b: seq<Entry>)
    ensures Lines(a + b) == Lines(a) + Lines(b)
    decreases |b|
  {
    if b == [] {
      assert a + b == a;
    } else {
      assert (a + b)[..|a + b| - 1] == a + b[..|b| - 1];
      LinesAppend(a, b[..|b| - 1]);
    }
  }

  lemma TakeAll<T>(s: seq<T>)
    ensures s[..|s|] == s
  {
  }

  lemma TakeDrop<T>(s: seq<T>, n: nat)
    requires n <= |s|
    ensures s[..n] + s[n..] == s
  {
  }

  lemma ConcatAssoc<T>(x: seq<T>, y: seq<T>, z: seq<T>)
    ensures (x + y) + z == x + (y + z)
  {
  }

  /** One more element of `es` moved to the part handled. */
  lemma TakeOneMore<T>(done: seq<T>, es: seq<T>, j: nat)
    requires j < |es|
    ensures (done + es[..j]) + [es[j]] == done + es[..j + 1]
  {
    assert es[..j + 1] == es[..j] + [es[j]];
  }

  /** The part handled and the part after it make up all of `done + es`. */
  lemma HandledAndRest<T>(done: seq<T>, es: seq<T>, j: nat)
    requires j <= |es|
    ensures (done + es[..j]) + es[j..] == done + es
  {
    TakeDrop(es, j);
  }

  /** Entries of a concatenation of walk steps are the concatenated entries. */
  lemma {:induction false} PlanOfAppend(root: string, src: string, a: seq<Step>, b: seq<Step>)
    ensures PlanOf(root, src, a + b) == PlanOf(root, src, a) + PlanOf(root, src, b)
    decreases |b|
  {
    if b == [] {
      assert a + b == a;
    } else {
      var last, init := b[|b| - 1], b[..|b| - 1];
      assert (a + b)[..|a + b| - 1] == a + init;
      assert (a + b)[|a + b| - 1] == last;
      PlanOfAppend(root, src, a, init);
      calc {
        PlanOf(root, src, a + b);
        PlanOf(root, src, a + init) + StepEntries(root, src, last);
        (PlanOf(root, src, a) + PlanOf(root, src, init)) + StepEntries(root, src, last);
        { ConcatAssoc(PlanOf(root, src, a), PlanOf(root, src, init), StepEntries(root, src, last)); }
        PlanOf(root, src, a) + (PlanOf(root, src, init) + StepEntries(root, src, last));
        PlanOf(root, src, a) + PlanOf(root, src, b);
      }
    }
  }

  /** Walking a tree yields one entry per directory and file below it. */
  lemma {:induction false} WalkEntryCount(root: string, src: string, top: string, t: Tree)
    ensures |PlanOf(root, src, Walk(top, t))| == Descendants(t)
    decreases t, 1
  {
    match t
    case SrcFile(_, _) =>
    case SrcDir(_, cs) =>
      var st := Step(top, DirChildren(cs), FileChildren(cs));
      PlanOfAppend(root, src, [st], WalkChildren(top, cs));
      assert PlanOf(root, src, [st]) == StepEntries(root, src, st) by {
        assert [st][..0] == [];
      }
      ChildrenSplit(cs);
      WalkChildrenEntryCount(root, src, top, cs);
  }

  lemma {:induction false} WalkChildrenEntryCount(root: string, src: string, top: string, cs: seq<Child>)
    ensures |PlanOf(root, src, WalkChildren(top, cs))| + |cs| == DescendantsOf(cs)
    decreases cs, 0
  {
    if cs != [] {
      PlanOfAppend(root, src, Walk(Join(top, cs[0].name), cs[0].node), WalkChildren(top, cs[1..]));
      WalkEntryCount(root, src, Join(top, cs[0].name), cs[0].node);
      WalkChildrenEntryCount(root, src, top, cs[1..]);
    }
  }

  /** An entry is a directory entry exactly when its child is a directory. */
  lemma EntryKind(root: string, src: string, dirpath: string, cs: seq<Child>, i: int)
    requires 0 <= i < |cs|
    ensures EntriesOf(root, src, dirpath, cs)[i].isDir == cs[i].node.SrcDir?
  {
    EntryAt(root, src, dirpath, cs, i);
  }

  /**
   * The entries of one walked directory are its subdirectories' entries,
   * then its files' entries, each in listing order.
   */
  lemma StepEntriesOrder(root: string, src: string, st: Step)
    ensures var es := StepEntries(root, src, st);
      |es| == |st.dirs| + |st.files| &&
      (forall i :: 0 <= i < |st.dirs| ==> es[i].isDir == st.dirs[i].node.SrcDir?) &&
      (forall i :: |st.dirs| <= i < |es| ==> es[i].isDir == st.files[i - |st.dirs|].node.SrcDir?)
  {
    var ds := EntriesOf(root, src, st.dirpath, st.dirs);
    var fs := EntriesOf(root, src, st.dirpath, st.files);
    var es := ds + fs;
    forall i | 0 <= i < |st.dirs|
      ensures es[i].isDir == st.dirs[i].node.SrcDir?
    {
      EntryKind(root, src, st.dirpath, st.dirs, i);
    }
    forall i | |st.dirs| <= i < |es|
      ensures es[i].isDir == st.files[i - |st.dirs|].node.SrcDir?
    {
      EntryKind(root, src, st.dirpath, st.files, i - |st.dirs|);
    }
  }

  /** The steps of a walk list subdirectories as directories and files as files. */
  predicate Classified(st: Step)
  {
    (forall i :: 0 <= i < |st.dirs| ==> st.dirs[i].node.SrcDir?) &&
    (forall i :: 0 <= i < |st.files| ==> st.files[i].node.SrcFile?)
  }

  /**
   * Hence, in every walked directory, the directory entries come first and
   * the file entries after them: no directory entry follows a file entry.
   */
  lemma WalkedDirsBeforeFiles(root: string, src: string, st: Step)
    requires Classified(st)
    ensures var es := StepEntries(root, src, st);
      forall i, j :: 0 <= i < j < |es| && es[j].isDir ==> es[i].isDir
    ensures var es := StepEntries(root, src, st);
      forall i :: 0 <= i < |es| ==> (es[i].isDir <==> i < |st.dirs|)
  {
    StepEntriesOrder(root, src, st);
  }

  /** Every step of a walk is classified. */
  lemma {:induction false} WalkClassified(top: string, t: Tree)
    ensures forall k :: 0 <= k < |Walk(top, t)| ==> Classified(Walk(top, t)[k])
    decreases t, 1
  {
    match t
    case SrcFile(_, _) =>
    case SrcDir(_, cs) =>
      WalkChildrenClassified(top, cs);
  }

  lemma {:induction false} WalkChildrenClassified(top: string, cs: seq<Child>)
    ensures forall k :: 0 <= k < |WalkChildren(top, cs)| ==> Classified(WalkChildren(top, cs)[k])
    decreases cs, 0
  {
    if cs != [] {
      WalkClassified(Join(top, cs[0].name), cs[0].node);
      WalkChildrenClassified(top, cs[1..]);
    }
  }

  /** The source directory: a non-empty path that does not end in '/'. */
  predicate SourceRoot(src: string)
  {
    src != "" && src[|src| - 1] != '/'
  }

  /** `p` is `src` itself or `src + "/" + r` for a relative path `r` that neither starts nor ends with '/'. */
  predicate UnderSource(src: string, p: string)
  {
    p == src || (|p| > |src| + 1 && p[..|src| + 1] == src + "/" && p[|src| + 1] != '/' && p[|p| - 1] != '/')
  }

  /** An entry re-rooted: its source is `src/rel` and its target is `root` joined with the same `rel`. */
  predicate Rerooted(root: string, src: string, e: Entry)
  {
    e.source == src + "/" + e.rel && e.target == Join(root, e.rel)
  }

  /** A walked directory below the source whose listed names are all valid. */
  predicate GoodStep(src: string, st: Step)
  {
    && UnderSource(src, st.dirpath)
    && (forall i :: 0 <= i < |st.dirs| ==> ValidName(st.dirs[i].name))
    && (forall i :: 0 <= i < |st.files| ==> ValidName(st.files[i].name))
  }

  /** A name that neither starts nor ends with '/' and is not empty (true of every valid name). */
  predicate Segment(name: string)
  {
    name != "" && name[0] != '/' && name[|name| - 1] != '/'
  }

  lemma ValidNameIsSegment(name: string)
    requires ValidName(name)
    ensures Segment(name)
  {
  }

  /** `os.path.join` of a directory below the source and an entry name inserts exactly one '/'. */
  lemma ChildUnder(src: string, p: string, name: string)
    requires SourceRoot(src) && UnderSource(src, p) && Segment(name)
    ensures Join(p, name) == p + "/" + name
    ensures UnderSource(src, p + "/" + name)
  {
    var q := p + "/" + name;
    assert q[|q| - 1] == name[|name| - 1];
    if p == src {
      assert q[..|src| + 1] == src + "/";
      assert q[|src| + 1] == name[0];
    } else {
      assert q[..|src| + 1] == p[..|src| + 1];
      assert q[|src| + 1] == p[|src| + 1];
    }
  }

  /** Stripping the leading slashes of "/" + x gives x back when x does not start with '/'. */
  lemma LStripOneSlash(x: string)
    requires x == "" || x[0] != '/'
    ensures LStripSlashes("/" + x) == x
  {
    assert ("/" + x)[1..] == x;
  }

  /** Joining `r` then `name` onto `root` is joining the relative path `r/name` onto it. */
  lemma JoinThenJoin(root: string, r: string, name: string)
    requires r == "" || (r[0] != '/' && r[|r| - 1] != '/')
    requires Segment(name)
    ensures Join(Join(root, r), name) == Join(root, if r == "" then name else r + "/" + name)
  {
    if r != "" {
      var rn := r + "/" + name;
      assert rn[0] == r[0];
      var j := Join(root, r);
      assert j[|j| - 1] == r[|r| - 1];
    }
  }

  /** The path of a directory below the source, relative to it: empty for the source itself. */
  lemma RelOfUnder(src: string, p: string)
    requires SourceRoot(src) && UnderSource(src, p)
    ensures var r := RelPath(src, p);
      (p == src && r == "") || (p != src && r == p[|src| + 1..] && r != "" && r[0] != '/' && r[|r| - 1] != '/')
  {
    if p == src {
      assert StripPrefix(p, src) == "";
    } else {
      var r := p[|src| + 1..];
      assert p == src + "/" + r;
      assert StripPrefix(p, src) == "/" + r;
      LStripOneSlash(r);
    }
  }

  /** The relative path of `q` below the source, when `q` is `src/x`. */
  lemma RelOfSlashed(src: string, q: string, x: string)
    requires SourceRoot(src) && UnderSource(src, q) && q == src + "/" + x
    ensures RelPath(src, q) == x
  {
    RelOfUnder(src, q);
    assert q[|src| + 1..] == x;
  }

  /** The relative path of a child is the relative path of its directory, then the child's name. */
  lemma RelOfChild(src: string, p: string, name: string)
    requires SourceRoot(src) && UnderSource(src, p) && Segment(name)
    ensures var r := RelPath(src, p);
      var rel := RelPath(src, p + "/" + name);
      rel == (if r == "" then name else r + "/" + name) && p + "/" + name == src + "/" + rel
  {
    ChildUnder(src, p, name);
    RelOfUnder(src, p);
    var r := RelPath(src, p);
    var x := if r == "" then name else r + "/" + name;
    if p == src {
      assert p + "/" + name == src + "/" + x;
    } else {
      assert p == src + "/" + r by {
        assert p == p[..|src| + 1] + p[|src| + 1..];
      }
      assert p + "/" + name == src + "/" + x;
    }
    RelOfSlashed(src, p + "/" + name, x);
  }

  /** The entry for a valid child of a directory below the source is re-rooted under `root`. */
  lemma EntryRerooted(root: string, src: string, p: string, c: Child)
    requires SourceRoot(src) && UnderSource(src, p) && Segment(c.name)
    ensures Rerooted(root, src, MakeEntry(root, src, p, c))
  {
    var e := MakeEntry(root, src, p, c);
    var r := RelPath(src, p);
    assert e.target == Join(TargetDir(root, src, p), c.name) == Join(Join(root, r), c.name);
    RelOfUnder(src, p);
    JoinThenJoin(root, r, c.name);
    ChildUnder(src, p, c.name);
    assert e.source == p + "/" + c.name;
    RelOfChild(src, p, c.name);
    assert e.rel == (if r == "" then c.name else r + "/" + c.name);
  }

  /** Every entry of a good step is re-rooted. */
  lemma StepRerooted(root: string, src: string, st: Step)
    requires SourceRoot(src) && GoodStep(src, st)
    ensures forall e :: e in StepEntries(root, src, st) ==> Rerooted(root, src, e)
  {
    var ds := EntriesOf(root, src, st.dirpath, st.dirs);
    var fs := EntriesOf(root, src, st.dirpath, st.files);
    forall i | 0 <= i < |ds| ensures Rerooted(root, src, ds[i]) {
      EntryAt(root, src, st.dirpath, st.dirs, i);
      ValidNameIsSegment(st.dirs[i].name);
      EntryRerooted(root, src, st.dirpath, st.dirs[i]);
    }
    forall i | 0 <= i < |fs| ensures Rerooted(root, src, fs[i]) {
      EntryAt(root, src, st.dirpath, st.files, i);
      ValidNameIsSegment(st.files[i].name);
      EntryRerooted(root, src, st.dirpath, st.files[i]);
    }
  }

  /** Every entry of a sequence of good steps is re-rooted. */
  lemma {:induction false} PlanOfRerooted(root: string, src: string, steps: seq<Step>)
    requires SourceRoot(src)
    requires forall k :: 0 <= k < |steps| ==> GoodStep(src, steps[k])
    ensures forall e :: e in PlanOf(root, src, steps) ==> Rerooted(root, src, e)
    decreases |steps|
  {
    if steps != [] {
      PlanOfRerooted(root, src, steps[..|steps| - 1]);
      StepRerooted(root, src, steps[|steps| - 1]);
    }
  }

  /** Every step of the walk of a well-formed tree from a directory below the source is good. */
  lemma {:induction false} WalkGood(src: string, top: string, t: Tree)
    requires SourceRoot(src) && UnderSource(src, top) && WellFormed(t)
    ensures forall k :: 0 <= k < |Walk(top, t)| ==> GoodStep(src, Walk(top, t)[k])
    decreases t, 1
  {
    match t
    case SrcFile(_, _) =>
    case SrcDir(_, cs) =>
      var ds, fs := DirChildren(cs), FileChildren(cs);
      forall i | 0 <= i < |ds| ensures ValidName(ds[i].name) {
        var j :| 0 <= j < |cs| && cs[j] == ds[i];
      }
      forall i | 0 <= i < |fs| ensures ValidName(fs[i].name) {
        var j :| 0 <= j < |cs| && cs[j] == fs[i];
      }
      assert GoodStep(src, Step(top, ds, fs));
      WalkChildrenGood(src, top, cs);
  }

  lemma {:induction false} WalkChildrenGood(src: string, top: string, cs: seq<Child>)
    requires SourceRoot(src) && UnderSource(src, top) && AllWellFormed(cs)
    ensures forall k :: 0 <= k < |WalkChildren(top, cs)| ==> GoodStep(src, WalkChildren(top, cs)[k])
    decreases cs, 0
  {
    if cs != [] {
      ValidNameIsSegment(cs[0].name);
      ChildUnder(src, top, cs[0].name);
      WalkGood(src, Join(top, cs[0].name), cs[0].node);
      WalkChildrenGood(src, top, cs[1..]);
    }
  }

  /**
   * Re-rooting: every entry of the plan for a well-formed tree is found at
   * `src/rel` and restored to `root` joined with the same `rel`.
   */
  lemma PlanRerooted(root: string, src: string, t: Tree)
    requires SourceRoot(src) && WellFormed(t)
    ensures forall e :: e in Plan(root, src, t) ==> Rerooted(root, src, e)
  {
    WalkGood(src, src, t);
    PlanOfRerooted(root, src, Walk(src, t));
  }

  /** Removing every occurrence of `s` from `s + x` removes the leading copy and the ones in `x`. */
  lemma RemoveAllLeading(s: string, x: string)
    requires s != ""
    ensures RemoveAll(s + x, s) == RemoveAll(x, s)
  {
    assert (s + x)[..|s|] == s;
    assert (s + x)[|s|..] == x;
  }

  /**
   * As written, restore.py:31 sends a walked directory whose path below the
   * source repeats the source path (a directory `mnt/keystore-k/rootfs`
   * inside the rootfs of keystore "keystore-k") to `root` itself, instead
   * of to `root/mnt/keystore-k/rootfs`.
   */
  lemma TargetDirAsWrittenCollapses(root: string, src: string)
    requires SourceRoot(src) && |src| >= 2 && src[0] == '/' && src[1] != '/'
    ensures UnderSource(src, src + src)
    ensures TargetDirAsWritten(root, src, src + src) == Join(root, "")
    ensures TargetDir(root, src, src + src) == Join(root, src[1..])
    ensures TargetDirAsWritten(root, src, src + src) != TargetDir(root, src, src + src)
  {
    var q := src + src;
    assert q[..|src| + 1] == src + "/";
    assert q[|src| + 1] == src[1];
    RemoveAllLeading(src, src);
    assert src == src + "";
    RemoveAllLeading(src, "");
    assert src == "/" + src[1..];
    LStripOneSlash(src[1..]);
    assert StripPrefix(q, src) == src;
    var x := src[1..];
    assert x[0] != '/';
  }

  /**
   * Where the source path does not recur below the source, restore.py:31
   * and :46 compute what the model computes: removing every occurrence of
   * `src` is removing it once, as a prefix.
   */
  lemma AsWrittenAgrees(root: string, src: string, p: string)
    requires src != "" && src <= p && !Contains(p[|src|..], src)
    ensures LStripSlashes(RemoveAll(p, src)) == RelPath(src, p)
    ensures TargetDirAsWritten(root, src, p) == TargetDir(root, src, p)
  {
    var x := p[|src|..];
    assert p == src + x;
    RemoveAllLeading(src, x);
    RemoveAllAbsent(x, src);
  }
}
