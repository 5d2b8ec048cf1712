/**
 * Which nodes of the source tree a restore handles (keystore/restore.py:30-48):
 * every directory and file below the source is the source of exactly one
 * entry of the plan, no entry comes from anywhere else, and no two entries
 * are restored to the same target.
 */
module Coverage {
  import opened PyPath
  import opened SourceTree

  /** The names leading from a tree down to one of its nodes. */
  type Names = seq<string>

  predicate ValidNames(ns: Names)
  {
    forall k :: 0 <= k < |ns| ==> ValidName(ns[k])
  }

  predicate NoDuplicates<T(==)>(s: seq<T>)
  {
    forall i, j :: 0 <= i < j < |s| ==> s[i] != s[j]
  }

  /** `ns` leads from `t` to a directory or file strictly below it. */
  predicate Below(t: Tree, ns: Names)
    decreases ns
  {
    && ns != []
    && t.SrcDir?
    && exists i | 0 <= i < |t.children| ::
         t.children[i].name == ns[0] && (|ns| == 1 || Below(t.children[i].node, ns[1..]))
  }

  /** The path of node `ns` below `top`: its names joined on one by one, as the walk joins them. */
  function PathOf(top: string, ns: Names): string
    decreases |ns|
  {
    if ns == [] then top else PathOf(Join(top, ns[0]), ns[1..])
  }

  /** Each name preceded by one '/'. */
  function Slashed(ns: Names): string
    decreases |ns|
  {
    if ns == [] then "" else "/" + ns[0] + Slashed(ns[1..])
  }

  /** The children as one-name paths. */
  function Singles(cs: seq<Child>): (r: seq<Names>)
    ensures |r| == |cs| && forall i :: 0 <= i < |cs| ==> r[i] == [cs[i].name]
  {
    seq(|cs|, i requires 0 <= i < |cs| => [cs[i].name])
  }

  /** The paths `nss`, each below the child named `n`. */
  function Prefixed(n: string, nss: seq<Names>): (r: seq<Names>)
    ensures |r| == |nss| && forall i :: 0 <= i < |nss| ==> r[i] == [n] + nss[i]
  {
    seq(|nss|, i requires 0 <= i < |nss| => [n] + nss[i])
  }

  /**
   * The nodes below `t` in the order the walk produces their entries: the
   * subdirectories, the files, then what lies below each child in turn.
   */
  function Nodes(t: Tree): seq<Names>
    decreases t, 1
  {
    match t
    case SrcFile(_, _) => []
    case SrcDir(_, cs) => Singles(DirChildren(cs)) + Singles(FileChildren(cs)) + NodesOf(cs)
  }

  function NodesOf(cs: seq<Child>): seq<Names>
    decreases cs, 0
  {
    if cs == [] then [] else Prefixed(cs[0].name, Nodes(cs[0].node)) + NodesOf(cs[1..])
  }

  lemma DistinctAppend<T>(a: seq<T>, b: seq<T>)
    requires NoDuplicates(a) && NoDuplicates(b)
    requires forall x :: x in a ==> x !in b
    ensures NoDuplicates(a + b)
  {
    forall i, j | 0 <= i < j < |a + b| ensures (a + b)[i] != (a + b)[j] {
      if j < |a| {
        assert (a + b)[i] == a[i] && (a + b)[j] == a[j];
      } else if i >= |a| {
        assert (a + b)[i] == b[i - |a|] && (a + b)[j] == b[j - |a|];
      } else {
        assert (a + b)[i] == a[i] && (a + b)[j] == b[j - |a|];
        assert a[i] in a;
      }
    }
  }

  /** Every child is listed, as a directory or as a file. */
  lemma {:induction false} Listed(cs: seq<Child>)
    ensures forall c :: c in cs ==> c in DirChildren(cs) || c in FileChildren(cs)
  {
    if cs != [] {
      Listed(cs[1..]);
      forall c | c in cs ensures c in DirChildren(cs) || c in FileChildren(cs) {
        if c != cs[0] {
          assert c in cs[1..];
        }
      }
    }
  }

  /** A child whose name no other has, put in front of children with distinct names. */
  lemma DistinctCons(c: Child, r: seq<Child>, take: bool)
    requires DistinctNames(r) && forall x :: x in r ==> x.name != c.name
    ensures DistinctNames((if take then [c] else []) + r)
  {
    var s := (if take then [c] else []) + r;
    if take {
      forall i, j | 0 <= i < j < |s| ensures s[i].name != s[j].name {
        assert s[j] == r[j - 1];
        if i > 0 {
          assert s[i] == r[i - 1];
        } else {
          assert r[j - 1] in r;
        }
      }
    } else {
      assert s == r;
    }
  }

  /** Names that are distinct among the children stay distinct among the listed directories and files. */
  lemma {:induction false} SplitNames(cs: seq<Child>)
    requires DistinctNames(cs)
    ensures DistinctNames(DirChildren(cs)) && DistinctNames(FileChildren(cs))
  {
    if cs != [] {
      var rest := cs[1..];
      assert DistinctNames(rest) by {
        forall i, j | 0 <= i < j < |rest| ensures rest[i].name != rest[j].name {
          assert rest[i] == cs[i + 1] && rest[j] == cs[j + 1];
        }
      }
      SplitNames(rest);
      var dr, fr := DirChildren(rest), FileChildren(rest);
      forall c | c in rest ensures c.name != cs[0].name {
        var k :| 0 <= k < |rest| && rest[k] == c;
        assert cs[k + 1] == c;
      }
      forall c | c in dr ensures c.name != cs[0].name {
        var k :| 0 <= k < |dr| && dr[k] == c;
        assert c in rest;
      }
      forall c | c in fr ensures c.name != cs[0].name {
        var k :| 0 <= k < |fr| && fr[k] == c;
        assert c in rest;
      }
      DistinctCons(cs[0], dr, cs[0].node.SrcDir?);
      DistinctCons(cs[0], fr, cs[0].node.SrcFile?);
    }
  }

  /** A listed directory and a listed file never share a name. */
  lemma ApartNames(cs: seq<Child>)
    requires DistinctNames(cs)
    ensures forall a, b :: a in DirChildren(cs) && b in FileChildren(cs) ==> a.name != b.name
  {
    forall a, b | a in DirChildren(cs) && b in FileChildren(cs) ensures a.name != b.name {
      var k :| 0 <= k < |DirChildren(cs)| && DirChildren(cs)[k] == a;
      var l :| 0 <= l < |FileChildren(cs)| && FileChildren(cs)[l] == b;
      var i :| 0 <= i < |cs| && cs[i] == a;
      var j :| 0 <= j < |cs| && cs[j] == b;
      assert a.node.SrcDir? && b.node.SrcFile?;
      assert i != j;
    }
  }

  /** A valid name followed by valid names. */
  lemma ConsValid(n: string, ns: Names)
    requires ValidName(n) && ValidNames(ns)
    ensures ValidNames([n] + ns)
  {
    forall k | 0 <= k < |[n] + ns| ensures ValidName(([n] + ns)[k]) {
      if k > 0 {
        assert ([n] + ns)[k] == ns[k - 1];
      }
    }
  }

  /** One-name paths of children with distinct valid names are distinct and valid. */
  lemma SinglesGood(cs: seq<Child>)
    requires DistinctNames(cs) && forall c :: c in cs ==> ValidName(c.name)
    ensures forall ns :: ns in Singles(cs) ==> |ns| == 1 && ValidNames(ns) && exists c :: c in cs && ns == [c.name]
    ensures NoDuplicates(Singles(cs))
  {
    var a := Singles(cs);
    forall ns | ns in a ensures |ns| == 1 && ValidNames(ns) && exists c :: c in cs && ns == [c.name] {
      var k :| 0 <= k < |a| && a[k] == ns;
      assert cs[k] in cs && ns == [cs[k].name];
    }
    forall i, j | 0 <= i < j < |a| ensures a[i] != a[j] {
      assert a[i][0] == cs[i].name && a[j][0] == cs[j].name;
    }
  }

  /** Children with different names have different one-name paths. */
  lemma SinglesDisjoint(ds: seq<Child>, fs: seq<Child>)
    requires forall a, b :: a in ds && b in fs ==> a.name != b.name
    ensures forall x :: x in Singles(ds) ==> x !in Singles(fs)
  {
    forall x | x in Singles(ds) ensures x !in Singles(fs) {
      var k :| 0 <= k < |ds| && Singles(ds)[k] == x;
      forall j | 0 <= j < |fs| ensures Singles(fs)[j] != x {
        assert Singles(fs)[j][0] == fs[j].name && x[0] == ds[k].name;
        assert ds[k] in ds && fs[j] in fs;
      }
    }
  }

  /** The nodes of a well-formed tree are distinct non-empty paths of valid names. */
  lemma {:induction false} NodesGood(t: Tree)
    requires WellFormed(t)
    ensures forall ns :: ns in Nodes(t) ==> ns != [] && ValidNames(ns)
    ensures NoDuplicates(Nodes(t))
    decreases t, 1
  {
    match t
    case SrcFile(_, _) =>
    case SrcDir(_, cs) =>
      var ds, fs := DirChildren(cs), FileChildren(cs);
      var a, b, c := Singles(ds), Singles(fs), NodesOf(cs);
      assert Nodes(t) == a + b + c;
      SplitNames(cs);
      ApartNames(cs);
      forall x | x in cs ensures ValidName(x.name) {
        var i :| 0 <= i < |cs| && cs[i] == x;
      }
      SinglesGood(ds);
      SinglesGood(fs);
      NodesOfGood(cs);
      SinglesDisjoint(ds, fs);
      DistinctAppend(a, b);
      forall x | x in a + b ensures x !in c {
        assert x in a || x in b;
      }
      DistinctAppend(a + b, c);
  }

  /** Below the children: distinct paths of at least two valid names, each headed by a child's name. */
  lemma {:induction false} NodesOfGood(cs: seq<Child>)
    requires AllWellFormed(cs)
    ensures forall ns :: ns in NodesOf(cs) ==>
      |ns| >= 2 && ValidNames(ns) && exists k :: 0 <= k < |cs| && cs[k].name == ns[0]
    ensures NoDuplicates(NodesOf(cs))
    decreases cs, 0
  {
    if cs != [] {
      var rest := cs[1..];
      assert AllWellFormed(rest) by {
        forall i, j | 0 <= i < j < |rest| ensures rest[i].name != rest[j].name {
          assert rest[i] == cs[i + 1] && rest[j] == cs[j + 1];
        }
        forall i | 0 <= i < |rest| ensures ValidName(rest[i].name) && WellFormed(rest[i].node) {
          assert rest[i] == cs[i + 1];
        }
      }
      var n := cs[0].name;
      var inner := Nodes(cs[0].node);
      var p := Prefixed(n, inner);
      NodesGood(cs[0].node);
      NodesOfGood(rest);
      assert ValidName(cs[0].name);
      forall ns | ns in p
        ensures |ns| >= 2 && ValidNames(ns) && ns[0] == n
      {
        var k :| 0 <= k < |p| && p[k] == ns;
        assert ns == [n] + inner[k];
        assert inner[k] in inner;
        ConsValid(n, inner[k]);
      }
      assert NoDuplicates(p) by {
        forall i, j | 0 <= i < j < |p| ensures p[i] != p[j] {
          assert p[i][1..] == inner[i] && p[j][1..] == inner[j];
        }
      }
      forall ns | ns in NodesOf(rest)
        ensures exists k :: 0 <= k < |cs| && cs[k].name == ns[0]
        ensures ns[0] != n
      {
        var k :| 0 <= k < |rest| && rest[k].name == ns[0];
        assert cs[k + 1].name == ns[0];
      }
      DistinctAppend(p, NodesOf(rest));
    }
  }

  /** `ns` continues below child `c`: it starts with `c`'s name and goes on to a node below it. */
  predicate LeadsBelow(c: Child, ns: Names)
  {
    ns != [] && c.name == ns[0] && ns[1..] in Nodes(c.node)
  }

  lemma PrefixedMember(n: string, nss: seq<Names>, ns: Names)
    ensures ns in Prefixed(n, nss) <==> ns != [] && ns[0] == n && ns[1..] in nss
  {
    var p := Prefixed(n, nss);
    if ns in p {
      var k :| 0 <= k < |p| && p[k] == ns;
      assert ns[1..] == nss[k];
    }
    if ns != [] && ns[0] == n && ns[1..] in nss {
      var k :| 0 <= k < |nss| && nss[k] == ns[1..];
      assert p[k] == ns;
    }
  }

  /** A path is among the children's nodes exactly when it continues below one of the children. */
  lemma {:induction false} NodesOfMember(cs: seq<Child>, ns: Names)
    ensures ns in NodesOf(cs) <==> exists i | 0 <= i < |cs| :: LeadsBelow(cs[i], ns)
    decreases cs
  {
    if cs != [] {
      var c, rest := cs[0], cs[1..];
      assert NodesOf(cs) == Prefixed(c.name, Nodes(c.node)) + NodesOf(rest);
      PrefixedMember(c.name, Nodes(c.node), ns);
      NodesOfMember(rest, ns);
      if exists i | 0 <= i < |cs| :: LeadsBelow(cs[i], ns) {
        var i :| 0 <= i < |cs| && LeadsBelow(cs[i], ns);
        if i > 0 {
          assert rest[i - 1] == cs[i];
        }
      }
      if exists i | 0 <= i < |rest| :: LeadsBelow(rest[i], ns) {
        var i :| 0 <= i < |rest| && LeadsBelow(rest[i], ns);
        assert cs[i + 1] == rest[i];
      }
    }
  }

  /** A one-name path of a listed directory or file is the name of a child. */
  lemma SinglesListed(cs: seq<Child>, ns: Names)
    requires ns in Singles(DirChildren(cs)) || ns in Singles(FileChildren(cs))
    ensures |ns| == 1 && exists i | 0 <= i < |cs| :: cs[i].name == ns[0]
  {
    var ds, fs := DirChildren(cs), FileChildren(cs);
    var c: Child;
    if ns in Singles(ds) {
      var k :| 0 <= k < |ds| && Singles(ds)[k] == ns;
      c := ds[k];
    } else {
      var k :| 0 <= k < |fs| && Singles(fs)[k] == ns;
      c := fs[k];
    }
    assert c in cs && ns == [c.name];
    var i :| 0 <= i < |cs| && cs[i] == c;
  }

  /** The name of a child is the one-name path of a listed directory or file. */
  lemma ChildListed(cs: seq<Child>, i: nat)
    requires i < |cs|
    ensures [cs[i].name] in Singles(DirChildren(cs)) || [cs[i].name] in Singles(FileChildren(cs))
  {
    var ds, fs := DirChildren(cs), FileChildren(cs);
    Listed(cs);
    assert cs[i] in cs;
    if cs[i] in ds {
      var k :| 0 <= k < |ds| && ds[k] == cs[i];
      assert Singles(ds)[k] == [cs[i].name];
    } else {
      var k :| 0 <= k < |fs| && fs[k] == cs[i];
      assert Singles(fs)[k] == [cs[i].name];
    }
  }

  /** The one-name paths of the listed directories and files are the names of the children. */
  lemma SinglesSplit(cs: seq<Child>, ns: Names)
    ensures ns in Singles(DirChildren(cs)) || ns in Singles(FileChildren(cs)) <==>
      |ns| == 1 && exists i | 0 <= i < |cs| :: cs[i].name == ns[0]
  {
    if ns in Singles(DirChildren(cs)) || ns in Singles(FileChildren(cs)) {
      SinglesListed(cs, ns);
    }
    if |ns| == 1 && exists i | 0 <= i < |cs| :: cs[i].name == ns[0] {
      var i :| 0 <= i < |cs| && cs[i].name == ns[0];
      assert ns == [cs[i].name];
      ChildListed(cs, i);
    }
  }

  /** The walk-ordered nodes are exactly the nodes below the tree. */
  lemma {:induction false} NodesAreBelow(t: Tree, ns: Names)
    ensures ns in Nodes(t) <==> Below(t, ns)
    decreases t, 1
  {
    match t
    case SrcFile(_, _) =>
    case SrcDir(_, cs) =>
      var ds, fs := DirChildren(cs), FileChildren(cs);
      assert Nodes(t) == Singles(ds) + Singles(fs) + NodesOf(cs);
      assert ns in Nodes(t) <==> ns in Singles(ds) || ns in Singles(fs) || ns in NodesOf(cs);
      SinglesSplit(cs, ns);
      NodesOfMember(cs, ns);
      if ns != [] {
        forall i | 0 <= i < |cs| ensures LeadsBelow(cs[i], ns) <==> cs[i].name == ns[0] && Below(cs[i].node, ns[1..]) {
          NodesAreBelow(cs[i].node, ns[1..]);
        }
        assert Below(t, ns) <==> exists i | 0 <= i < |cs| ::
          cs[i].name == ns[0] && (|ns| == 1 || Below(cs[i].node, ns[1..]));
      }
  }

  /** Entry `i` of `plan` comes from node `nodes[i]` below `top`. */
  predicate SourcedFrom(plan: seq<Entry>, top: string, nodes: seq<Names>)
  {
    |plan| == |nodes| && forall i :: 0 <= i < |plan| ==> plan[i].source == PathOf(top, nodes[i])
  }

  lemma SourcedAppend(p1: seq<Entry>, p2: seq<Entry>, top: string, n1: seq<Names>, n2: seq<Names>)
    requires SourcedFrom(p1, top, n1) && SourcedFrom(p2, top, n2)
    ensures SourcedFrom(p1 + p2, top, n1 + n2)
  {
    forall i | 0 <= i < |p1 + p2| ensures (p1 + p2)[i].source == PathOf(top, (n1 + n2)[i]) {
      if i < |p1| {
        assert (p1 + p2)[i] == p1[i] && (n1 + n2)[i] == n1[i];
      } else {
        assert (p1 + p2)[i] == p2[i - |p1|] && (n1 + n2)[i] == n2[i - |p1|];
      }
    }
  }

  /** Entries from nodes below child `n` of `top` come from the same nodes, prefixed by `n`, below `top`. */
  lemma SourcedPrefixed(plan: seq<Entry>, top: string, n: string, nodes: seq<Names>)
    requires SourcedFrom(plan, Join(top, n), nodes)
    ensures SourcedFrom(plan, top, Prefixed(n, nodes))
  {
    var p := Prefixed(n, nodes);
    forall i | 0 <= i < |plan| ensures plan[i].source == PathOf(top, p[i]) {
      assert p[i] == [n] + nodes[i];
      assert p[i][0] == n && p[i][1..] == nodes[i];
    }
  }

  /** The entries of one walked directory's children come from those children. */
  lemma StepSources(root: string, src: string, top: string, cs: seq<Child>)
    ensures SourcedFrom(EntriesOf(root, src, top, cs), top, Singles(cs))
  {
    var es := EntriesOf(root, src, top, cs);
    EntriesAt(root, src, top, cs);
    forall i | 0 <= i < |es| ensures es[i].source == PathOf(top, Singles(cs)[i]) {
      assert es[i] == MakeEntry(root, src, top, cs[i]);
      assert Singles(cs)[i] == [cs[i].name];
      assert [cs[i].name][1..] == [];
    }
  }

  lemma OneStep(root: string, src: string, st: Step)
    ensures PlanOf(root, src, [st]) == EntriesOf(root, src, st.dirpath, st.dirs) + EntriesOf(root, src, st.dirpath, st.files)
  {
    assert [st][..0] == [];
  }

  /** The entries of a walk from `top` come from the tree's nodes, in walk order. */
  lemma {:induction false} WalkSources(root: string, src: string, top: string, t: Tree)
    ensures SourcedFrom(PlanOf(root, src, Walk(top, t)), top, Nodes(t))
    decreases t, 1
  {
    match t
    case SrcFile(_, _) =>
    case SrcDir(_, cs) =>
      var ds, fs := DirChildren(cs), FileChildren(cs);
      var st := Step(top, ds, fs);
      assert Walk(top, t) == [st] + WalkChildren(top, cs);
      PlanOfAppend(root, src, [st], WalkChildren(top, cs));
      OneStep(root, src, st);
      StepSources(root, src, top, ds);
      StepSources(root, src, top, fs);
      WalkChildrenSources(root, src, top, cs);
      SourcedAppend(EntriesOf(root, src, top, ds), EntriesOf(root, src, top, fs), top, Singles(ds), Singles(fs));
      SourcedAppend(PlanOf(root, src, [st]), PlanOf(root, src, WalkChildren(top, cs)), top,
                    Singles(ds) + Singles(fs), NodesOf(cs));
  }

  lemma {:induction false} WalkChildrenSources(root: string, src: string, top: string, cs: seq<Child>)
    ensures SourcedFrom(PlanOf(root, src, WalkChildren(top, cs)), top, NodesOf(cs))
    decreases cs, 0
  {
    if cs != [] {
      var n := cs[0].name;
      var first := Walk(Join(top, n), cs[0].node);
      var others := WalkChildren(top, cs[1..]);
      assert WalkChildren(top, cs) == first + others;
      PlanOfAppend(root, src, first, others);
      WalkSources(root, src, Join(top, n), cs[0].node);
      SourcedPrefixed(PlanOf(root, src, first), top, n, Nodes(cs[0].node));
      WalkChildrenSources(root, src, top, cs[1..]);
      SourcedAppend(PlanOf(root, src, first), PlanOf(root, src, others), top,
                    Prefixed(n, Nodes(cs[0].node)), NodesOf(cs[1..]));
    }
  }

  /** Joining valid names onto a source-like path inserts exactly one '/' before each. */
  lemma {:induction false} PathOfSlashed(top: string, ns: Names)
    requires SourceRoot(top) && ValidNames(ns)
    ensures PathOf(top, ns) == top + Slashed(ns)
    decreases |ns|
  {
    if ns != [] {
      var n, rest := ns[0], ns[1..];
      assert ValidName(n);
      assert n[0] != '/' && n[|n| - 1] != '/';
      var next := top + "/" + n;
      assert Join(top, n) == next;
      assert SourceRoot(next) by {
        assert next[|next| - 1] == n[|n| - 1];
      }
      assert ValidNames(rest) by {
        forall k | 0 <= k < |rest| ensures ValidName(rest[k]) {
          assert rest[k] == ns[k + 1];
        }
      }
      PathOfSlashed(next, rest);
      assert PathOf(top, ns) == PathOf(next, rest) == next + Slashed(rest);
      assert Slashed(ns) == "/" + n + Slashed(rest);
      assert next + Slashed(rest) == top + ("/" + n + Slashed(rest));
    }
  }

  /** The leading name of a path, up to its first '/'. */
  function LeadingName(w: string): string
    decreases |w|
  {
    if w == "" || w[0] == '/' then "" else [w[0]] + LeadingName(w[1..])
  }

  lemma {:induction false} LeadingNameOf(x: string, s: string)
    requires NoSlash(x) && (s == "" || s[0] == '/')
    ensures LeadingName(x + s) == x
    decreases |x|
  {
    if x == "" {
      assert x + s == s;
    } else {
      assert (x + s)[0] == x[0] && (x + s)[1..] == x[1..] + s;
      assert NoSlash(x[1..]) by {
        forall k | 0 <= k < |x[1..]| ensures x[1..][k] != '/' {
          assert x[1..][k] == x[k + 1];
        }
      }
      LeadingNameOf(x[1..], s);
      assert x == [x[0]] + x[1..];
    }
  }

  /** A slashed path is empty or starts with '/'. */
  lemma SlashedShape(ns: Names)
    ensures Slashed(ns) == "" || Slashed(ns)[0] == '/'
  {
  }

  lemma ValidNamesTail(ns: Names)
    requires ns != [] && ValidNames(ns)
    ensures ValidName(ns[0]) && ValidNames(ns[1..])
  {
    forall k | 0 <= k < |ns[1..]| ensures ValidName(ns[1..][k]) {
      assert ns[1..][k] == ns[k + 1];
    }
  }

  /** Slashed paths of valid names are equal only when the names are. */
  lemma {:induction false} SlashedInjective(a: Names, b: Names)
    requires ValidNames(a) && ValidNames(b) && Slashed(a) == Slashed(b)
    ensures a == b
    decreases |a|
  {
    if a != [] && b != [] {
      var x, y := a[0], b[0];
      var s, u := Slashed(a[1..]), Slashed(b[1..]);
      ValidNamesTail(a);
      ValidNamesTail(b);
      SlashedShape(a[1..]);
      SlashedShape(b[1..]);
      var w := Slashed(a)[1..];
      assert w == x + s by {
        assert Slashed(a) == "/" + (x + s);
      }
      assert w == y + u by {
        assert Slashed(b) == "/" + (y + u);
      }
      LeadingNameOf(x, s);
      LeadingNameOf(y, u);
      assert x == y;
      assert s == w[|x|..] == u;
      SlashedInjective(a[1..], b[1..]);
      assert a == [x] + a[1..] && b == [y] + b[1..];
    }
  }

  /** Every node below the tree is the source of an entry. */
  lemma NodesCovered(plan: seq<Entry>, src: string, t: Tree)
    requires SourcedFrom(plan, src, Nodes(t))
    ensures forall ns :: Below(t, ns) ==> exists i :: 0 <= i < |plan| && plan[i].source == PathOf(src, ns)
  {
    forall ns | Below(t, ns) ensures exists i :: 0 <= i < |plan| && plan[i].source == PathOf(src, ns) {
      NodesAreBelow(t, ns);
      var i :| 0 <= i < |Nodes(t)| && Nodes(t)[i] == ns;
      assert plan[i].source == PathOf(src, ns);
    }
  }

  /** Every entry comes from a node below the tree. */
  lemma OnlyNodes(plan: seq<Entry>, src: string, t: Tree)
    requires SourcedFrom(plan, src, Nodes(t))
    ensures forall i :: 0 <= i < |plan| ==> Below(t, Nodes(t)[i])
  {
    forall i | 0 <= i < |plan| ensures Below(t, Nodes(t)[i]) {
      NodesAreBelow(t, Nodes(t)[i]);
    }
  }

  /** Entries from distinct nodes below a source root have distinct sources. */
  lemma SourcesDistinct(plan: seq<Entry>, src: string, nodes: seq<Names>)
    requires SourceRoot(src) && SourcedFrom(plan, src, nodes) && NoDuplicates(nodes)
    requires forall ns :: ns in nodes ==> ValidNames(ns)
    ensures forall i, j :: 0 <= i < j < |plan| ==> plan[i].source != plan[j].source
  {
    forall i, j | 0 <= i < j < |plan| ensures plan[i].source != plan[j].source {
      assert nodes[i] in nodes && nodes[j] in nodes;
      PathOfSlashed(src, nodes[i]);
      PathOfSlashed(src, nodes[j]);
      if plan[i].source == plan[j].source {
        assert Slashed(nodes[i]) == plan[i].source[|src|..] == Slashed(nodes[j]);
        SlashedInjective(nodes[i], nodes[j]);
        assert false;
      }
    }
  }

  /** Every directory and file below the source is the source of an entry of the plan: one log line each. */
  lemma PlanCoversTree(root: string, src: string, t: Tree)
    ensures var plan := Plan(root, src, t);
      forall ns :: Below(t, ns) ==> exists i :: 0 <= i < |plan| && plan[i].source == PathOf(src, ns)
    ensures |Plan(root, src, t)| == |Lines(Plan(root, src, t))| == Descendants(t)
  {
    WalkSources(root, src, src, t);
    NodesCovered(Plan(root, src, t), src, t);
    WalkEntryCount(root, src, src, t);
  }

  /** Entry `i` of the plan comes from the `i`-th node below the source in walk order, and from nowhere else. */
  lemma PlanSources(root: string, src: string, t: Tree)
    ensures var plan := Plan(root, src, t);
      |plan| == |Nodes(t)| &&
      forall i :: 0 <= i < |plan| ==> Below(t, Nodes(t)[i]) && plan[i].source == PathOf(src, Nodes(t)[i])
  {
    WalkSources(root, src, src, t);
    OnlyNodes(Plan(root, src, t), src, t);
  }

  /** No directory or file below the source is handled twice. */
  lemma PlanSourcesDistinct(root: string, src: string, t: Tree)
    requires SourceRoot(src) && WellFormed(t)
    ensures var plan := Plan(root, src, t);
      forall i, j :: 0 <= i < j < |plan| ==> plan[i].source != plan[j].source
  {
    WalkSources(root, src, src, t);
    NodesGood(t);
    SourcesDistinct(Plan(root, src, t), src, Nodes(t));
  }

  /** `os.path.join` onto a fixed root is one-to-one on relative paths. */
  lemma JoinInjective(root: string, r1: string, r2: string)
    requires r1 != "" && r1[0] != '/' && r2 != "" && r2[0] != '/'
    requires Join(root, r1) == Join(root, r2)
    ensures r1 == r2
  {
    if root == "" || root[|root| - 1] == '/' {
      assert r1 == Join(root, r1)[|root|..];
    } else {
      assert r1 == Join(root, r1)[|root| + 1..];
    }
  }

  /** The relative path of an entry that comes from node `ns` is `ns` joined with '/'. */
  lemma RelOfNode(src: string, ns: Names, e: Entry)
    requires SourceRoot(src) && ns != [] && ValidNames(ns)
    requires e.source == PathOf(src, ns) && e.source == src + "/" + e.rel
    ensures "/" + e.rel == Slashed(ns) && e.rel != "" && e.rel[0] != '/'
  {
    PathOfSlashed(src, ns);
    var sl := Slashed(ns);
    assert src + sl == src + ("/" + e.rel);
    assert sl == (src + sl)[|src|..] == (src + ("/" + e.rel))[|src|..] == "/" + e.rel;
    ValidNamesTail(ns);
    var r := ns[0] + Slashed(ns[1..]);
    assert sl == "/" + r;
    assert e.rel == ("/" + e.rel)[1..] == ("/" + r)[1..] == r;
    assert e.rel[0] == ns[0][0];
  }

  /** No two entries of the plan of a well-formed tree are restored to the same target. */
  lemma PlanTargetsDistinct(root: string, src: string, t: Tree)
    requires SourceRoot(src) && WellFormed(t)
    ensures var plan := Plan(root, src, t);
      forall i, j :: 0 <= i < j < |plan| ==> plan[i].target != plan[j].target
  {
    var plan := Plan(root, src, t);
    var nodes := Nodes(t);
    WalkSources(root, src, src, t);
    NodesGood(t);
    PlanRerooted(root, src, t);
    forall i, j | 0 <= i < j < |plan| ensures plan[i].target != plan[j].target {
      var ei, ej := plan[i], plan[j];
      assert ei in plan && ej in plan;
      assert nodes[i] in nodes && nodes[j] in nodes;
      RelOfNode(src, nodes[i], ei);
      RelOfNode(src, nodes[j], ej);
      if ei.target == ej.target {
        JoinInjective(root, ei.rel, ej.rel);
        SlashedInjective(nodes[i], nodes[j]);
        assert false;
      }
    }
  }
}
