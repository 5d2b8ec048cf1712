/**
 * How a keystore is named and found: the canonical name derived from a
 * user-supplied path, the device-mapper and mount paths derived from that
 * name, and the "is it attached" probe (keystore/fs.py).
 */
module Naming {
  import opened PyPath
  import opened Files

  /** The literal every canonical name starts with. */
  const Prefix: string := "keystore-"

  /** `KeystoreFS.MNT_PREFIX` */
  const MntPrefix: string := "/mnt"

  /** The basename of `path` without its last extension. */
  function Stem(path: string): string
  {
    SplitExtRoot(Basename(path))
  }

  /** `KeystoreFS.normalize_name` */
  function NormalizeName(path: string): string
  {
    Prefix + Stem(path)
  }

  /** `KeystoreFS.__init__`: `os.path.join("/dev", "mapper", name)` */
  function MapperPath(name: string): string
  {
    Join(Join("/dev", "mapper"), name)
  }

  /** `KeystoreFS.__init__`: `"{}/{}".format(MNT_PREFIX, name)` */
  function MntPath(name: string): string
  {
    MntPrefix + "/" + name
  }

  /** `KeystoreFS.attached`: the mapper entry exists or the mount directory exists. */
  predicate Attached(fs: FileSystem, name: string)
  {
    ("/dev/mapper/" + name) in fs || (MntPrefix + "/" + name) in fs
  }

  /** The stem of a path holds no '/' and is a prefix of its basename. */
  lemma StemOfBasename(path: string)
    ensures NoSlash(Stem(path)) && Stem(path) <= Basename(path)
    ensures ExtensionSplit(Basename(path), Stem(path), Basename(path)[|Stem(path)|..])
  {
    SplitExtOfName(Basename(path));
  }

  /**
   * A canonical name is "keystore-" followed by the basename of the path
   * with its last extension (if any) cut off, a leading run of dots not
   * counting as one.
   */
  lemma NormalizeNameStripsExtension(path: string)
    ensures var n := NormalizeName(path);
      Prefix <= n && NoSlash(n) &&
      ExtensionSplit(Basename(path), n[|Prefix|..], Basename(path)[|n| - |Prefix|..])
  {
    StemOfBasename(path);
    var n := NormalizeName(path);
    assert n[|Prefix|..] == Stem(path);
  }

  /** Directory components of the path never affect the canonical name. */
  lemma NormalizeNameIgnoresDirectories(dir: string, base: string)
    ensures NormalizeName(dir + "/" + base) == NormalizeName(base)
    ensures NormalizeName(base) == NormalizeName(Basename(base))
  {
    BasenameOfChild(dir, base);
    BasenameIdempotent(base);
  }

  /** "keystore-" holds neither a dot nor a slash, and its only '-' is its last character. */
  lemma PrefixCharacters()
    ensures forall i :: 0 <= i < |Prefix| ==> Prefix[i] != '.' && Prefix[i] != '/'
    ensures forall i :: 0 <= i < |Prefix| - 1 ==> Prefix[i] != '-'
    ensures Prefix[|Prefix| - 1] == '-'
  {
  }

  /** A string every one of whose first characters repeats nine places later contains no dot. */
  lemma {:induction false} NoDotInSelfPrefixed(s: string, i: nat)
    requires s <= Prefix + s
    requires i < |s|
    ensures s[i] != '.'
    decreases i
  {
    assert s[i] == (Prefix + s)[i];
    PrefixCharacters();
    if i >= |Prefix| {
      NoDotInSelfPrefixed(s, i - |Prefix|);
    }
  }

  /** A single path component is its own basename. */
  lemma BasenameOfComponent(s: string)
    requires NoSlash(s)
    ensures Basename(s) == s
  {
    assert RFind(s, '/') == -1;
  }

  /** In a string that is a prefix of itself with "keystore-" in front, the character after it is no dot. */
  lemma NoDotAfterSelfPrefixed(s: string)
    requires s <= Prefix + s
    ensures (Prefix + s)[|s|] != '.'
  {
    PrefixCharacters();
    if |s| >= |Prefix| {
      NoDotInSelfPrefixed(s, |s| - |Prefix|);
      assert (Prefix + s)[|s|] == s[|s| - |Prefix|];
    }
  }

  /** Where a stem is the string it came from minus nine characters, the cut starts at a dot. */
  lemma CutStartsWithDot(n: string, s: string)
    requires NoSlash(n) && n == Prefix + s
    requires SplitExtRoot(n) == s
    ensures s <= n && n[|s|] == '.'
  {
    SplitExtOfName(n);
    var ext := n[|s|..];
    assert |ext| == |Prefix|;
    assert ext[0] == '.';
  }

  /**
   * `normalize_name` never maps a canonical name to itself: applying it
   * twice always gives a different, doubly prefixed, name.
   */
  lemma NormalizeNameNotIdempotent(path: string)
    ensures NormalizeName(NormalizeName(path)) != NormalizeName(path)
  {
    var s := Stem(path);
    var n := Prefix + s;
    assert n == NormalizeName(path);
    NormalizeNameStripsExtension(path);
    BasenameOfComponent(n);
    assert NormalizeName(n) == Prefix + SplitExtRoot(n);
    if SplitExtRoot(n) == s {
      CutStartsWithDot(n, s);
      NoDotAfterSelfPrefixed(s);
    }
  }

  /** Normalizing the canonical name "keystore-foo" again gives "keystore-keystore-foo". */
  lemma DoubleNormalizeExample()
    ensures NormalizeName(Prefix + "foo") == Prefix + (Prefix + "foo")
  {
    var p := Prefix + "foo";
    assert NoSlash(p);
    BasenameOfComponent(p);
    RFindAbsent(p, '.');
  }

  /**
   * The two paths `__init__` derives for a canonical name are exactly the
   * two paths `attached` probes for that name.
   */
  lemma ProbedPathsAreHandlePaths(fs: FileSystem, path: string)
    ensures var n := NormalizeName(path);
      MapperPath(n) == "/dev/mapper/" + n && MntPath(n) == "/mnt/" + n &&
      (Attached(fs, n) <==> MapperPath(n) in fs || MntPath(n) in fs)
  {
    var n := NormalizeName(path);
    assert Join("/dev", "mapper") == "/dev/mapper";
    assert n[0] == 'k';
  }

  /** `name.split("-", 1)[1]`: what follows the first '-'. */
  function DetachHint(name: string): string
    requires Find(name, '-') >= 0
  {
    name[Find(name, '-') + 1..]
  }

  /** The first '-' of a canonical name is the one closing "keystore-". */
  lemma FirstDashOfCanonical(s: string)
    ensures Find(Prefix + s, '-') == |Prefix| - 1
  {
    var n := Prefix + s;
    var k := Find(n, '-');
    PrefixCharacters();
    assert n[8] == '-';
    assert k >= 0 && k <= 8;
    assert forall i :: 0 <= i < 8 ==> n[i] == Prefix[i];
  }

  /** The detach hint printed after `create` is the stem of the keystore path. */
  lemma DetachHintIsStem(path: string)
    ensures Find(NormalizeName(path), '-') >= 0
    ensures DetachHint(NormalizeName(path)) == Stem(path)
  {
    FirstDashOfCanonical(Stem(path));
  }

  /** A component whose last dot follows a non-dot first character loses everything from that dot. */
  lemma StemAtLastDot(b: string, d: nat)
    requires NoSlash(b) && 0 < d < |b| && b[d] == '.' && b[0] != '.'
    requires forall i :: d < i < |b| ==> b[i] != '.'
    ensures Stem(b) == b[..d]
  {
    BasenameOfComponent(b);
    assert RFind(b, '/') == -1;
    assert RFind(b, '.') == d;
    assert HasNonDot(b, 0, d);
  }

  /** `s` holds no '.'. */
  predicate NoDot(s: string)
  {
    forall i :: 0 <= i < |s| ==> s[i] != '.'
  }

  /** `x.e` is a single component with no dot after the one joining `x` and `e`. */
  lemma DottedShape(x: string, e: string)
    requires NoSlash(x) && NoSlash(e) && NoDot(e)
    ensures NoSlash(x + "." + e)
    ensures forall i :: |x| < i < |x + "." + e| ==> (x + "." + e)[i] != '.'
  {
    var b := x + "." + e;
    forall i | 0 <= i < |b|
      ensures b[i] != '/'
      ensures |x| < i ==> b[i] != '.'
    {
      if i > |x| {
        assert b[i] == e[i - |x| - 1];
      } else if i < |x| {
        assert b[i] == x[i];
      }
    }
  }

  /** Cutting at the last dot: `x.e` has stem `x` when `x` starts with a non-dot and `e` has no dot. */
  lemma StemOfDotted(x: string, e: string)
    requires x != "" && x[0] != '.' && NoSlash(x)
    requires NoSlash(e) && NoDot(e)
    ensures Stem(x + "." + e) == x
  {
    var b := x + "." + e;
    DottedShape(x, e);
    StemAtLastDot(b, |x|);
    assert b[..|x|] == x;
  }

  /** A path whose last component is `h.e` normalizes to "keystore-h". */
  lemma NormalizeDottedPath(dir: string, h: string, e: string)
    requires h != "" && h[0] != '.' && NoSlash(h)
    requires NoSlash(e) && NoDot(e)
    ensures NormalizeName(dir + "/" + (h + "." + e)) == Prefix + h
  {
    NormalizeNameIgnoresDirectories(dir, h + "." + e);
    BasenameOfComponent(h + "." + e);
    DottedShape(h, e);
    StemOfDotted(h, e);
  }

  /**
   * As written, the hint does not name the keystore when the stem holds a
   * dot: for a keystore file `dir/x.y.e` (for instance "/root/my.keys.img")
   * the keystore is "keystore-x.y" but the hint "x.y" normalizes to
   * "keystore-x".
   */
  lemma DetachHintMissesDottedStem(dir: string, x: string, y: string, e: string)
    requires x != "" && NoDot(x) && NoDot(y) && NoDot(e)
    requires NoSlash(x) && NoSlash(y) && NoSlash(e)
    ensures var p := dir + "/" + ((x + "." + y) + "." + e);
      Find(NormalizeName(p), '-') >= 0 &&
      NormalizeName(p) == Prefix + (x + "." + y) &&
      NormalizeName(DetachHint(NormalizeName(p))) == Prefix + x &&
      NormalizeName(DetachHint(NormalizeName(p))) != NormalizeName(p)
  {
    var h := x + "." + y;
    var p := dir + "/" + (h + "." + e);
    DottedShape(x, y);
    assert h[0] == x[0];
    NormalizeDottedPath(dir, h, e);
    DetachHintIsStem(p);
    assert Stem(p) == h;
    StemOfDotted(x, y);
    assert NormalizeName(h) == Prefix + x;
    assert |Prefix + h| != |Prefix + x|;
  }

  /** The detach hint as evidently intended: a name that `detach` normalizes to the keystore's. */
  function CorrectedDetachHint(path: string): string
  {
    Basename(path)
  }

  /** Passing the corrected hint to `detach` names the keystore that was created. */
  lemma CorrectedDetachHintRoundTrips(path: string)
    ensures NormalizeName(CorrectedDetachHint(path)) == NormalizeName(path)
  {
    BasenameIdempotent(path);
  }
}
