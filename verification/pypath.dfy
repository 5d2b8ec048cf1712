/**
 * The few pieces of Python's `os.path` (POSIX flavour) and `str` that the
 * keystore tool relies on, written out so that the model computes exactly
 * the strings the program computes.
 */
module PyPath {

  /** `s.rfind(c)` for a single character: the last index of `c`, or -1. */
  function RFind(s: string, c: char): (r: int)
    ensures -1 <= r < |s|
    ensures r >= 0 ==> s[r] == c
    ensures forall i :: r < i < |s| ==> s[i] != c
  {
    if |s| == 0 then -1
    else if s[|s| - 1] == c then |s| - 1
    else RFind(s[..|s| - 1], c)
  }

  /** `s.find(c)` for a single character: the first index of `c`, or -1. */
  function Find(s: string, c: char): (r: int)
    ensures -1 <= r < |s|
    ensures r >= 0 ==> s[r] == c
    ensures forall i :: 0 <= i < |s| && (r < 0 || i < r) ==> s[i] != c
  {
    if |s| == 0 then -1
    else if s[0] == c then 0
    else
      var k := Find(s[1..], c);
      if k < 0 then -1 else k + 1
  }

  /** `s` holds no '/': it is a single path component. */
  predicate NoSlash(s: string)
  {
    forall i :: 0 <= i < |s| ==> s[i] != '/'
  }

  /** `os.path.basename(p)`: everything after the last '/'. */
  function Basename(p: string): (b: string)
    ensures NoSlash(b)
    ensures |b| <= |p| && b == p[|p| - |b|..]
  {
    p[RFind(p, '/') + 1..]
  }

  /** Some character of `p[lo..hi]` is not a dot. */
  predicate HasNonDot(p: string, lo: int, hi: int)
    requires 0 <= lo <= hi <= |p|
  {
    exists i :: lo <= i < hi && p[i] != '.'
  }

  /**
   * `os.path.splitext(p)[0]`: `p` without its last extension. The extension
   * starts at the last dot after the last '/', and only counts when some
   * character other than a dot precedes that dot in the last component
   * (so a leading run of dots is not an extension).
   */
  function SplitExtRoot(p: string): string
  {
    var sep := RFind(p, '/');
    var dot := RFind(p, '.');
    if dot > sep && HasNonDot(p, sep + 1, dot) then p[..dot] else p
  }

  /** Every dot of `name` is preceded only by dots. */
  predicate OnlyLeadingDots(name: string)
  {
    forall i, j :: 0 <= j < i < |name| && name[i] == '.' ==> name[j] == '.'
  }

  /**
   * `name == stem + ext` is the splitting `splitext` is documented to make:
   * `ext` is empty exactly when every dot is part of a leading run of dots,
   * and otherwise it is a dot followed by no further dot.
   */
  predicate ExtensionSplit(name: string, stem: string, ext: string)
  {
    && name == stem + ext
    && (ext == "" <==> OnlyLeadingDots(name))
    && (ext != "" ==> ext[0] == '.' && '.' !in ext[1..])
  }

  /** The last '/' of `x + y` lies in `y` when `y` has one. */
  lemma {:induction false} RFindAppend(x: string, y: string, c: char)
    ensures RFind(x + y, c) == if RFind(y, c) >= 0 then |x| + RFind(y, c) else RFind(x, c)
    decreases |y|
  {
    if |y| > 0 {
      assert (x + y)[..|x + y| - 1] == x + y[..|y| - 1];
      if y[|y| - 1] != c {
        RFindAppend(x, y[..|y| - 1], c);
      }
    } else {
      assert x + y == x;
    }
  }

  /** A character that does not occur is not found. */
  lemma {:induction false} RFindAbsent(s: string, c: char)
    requires forall i :: 0 <= i < |s| ==> s[i] != c
    ensures RFind(s, c) == -1
    decreases |s|
  {
    if |s| > 0 {
      RFindAbsent(s[..|s| - 1], c);
    }
  }

  /** Directory components never reach the basename: `basename(d + "/" + b) == basename(b)`. */
  lemma BasenameOfChild(d: string, b: string)
    ensures Basename(d + "/" + b) == Basename(b)
  {
    var x := d + "/";
    assert d + "/" + b == x + b;
    RFindAppend(x, b, '/');
    var k := RFind(b, '/');
    if k >= 0 {
      assert (x + b)[|x| + k + 1..] == b[k + 1..];
    } else {
      assert RFind(x, '/') == |x| - 1;
      assert (x + b)[|x|..] == b;
    }
  }

  /** A basename is its own basename. */
  lemma BasenameIdempotent(p: string)
    ensures Basename(Basename(p)) == Basename(p)
  {
    var b := Basename(p);
    assert RFind(b, '/') == -1;
  }

  /** What `splitext` does to a name that holds no '/' (a basename). */
  lemma {:induction false} SplitExtOfName(name: string)
    requires NoSlash(name)
    ensures var stem := SplitExtRoot(name);
      stem <= name && ExtensionSplit(name, stem, name[|stem|..])
  {
    assert RFind(name, '/') == -1;
    var dot := RFind(name, '.');
    if dot >= 0 && HasNonDot(name, 0, dot) {
      SplitAtLastDot(name, dot);
    } else {
      NoExtension(name, dot);
      assert name[|name|..] == "";
    }
  }

  /** A last dot with a non-dot before it starts the extension. */
  lemma SplitAtLastDot(name: string, dot: nat)
    requires dot < |name| && name[dot] == '.' && forall i :: dot < i < |name| ==> name[i] != '.'
    requires HasNonDot(name, 0, dot)
    ensures ExtensionSplit(name, name[..dot], name[dot..])
  {
    var ext := name[dot..];
    assert name == name[..dot] + ext;
    assert forall k :: 0 <= k < |ext[1..]| ==> ext[1..][k] == name[dot + 1 + k];
    var j :| 0 <= j < dot && name[j] != '.';
    assert !OnlyLeadingDots(name) by {
      assert 0 <= j < dot < |name| && name[dot] == '.' && name[j] != '.';
    }
  }

  /** Without a non-dot before the last dot there is no extension. */
  lemma NoExtension(name: string, dot: int)
    requires -1 <= dot < |name| && (dot >= 0 ==> name[dot] == '.')
    requires forall i :: dot < i < |name| ==> name[i] != '.'
    requires !(dot >= 0 && HasNonDot(name, 0, dot))
    ensures ExtensionSplit(name, name, "")
  {
    assert name == name + "";
    forall i, j | 0 <= j < i < |name| && name[i] == '.'
      ensures name[j] == '.'
    {
      assert i <= dot;
      assert !HasNonDot(name, 0, dot);
    }
  }

  /** `os.path.join(a, b)`: an absolute `b` replaces `a`; otherwise one '/' separates them. */
  function Join(a: string, b: string): string
  {
    if |b| > 0 && b[0] == '/' then b
    else if a == "" || a[|a| - 1] == '/' then a + b
    else a + "/" + b
  }

  /** `s.rstrip("/")` */
  function RStripSlashes(s: string): (r: string)
    ensures r <= s
  {
    if |s| > 0 && s[|s| - 1] == '/' then RStripSlashes(s[..|s| - 1]) else s
  }

  /** `s.lstrip("/")` */
  function LStripSlashes(s: string): (r: string)
    ensures |r| <= |s|
    ensures r == "" || r[0] != '/'
  {
    if |s| > 0 && s[0] == '/' then LStripSlashes(s[1..]) else s
  }

  /** `lstrip("/")` removes a leading run of slashes and nothing else. */
  lemma {:induction false} LStripSlashesRemovesSlashes(s: string)
    ensures var r := LStripSlashes(s);
      s == s[..|s| - |r|] + r && forall i :: 0 <= i < |s| - |r| ==> s[i] == '/'
  {
    if |s| > 0 && s[0] == '/' {
      var t := s[1..];
      LStripSlashesRemovesSlashes(t);
      var r := LStripSlashes(s);
      assert r == LStripSlashes(t);
      var k := |t| - |r|;
      assert t == t[..k] + r;
      assert s[..k + 1] == [s[0]] + t[..k];
      assert s == s[..k + 1] + s[k + 1..] && s[k + 1..] == t[k..] == r;
      forall i | 0 <= i < k + 1 ensures s[i] == '/' {
        if i > 0 {
          assert s[i] == t[i - 1];
        }
      }
    }
  }

  /** `os.path.dirname(p)`: the part before the last '/', trailing slashes removed unless only slashes remain. */
  function Dirname(p: string): string
  {
    var head := p[..RFind(p, '/') + 1];
    if head != "" && exists i :: 0 <= i < |head| && head[i] != '/' then RStripSlashes(head) else head
  }

  /**
   * `s.replace(pat, "")`: every non-overlapping occurrence of `pat`,
   * scanning from the left, removed (an empty `pat` changes nothing).
   */
  function RemoveAll(s: string, pat: string): string
    decreases |s|
  {
    if |pat| == 0 || |s| < |pat| then s
    else if s[..|pat|] == pat then RemoveAll(s[|pat|..], pat)
    else [s[0]] + RemoveAll(s[1..], pat)
  }

  /** `needle` occurs in `hay` starting at index `i`. */
  predicate OccursAt(hay: string, needle: string, i: int)
  {
    0 <= i <= |hay| - |needle| && hay[i..i + |needle|] == needle
  }

  /** `needle in hay` for strings. */
  predicate Contains(hay: string, needle: string)
  {
    exists i | 0 <= i <= |hay| - |needle| :: OccursAt(hay, needle, i)
  }

  /** Removing a pattern that does not occur leaves the string unchanged. */
  lemma {:induction false} RemoveAllAbsent(s: string, pat: string)
    requires pat != "" && !Contains(s, pat)
    ensures RemoveAll(s, pat) == s
    decreases |s|
  {
    if |s| >= |pat| {
      assert !OccursAt(s, pat, 0);
      forall i | 0 <= i <= |s[1..]| - |pat| ensures !OccursAt(s[1..], pat, i) {
        assert s[1..][i..i + |pat|] == s[i + 1..i + 1 + |pat|];
        assert !OccursAt(s, pat, i + 1);
      }
      RemoveAllAbsent(s[1..], pat);
    }
  }

  function DigitChar(d: nat): char
    requires d < 10
  {
    (48 + d) as char
  }

  /** The digits of `n` in `base`, most significant first, without leading zeros. */
  function Numeral(n: nat, base: nat): string
    requires 2 <= base <= 10
    decreases n
  {
    if n < base then [DigitChar(n)] else Numeral(n / base, base) + [DigitChar(n % base)]
  }

  /** `str(n)` for a non-negative `n`. */
  function Str(n: nat): string
  {
    Numeral(n, 10)
  }

  /** Python 3's `oct(n)` for a non-negative `n`. */
  function Oct(n: nat): string
  {
    "0o" + Numeral(n, 8)
  }

  /** The number that the digit string `s` denotes in `base`. */
  function ValueOf(s: string, base: nat): int
    decreases |s|
  {
    if s == "" then 0 else ValueOf(s[..|s| - 1], base) * base + (s[|s| - 1] as int - 48)
  }

  /** A well-formed numeral: digits below `base` with no leading zero. */
  predicate IsNumeral(s: string, base: nat)
  {
    && s != []
    && (forall i :: 0 <= i < |s| ==> 48 <= s[i] as int < 48 + base)
    && (|s| > 1 ==> s[0] != '0')
  }

  /** Appending a digit below `base` to a numeral of `q > 0` gives a numeral of `q * base + d`. */
  lemma AppendDigit(hi: string, q: nat, d: nat, base: nat)
    requires 2 <= base <= 10 && d < base && q > 0
    requires IsNumeral(hi, base) && ValueOf(hi, base) == q
    ensures IsNumeral(hi + [DigitChar(d)], base) && ValueOf(hi + [DigitChar(d)], base) == q * base + d
  {
    var s := hi + [DigitChar(d)];
    assert s[..|s| - 1] == hi;
    assert s[0] == hi[0];
    if |hi| == 1 {
      assert ValueOf(hi, base) == hi[0] as int - 48 by {
        assert hi[..0] == "";
      }
    }
    forall i | 0 <= i < |s| ensures 48 <= s[i] as int < 48 + base {
      if i < |hi| {
        assert s[i] == hi[i];
      }
    }
  }

  /** `Numeral` writes a well-formed numeral that denotes `n`. */
  lemma {:induction false} NumeralValue(n: nat, base: nat)
    requires 2 <= base <= 10
    ensures IsNumeral(Numeral(n, base), base) && ValueOf(Numeral(n, base), base) == n
    decreases n
  {
    if n < base {
      assert Numeral(n, base)[..0] == "";
    } else {
      var q, d := n / base, n % base;
      assert n == q * base + d && q > 0;
      NumeralValue(q, base);
      AppendDigit(Numeral(q, base), q, d, base);
    }
  }

  /** `str(n)` is the decimal numeral of `n`. */
  lemma StrValue(n: nat)
    ensures IsNumeral(Str(n), 10) && ValueOf(Str(n), 10) == n
  {
    NumeralValue(n, 10);
  }

  /** `oct(n)` is "0o" followed by the octal numeral of `n`. */
  lemma OctValue(n: nat)
    ensures Oct(n)[..2] == "0o" && IsNumeral(Oct(n)[2..], 8) && ValueOf(Oct(n)[2..], 8) == n
  {
    NumeralValue(n, 8);
    assert Oct(n)[2..] == Numeral(n, 8);
  }

  /** Distinct numbers are written differently. */
  lemma StrInjective(m: nat, n: nat)
    requires Str(m) == Str(n)
    ensures m == n
  {
    StrValue(m);
    StrValue(n);
  }
}
