/**
 * The POSIX path helpers the converter calls: `os.path.basename`,
 * `os.path.splitext` and `os.path.join` with two arguments.
 */
module PyPath {
  import opened PyStr

  /** `s.rfind(c)`: the last index of `c` in `s`, or -1. */
  function RFind(s: string, c: char): (i: int)
    ensures -1 <= i < |s|
    ensures i >= 0 ==> s[i] == c
    ensures forall j :: i < j < |s| ==> s[j] != c
  {
    if s == [] then -1
    else if s[|s| - 1] == c then |s| - 1
    else RFind(s[..|s| - 1], c)
  }

  /** `os.path.basename(p)`: everything after the last "/". */
  function Basename(p: string): string {
    p[RFind(p, '/') + 1..]
  }

  /**
   * `os.path.splitext(p)`: splits at the last "." of the last path component,
   * unless every character before that dot in the component is a dot too
   * (".bashrc", "..csv" have no extension).
   */
  function Splitext(p: string): (string, string) {
    var sepIndex := RFind(p, '/');
    var dotIndex := RFind(p, '.');
    if dotIndex > sepIndex && exists i :: sepIndex < i < dotIndex && p[i] != '.'
    then (p[..dotIndex], p[dotIndex..])
    else (p, "")
  }

  /** `os.path.join(a, b)` */
  function PathJoin(a: string, b: string): string {
    if |b| > 0 && b[0] == '/' then b
    else if a == [] || a[|a| - 1] == '/' then a + b
    else a + "/" + b
  }

  /** The basename is the part of the path after its last separator. */
  lemma BasenameSplit(p: string)
    ensures var b := Basename(p);
      |b| <= |p| && p[..|p| - |b|] + b == p && '/' !in b &&
      (|b| < |p| ==> p[|p| - |b| - 1] == '/')
  {
    var i := RFind(p, '/');
    var b := Basename(p);
    assert b == p[i + 1..];
    forall k | 0 <= k < |b|
      ensures b[k] != '/'
    {
      assert b[k] == p[i + 1 + k];
    }
    assert p[..i + 1] + p[i + 1..] == p;
  }

  /**
   * `root + ext == p`; the extension is empty or a dot followed by no further
   * dot or separator, and a non-empty one leaves a root whose last component
   * has a character other than a dot.
   */
  lemma SplitextParts(p: string)
    ensures var (root, ext) := Splitext(p);
      root + ext == p &&
      (ext == [] || (ext[0] == '.' && '.' !in ext[1..] && '/' !in ext)) &&
      (ext != [] ==> exists i :: RFind(p, '/') < i < |root| && root[i] != '.')
  {
    var (root, ext) := Splitext(p);
    var sepIndex := RFind(p, '/');
    var dotIndex := RFind(p, '.');
    if ext != [] {
      assert ext == p[dotIndex..] && root == p[..dotIndex];
      forall j | 0 <= j < |ext|
        ensures ext[j] != '/' && (j > 0 ==> ext[j] != '.')
      {
        assert ext[j] == p[dotIndex + j];
      }
      assert '.' !in ext[1..] by {
        forall j | 0 <= j < |ext| - 1 ensures ext[1..][j] != '.' {
          assert ext[1..][j] == ext[j + 1];
        }
      }
    } else {
      assert root + ext == p;
    }
  }

  /** The root `splitext` returns is a prefix of the path. */
  lemma SplitextRootPrefix(p: string)
    ensures var root := Splitext(p).0;
      |root| <= |p| && root == p[..|root|] && forall c :: c in root ==> c in p
  {
    var root := Splitext(p).0;
    SplitextParts(p);
    assert root == p[..|root|];
    forall c | c in root
      ensures c in p
    {
      var i :| 0 <= i < |root| && root[i] == c;
      assert p[i] == c;
    }
  }

  /** A basename holds no separator. */
  lemma BasenameNoSeparator(p: string)
    ensures '/' !in Basename(p)
  {
    BasenameSplit(p);
  }

  /** A path that does not end in a separator has a non-empty basename. */
  lemma BasenameNonEmpty(p: string)
    requires p != [] && p[|p| - 1] != '/'
    ensures Basename(p) != []
  {
  }

  /** `splitext` never returns an empty root for a non-empty path. */
  lemma SplitextRootNonEmpty(p: string)
    requires p != []
    ensures Splitext(p).0 != []
  {
    SplitextParts(p);
  }

  /**
   * In a name without separators, a dot with no dot after it and a non-dot
   * before it is where `splitext` cuts.
   */
  lemma SplitextAtLastDot(p: string, d: int)
    requires 0 <= d < |p| && p[d] == '.' && '/' !in p
    requires forall j :: d < j < |p| ==> p[j] != '.'
    requires exists i :: 0 <= i < d && p[i] != '.'
    ensures Splitext(p) == (p[..d], p[d..])
  {
    assert RFind(p, '.') == d;
  }

  /**
   * A name without separators that ends in an extension "." + (no dots), with a
   * non-dot somewhere before it, splits into the rest of the name and that extension.
   */
  lemma SplitextKnownExt(p: string, ext: string)
    requires '/' !in p && EndsWith(p, ext) && ext != [] && ext[0] == '.' && '.' !in ext[1..]
    requires exists i :: 0 <= i < |p| - |ext| && p[i] != '.'
    ensures Splitext(p) == (p[..|p| - |ext|], ext)
  {
    var d := |p| - |ext|;
    assert p[d] == ext[0];
    forall j | d < j < |p|
      ensures p[j] != '.'
    {
      assert p[j] == ext[1..][j - d - 1];
    }
    SplitextAtLastDot(p, d);
  }
}
