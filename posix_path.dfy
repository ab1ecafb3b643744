/** The `os.path` functions of POSIX Python that the pipeline uses to build
    and take apart file names: `split`, `basename`, `join` and `splitext`. */
module PosixPath {
  import opened PyStr

  /** `s.rfind(c)`: the last position holding `c`, or -1. */
  function RFind(s: string, c: char): (i: int)
    ensures -1 <= i < |s|
    ensures i >= 0 ==> s[i] == c
    ensures forall k :: i < k < |s| ==> s[k] != c
    decreases |s|
  {
    if s == [] then -1
    else if s[|s| - 1] == c then |s| - 1
    else RFind(s[..|s| - 1], c)
  }

  /** `s.rstrip(c)` for one character. */
  function RStripChar(s: string, c: char): (r: string)
    ensures |r| <= |s| && r == s[..|r|]
    ensures r == [] || r[|r| - 1] != c
    ensures forall k :: |r| <= k < |s| ==> s[k] == c
    decreases |s|
  {
    if s != [] && s[|s| - 1] == c then RStripChar(s[..|s| - 1], c) else s
  }

  /** `os.path.basename(p)`: the text after the last slash. */
  function Basename(p: string): (b: string)
    ensures '/' !in b
    ensures EndsWith(p, b)
    ensures '/' !in p ==> b == p
  {
    p[RFind(p, '/') + 1..]
  }

  /** `os.path.split(p)`: the head (trailing slashes removed unless it is all
      slashes) and the basename. */
  function Split(p: string): (r: (string, string))
    ensures r.1 == Basename(p)
    ensures |r.0| + |r.1| <= |p| && r.0 == p[..|r.0|]
  {
    var i := RFind(p, '/') + 1;
    var head := p[..i];
    var stripped := RStripChar(head, '/');
    (if stripped == [] then head else stripped, p[i..])
  }

  /** `os.path.join(a, b)`: an absolute `b` replaces `a`; otherwise one slash
      separates them unless `a` is empty or already ends with one. */
  function Join(a: string, b: string): string
  {
    if StartsWith(b, "/") then b
    else if a == [] || EndsWith(a, "/") then a + b
    else a + "/" + b
  }

  /** A plain file name joined onto any directory is that path's basename. */
  lemma JoinBasename(a: string, b: string)
    requires '/' !in b
    ensures Basename(Join(a, b)) == b
  {
    var p := Join(a, b);
    var prefix := p[..|p| - |b|];
    assert p == prefix + b;
    assert prefix == [] || prefix[|prefix| - 1] == '/';
    assert forall k :: |prefix| <= k < |p| ==> p[k] == b[k - |prefix|];
    var i := RFind(p, '/');
    assert i < |prefix|;
    if prefix != [] {
      assert p[|prefix| - 1] == '/';
    }
  }

  /** Whether `p[sep+1 .. dot)` holds a character other than '.', the test
      `splitext` uses to ignore the leading dots of a file name. */
  predicate HasNonDot(p: string, from: int, to: int)
    requires 0 <= from && to <= |p|
  {
    exists k :: from <= k < to && p[k] != '.'
  }

  /** `os.path.splitext(p)`: split off the extension, the text from the last
      dot of the basename, unless that dot only follows leading dots. */
  function Splitext(p: string): (r: (string, string))
    ensures r.0 + r.1 == p
    ensures r.1 == [] || (r.1[0] == '.' && '/' !in r.1 && '.' !in r.1[1..])
  {
    var sep := RFind(p, '/');
    var dot := RFind(p, '.');
    if dot > sep && HasNonDot(p, sep + 1, dot) then
      assert forall k :: dot < k < |p| ==> p[k] != '.' && p[k] != '/';
      (p[..dot], p[dot..])
    else (p, "")
  }

  /** A name ending in a dot-free extension after a character that is neither
      a dot nor a slash splits into that stem and that extension. */
  lemma SplitextSuffix(q: string, e: string)
    requires |e| >= 2 && e[0] == '.' && '.' !in e[1..] && '/' !in e
    requires q != [] && q[|q| - 1] != '.' && q[|q| - 1] != '/'
    ensures Splitext(q + e) == (q, e)
  {
    var p := q + e;
    assert forall k :: |q| <= k < |p| ==> p[k] == e[k - |q|];
    assert forall k :: |q| < k < |p| ==> p[k] == e[1..][k - |q| - 1];
    var dot := RFind(p, '.');
    assert p[|q|] == '.';
    assert dot == |q|;
    var sep := RFind(p, '/');
    assert p[|q| - 1] == q[|q| - 1];
    assert sep < |q| - 1;
    assert HasNonDot(p, sep + 1, dot);
  }

  /** A directory as `split` returns it: empty, not ending in a slash, or made
      of slashes only. */
  predicate NormalHead(d: string) {
    d == [] || d[|d| - 1] != '/' || forall k :: 0 <= k < |d| ==> d[k] == '/'
  }

  /** The head `split` returns is always in that form. */
  lemma SplitHeadNormal(p: string)
    ensures NormalHead(Split(p).0)
  {
    var head := p[..RFind(p, '/') + 1];
    var stripped := RStripChar(head, '/');
    if stripped == [] {
      assert forall k :: 0 <= k < |head| ==> head[k] == '/';
    }
  }

  /** Joining a plain file name onto a directory in `split` form and
      splitting the result gives the directory and the name back. */
  lemma SplitJoin(d: string, b: string)
    requires NormalHead(d) && '/' !in b
    ensures Split(Join(d, b)) == (d, b)
  {
    JoinBasename(d, b);
    var p := Join(d, b);
    if |b| >= 1 {
      assert b[..1][0] == b[0] != '/';
    }
    if d == [] {
      assert p == b;
    } else if d[|d| - 1] == '/' {
      assert p == d + b;
      assert forall k :: |d| <= k < |p| ==> p[k] == b[k - |d|];
      assert RFind(p, '/') == |d| - 1;
      assert p[..|d|] == d;
      assert RStripChar(d, '/') == [];
    } else {
      assert p == d + "/" + b;
      assert forall k :: |d| < k < |p| ==> p[k] == b[k - |d| - 1];
      assert RFind(p, '/') == |d|;
      assert p[..|d| + 1] == d + "/";
      assert RStripChar(d + "/", '/') == RStripChar(d, '/');
    }
  }
}
