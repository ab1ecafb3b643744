/** The Python 2 `str` operations the pipeline relies on, with Python's own
    semantics: ASCII lower-casing, substring search, `split(sep)`, `split()`,
    `strip()`, `replace`, slicing and indexing with negative positions, and the
    `int()`/`float()` conversions of decimal text. */
module PyStr {
  import opened Wrappers

  // ---------------------------------------------------------------------------
  // Characters
  // ---------------------------------------------------------------------------

  /** The characters `str.split()` and `str.strip()` treat as whitespace. */
  predicate IsSpace(c: char) {
    c == ' ' || c == '\t' || c == '\n' || c == '\r' || c == '\U{0B}' || c == '\U{0C}'
  }

  predicate IsDigit(c: char) { '0' <= c <= '9' }

  predicate IsUpper(c: char) { 'A' <= c <= 'Z' }

  predicate AllSpace(s: string) { forall k :: 0 <= k < |s| ==> IsSpace(s[k]) }

  predicate NoSpace(s: string) { forall k :: 0 <= k < |s| ==> !IsSpace(s[k]) }

  predicate AllDigits(s: string) { forall k :: 0 <= k < |s| ==> IsDigit(s[k]) }

  function LowerChar(c: char): char {
    if IsUpper(c) then (c as int + 32) as char else c
  }

  /** `s.lower()` on a byte string: only the ASCII capitals change. */
  function Lower(s: string): (r: string)
    ensures |r| == |s|
    ensures forall k :: 0 <= k < |r| ==> !IsUpper(r[k])
    ensures forall k :: 0 <= k < |s| && !IsUpper(s[k]) ==> r[k] == s[k]
  {
    seq(|s|, k requires 0 <= k < |s| => LowerChar(s[k]))
  }

  // ---------------------------------------------------------------------------
  // Searching
  // ---------------------------------------------------------------------------

  predicate StartsWith(s: string, prefix: string) {
    |prefix| <= |s| && s[..|prefix|] == prefix
  }

  predicate EndsWith(s: string, suffix: string) {
    |suffix| <= |s| && s[|s| - |suffix|..] == suffix
  }

  /** `sub in s`, equivalently `s.find(sub) != -1`, as a left-to-right scan. */
  predicate Contains(s: string, sub: string)
    decreases |s|
  {
    |sub| <= |s| && (s[..|sub|] == sub || (|s| > 0 && Contains(s[1..], sub)))
  }

  predicate OccursAt(s: string, sub: string, i: int) {
    0 <= i <= |s| - |sub| && s[i..i + |sub|] == sub
  }

  /** The scan finds `sub` exactly when it occurs at some position of `s`. */
  lemma {:induction false} ContainsIsSubstring(s: string, sub: string)
    ensures Contains(s, sub) <==> exists i :: OccursAt(s, sub, i)
    decreases |s|
  {
    if |sub| > |s| {
    } else if s[..|sub|] == sub {
      assert OccursAt(s, sub, 0);
    } else if |s| == 0 {
    } else {
      ContainsIsSubstring(s[1..], sub);
      if Contains(s[1..], sub) {
        var i :| OccursAt(s[1..], sub, i);
        OccursShift(s, sub, i + 1);
      } else {
        forall i | OccursAt(s, sub, i) ensures OccursAt(s[1..], sub, i - 1) {
          assert i != 0 by {
            assert s[0..|sub|] == s[..|sub|];
          }
          OccursShift(s, sub, i);
        }
      }
    }
  }

  /** An occurrence past the first character is one in the rest of `s`. */
  lemma OccursShift(s: string, sub: string, i: int)
    requires |s| > 0 && i >= 1
    ensures OccursAt(s, sub, i) <==> OccursAt(s[1..], sub, i - 1)
  {
    if 0 <= i - 1 <= |s| - 1 - |sub| {
      assert s[1..][i - 1..i - 1 + |sub|] == s[i..i + |sub|];
    }
  }

  // ---------------------------------------------------------------------------
  // Splitting and joining
  // ---------------------------------------------------------------------------

  /** `sep.join(parts)`. */
  function Join(parts: seq<string>, sep: string): string
  {
    if |parts| == 0 then ""
    else if |parts| == 1 then parts[0]
    else parts[0] + sep + Join(parts[1..], sep)
  }

  /** `s.split(c)` for a one-character separator: never empty, and empty
      fields are kept. */
  function Split(s: string, c: char): (parts: seq<string>)
    ensures |parts| >= 1
    decreases |s|
  {
    if s == [] then [[]]
    else
      var rest := Split(s[1..], c);
      if s[0] == c then [[]] + rest else [[s[0]] + rest[0]] + rest[1..]
  }

  /** Joining the fields of `s.split(c)` with `c` gives `s` back, and no field
      holds the separator. */
  lemma {:induction false} SplitJoin(s: string, c: char)
    ensures Join(Split(s, c), [c]) == s
    ensures forall k :: 0 <= k < |Split(s, c)| ==> c !in Split(s, c)[k]
    decreases |s|
  {
    if s != [] {
      var rest := Split(s[1..], c);
      SplitJoin(s[1..], c);
      if s[0] == c {
        assert Split(s, c) == [[]] + rest;
        assert Split(s, c)[1..] == rest;
      } else {
        var parts := Split(s, c);
        assert parts == [[s[0]] + rest[0]] + rest[1..];
        if |rest| == 1 {
          assert Join(parts, [c]) == [s[0]] + rest[0];
        } else {
          assert parts[1..] == rest[1..];
          assert Join(rest, [c]) == rest[0] + [c] + Join(rest[1..], [c]);
        }
        forall k | 0 <= k < |parts| ensures c !in parts[k] {
          if k == 0 {
            assert c !in rest[0];
          } else {
            assert parts[k] == rest[k];
          }
        }
      }
    }
  }

  /** Length of the run of non-whitespace characters that starts `s`. */
  function WordLength(s: string): (n: nat)
    ensures n <= |s|
    ensures NoSpace(s[..n])
    ensures n == |s| || IsSpace(s[n])
    decreases |s|
  {
    if s == [] || IsSpace(s[0]) then 0 else 1 + WordLength(s[1..])
  }

  /** `s.split()`: the maximal runs of non-whitespace characters. */
  function Tokens(s: string): (ts: seq<string>)
    ensures forall k :: 0 <= k < |ts| ==> ts[k] != [] && NoSpace(ts[k])
    decreases |s|
  {
    if s == [] then []
    else if IsSpace(s[0]) then Tokens(s[1..])
    else
      var n := WordLength(s);
      [s[..n]] + Tokens(s[n..])
  }

  /** The characters of `s` that are not whitespace, in order. */
  function RemoveSpaces(s: string): string
    decreases |s|
  {
    if s == [] then [] else (if IsSpace(s[0]) then [] else [s[0]]) + RemoveSpaces(s[1..])
  }

  function Concat(ts: seq<string>): string
  {
    if ts == [] then [] else ts[0] + Concat(ts[1..])
  }

  lemma {:induction false} RemoveSpacesAppend(a: string, b: string)
    ensures RemoveSpaces(a + b) == RemoveSpaces(a) + RemoveSpaces(b)
    decreases |a|
  {
    if a != [] {
      assert (a + b)[1..] == a[1..] + b;
      RemoveSpacesAppend(a[1..], b);
    } else {
      assert a + b == b;
    }
  }

  lemma {:induction false} RemoveSpacesOfWord(w: string)
    requires NoSpace(w)
    ensures RemoveSpaces(w) == w
    decreases |w|
  {
    if w != [] {
      RemoveSpacesOfWord(w[1..]);
    }
  }

  /** `s.split()` loses exactly the whitespace: its tokens, run together, are
      the non-whitespace characters of `s`. */
  lemma {:induction false} TokensKeepAllText(s: string)
    ensures Concat(Tokens(s)) == RemoveSpaces(s)
    decreases |s|
  {
    if s == [] {
    } else if IsSpace(s[0]) {
      TokensKeepAllText(s[1..]);
    } else {
      var n := WordLength(s);
      TokensKeepAllText(s[n..]);
      assert s == s[..n] + s[n..];
      RemoveSpacesAppend(s[..n], s[n..]);
      RemoveSpacesOfWord(s[..n]);
      assert Tokens(s)[1..] == Tokens(s[n..]);
    }
  }

  /** Number of whitespace characters that start `s`. */
  function LeadingSpaces(s: string): (n: nat)
    ensures n <= |s| && AllSpace(s[..n])
    ensures n == |s| || !IsSpace(s[n])
    decreases |s|
  {
    if s != [] && IsSpace(s[0]) then 1 + LeadingSpaces(s[1..]) else 0
  }

  /** Position after the last non-whitespace character of `s`. */
  function TrailingStart(s: string): (n: nat)
    ensures n <= |s| && AllSpace(s[n..])
    ensures n == 0 || !IsSpace(s[n - 1])
    decreases |s|
  {
    if s != [] && IsSpace(s[|s| - 1]) then TrailingStart(s[..|s| - 1]) else |s|
  }

  /** `s.strip()`: the part of `s` between its leading and trailing whitespace. */
  function Strip(s: string): (r: string)
    ensures r == [] || (!IsSpace(r[0]) && !IsSpace(r[|r| - 1]))
    ensures |r| <= |s|
  {
    var t := s[LeadingSpaces(s)..];
    t[..TrailingStart(t)]
  }

  // ---------------------------------------------------------------------------
  // Replacing
  // ---------------------------------------------------------------------------

  /** `s.replace(pat, repl)`: left-to-right, non-overlapping. */
  function Replace(s: string, pat: string, repl: string): string
    requires |pat| > 0
    decreases |s|
  {
    if |s| < |pat| then s
    else if s[..|pat|] == pat then repl + Replace(s[|pat|..], pat, repl)
    else [s[0]] + Replace(s[1..], pat, repl)
  }

  /** Replacing one character by another is a pointwise substitution. */
  lemma {:induction false} ReplaceCharPointwise(s: string, a: char, b: char)
    ensures |Replace(s, [a], [b])| == |s|
    ensures forall k :: 0 <= k < |s| ==> Replace(s, [a], [b])[k] == (if s[k] == a then b else s[k])
    decreases |s|
  {
    if |s| > 0 {
      ReplaceCharPointwise(s[1..], a, b);
      var rest := Replace(s[1..], [a], [b]);
      assert s[..1] == [s[0]];
      assert Replace(s, [a], [b]) == [if s[0] == a then b else s[0]] + rest;
    }
  }

  /** Every occurrence of the character `c` in `s` replaced by the text `t`. */
  function SubstChar(s: string, c: char, t: string): string
    decreases |s|
  {
    if s == [] then [] else (if s[0] == c then t else [s[0]]) + SubstChar(s[1..], c, t)
  }

  lemma {:induction false} SubstCharAppend(a: string, b: string, c: char, t: string)
    ensures SubstChar(a + b, c, t) == SubstChar(a, c, t) + SubstChar(b, c, t)
    decreases |a|
  {
    if a == [] {
      assert a + b == b;
    } else {
      assert (a + b)[1..] == a[1..] + b;
      SubstCharAppend(a[1..], b, c, t);
    }
  }

  /** Replacing a one-character pattern substitutes character by character. */
  lemma {:induction false} ReplaceCharIsSubst(s: string, c: char, t: string)
    ensures Replace(s, [c], t) == SubstChar(s, c, t)
    decreases |s|
  {
    if s != [] {
      ReplaceCharIsSubst(s[1..], c, t);
      assert s[..1] == [s[0]];
    }
  }

  /** Text in which `pat` never occurs is left unchanged. */
  lemma {:induction false} ReplaceAbsent(s: string, pat: string, repl: string)
    requires |pat| > 0 && !Contains(s, pat)
    ensures Replace(s, pat, repl) == s
    decreases |s|
  {
    if |s| >= |pat| {
      ReplaceAbsent(s[1..], pat, repl);
      assert s == [s[0]] + s[1..];
    }
  }

  /** No match of `pat` starts inside `a` and runs on into `b`. */
  predicate NoMatchAcross(a: string, b: string, pat: string) {
    forall i :: 0 <= i < |a| ==> !StartsWith(a[i..] + b, pat) || i + |pat| <= |a|
  }

  /** Replacement distributes over a concatenation whose left part ends at a
      match boundary (its text holds no partial match running into the right
      part). */
  lemma {:induction false} ReplaceAppendNoOverlap(a: string, b: string, pat: string, repl: string)
    requires |pat| > 0
    requires NoMatchAcross(a, b, pat)
    ensures Replace(a + b, pat, repl) == Replace(a, pat, repl) + Replace(b, pat, repl)
    decreases |a|
  {
    if a == [] {
      assert a + b == b;
    } else if StartsWith(a + b, pat) {
      FrontMatch(a, b, pat, repl);
      var rest := a[|pat|..];
      ReplaceAppendNoOverlap(rest, b, pat, repl);
      ConcatAssoc(repl, Replace(rest, pat, repl), Replace(b, pat, repl));
    } else {
      FrontSkip(a, b, pat, repl);
      var rest := a[1..];
      ReplaceAppendNoOverlap(rest, b, pat, repl);
      ConcatAssoc([a[0]], Replace(rest, pat, repl), Replace(b, pat, repl));
    }
  }

  lemma ConcatAssoc(x: string, y: string, z: string)
    ensures x + (y + z) == (x + y) + z
  {
  }

  /** A match at the front of `a + b` lies inside `a`: both replacements
      consume it, and the condition carries over to the rest of `a`. */
  lemma FrontMatch(a: string, b: string, pat: string, repl: string)
    requires |pat| > 0 && a != [] && NoMatchAcross(a, b, pat) && StartsWith(a + b, pat)
    ensures |pat| <= |a|
    ensures Replace(a + b, pat, repl) == repl + Replace(a[|pat|..] + b, pat, repl)
    ensures Replace(a, pat, repl) == repl + Replace(a[|pat|..], pat, repl)
    ensures NoMatchAcross(a[|pat|..], b, pat)
  {
    var s := a + b;
    assert a[0..] + b == s;
    assert |pat| <= |a|;
    assert s[..|pat|] == a[..|pat|];
    assert s[|pat|..] == a[|pat|..] + b;
    NoOverlapAfter(a, b, pat, |pat|);
  }

  /** Without a match at the front of `a + b`, both replacements keep the
      first character of `a`. */
  lemma FrontSkip(a: string, b: string, pat: string, repl: string)
    requires |pat| > 0 && a != [] && NoMatchAcross(a, b, pat) && !StartsWith(a + b, pat)
    ensures Replace(a + b, pat, repl) == [a[0]] + Replace(a[1..] + b, pat, repl)
    ensures Replace(a, pat, repl) == [a[0]] + Replace(a[1..], pat, repl)
    ensures NoMatchAcross(a[1..], b, pat)
  {
    var s := a + b;
    assert s[1..] == a[1..] + b;
    if |a| >= |pat| {
      assert a[..|pat|] == s[..|pat|];
    }
    if |s| < |pat| {
      assert Replace(a[1..] + b, pat, repl) == a[1..] + b;
      assert Replace(a[1..], pat, repl) == a[1..];
    }
    NoOverlapAfter(a, b, pat, 1);
  }

  /** The no-overlap condition holds of every suffix of `a`. */
  lemma NoOverlapAfter(a: string, b: string, pat: string, d: nat)
    requires d <= |a|
    requires NoMatchAcross(a, b, pat)
    ensures NoMatchAcross(a[d..], b, pat)
  {
    forall i | 0 <= i < |a[d..]|
      ensures !StartsWith(a[d..][i..] + b, pat) || i + |pat| <= |a[d..]|
    {
      assert a[d..][i..] == a[i + d..];
    }
  }

  // ---------------------------------------------------------------------------
  // Slicing and indexing
  // ---------------------------------------------------------------------------

  /** Where a slice bound lands: negative bounds count from the end, and both
      ends are clamped to the sequence. */
  function SliceBound(i: int, n: nat): (k: nat)
    ensures k <= n
    ensures 0 <= i <= n ==> k == i
    ensures i < 0 && 0 <= i + n ==> k == i + n
  {
    var m: int := n;
    if i + m < 0 then 0 else if i < 0 then i + m else if i > m then n else i
  }

  /** `s[lo:hi]`. */
  function Slice<T>(s: seq<T>, lo: int, hi: int): seq<T>
  {
    var a := SliceBound(lo, |s|);
    var b := SliceBound(hi, |s|);
    if a <= b then s[a..b] else []
  }

  /** `s[-n:]`, for `n > 0`, is the last `n` elements, or all of `s` when it
      is shorter. */
  lemma SliceTail<T>(s: seq<T>, n: int)
    requires n > 0
    ensures Slice(s, -n, |s|) == if n <= |s| then s[|s| - n..] else s
  {
    assert SliceBound(|s|, |s|) == |s|;
    if n <= |s| {
      assert SliceBound(-n, |s|) == |s| - n;
    } else {
      assert SliceBound(-n, |s|) == 0;
    }
  }

  /** `s[-n:] == t` for an `n`-character `t` holds exactly when `s` ends with `t`. */
  lemma SliceTailMatches(s: string, t: string)
    requires |t| > 0
    ensures Slice(s, -(|t| as int), |s|) == t <==> EndsWith(s, t)
  {
    SliceTail(s, |t|);
  }

  /** `s[i]`: negative positions count from the end; out of range is an
      IndexError. */
  function Index<T>(s: seq<T>, i: int): (r: Result<T>)
    ensures r.Ok? <==> -|s| <= i < |s|
    ensures 0 <= i < |s| ==> r == Ok(s[i])
    ensures -|s| <= i < 0 ==> r == Ok(s[|s| + i])
  {
    if 0 <= i < |s| then Ok(s[i])
    else if -|s| <= i < 0 then Ok(s[|s| + i])
    else Err(IndexError)
  }

  // ---------------------------------------------------------------------------
  // Numbers as text
  // ---------------------------------------------------------------------------

  function DigitChar(d: nat): char
    requires d < 10
  {
    ['0', '1', '2', '3', '4', '5', '6', '7', '8', '9'][d]
  }

  function DigitValue(c: char): nat
    requires IsDigit(c)
  {
    c as int - '0' as int
  }

  /** Value of a run of decimal digits, most significant first. */
  function DigitsValue(ds: string): nat
    requires AllDigits(ds)
    decreases |ds|
  {
    if ds == [] then 0 else DigitsValue(ds[..|ds| - 1]) * 10 + DigitValue(ds[|ds| - 1])
  }

  function NatToString(n: nat): (s: string)
    ensures s != [] && AllDigits(s)
    decreases n
  {
    if n < 10 then [DigitChar(n)] else NatToString(n / 10) + [DigitChar(n % 10)]
  }

  /** `str(n)`. */
  function IntToString(n: int): string
  {
    if n < 0 then "-" + NatToString(-n) else NatToString(n)
  }

  function Pow10(k: nat): (p: nat)
    ensures p >= 1
  {
    if k == 0 then 1 else 10 * Pow10(k - 1)
  }

  /** Parse an unsigned run of digits: at least one digit, nothing else. */
  function ParseDigits(ds: string): Option<nat>
  {
    if ds != [] && AllDigits(ds) then Some(DigitsValue(ds)) else None
  }

  /** `int(s)` for text holding an optional sign and decimal digits. */
  function ParseInt(s: string): Option<int>
  {
    if |s| > 0 && (s[0] == '-' || s[0] == '+') then
      match ParseDigits(s[1..])
      case None => None
      case Some(v) => var n: int := v; Some(if s[0] == '-' then -n else n)
    else
      match ParseDigits(s)
      case None => None
      case Some(v) => Some(v)
  }

  /** Unsigned decimal text: digits with at most one point, at least one digit. */
  function ParseUnsignedDecimal(s: string): Option<real>
  {
    var parts := Split(s, '.');
    if |parts| == 1 then
      if s != [] && AllDigits(s) then Some(DigitsValue(s) as real) else None
    else if |parts| == 2 && AllDigits(parts[0]) && AllDigits(parts[1]) && parts[0] + parts[1] != [] then
      Some(DigitsValue(parts[0]) as real + DigitsValue(parts[1]) as real / Pow10(|parts[1]|) as real)
    else None
  }

  /** `float(s)` for plain decimal text with an optional sign. */
  function ParseFloat(s: string): Option<real>
  {
    if |s| > 0 && (s[0] == '-' || s[0] == '+') then
      match ParseUnsignedDecimal(s[1..])
      case None => None
      case Some(v) => Some(if s[0] == '-' then -v else v)
    else ParseUnsignedDecimal(s)
  }

  lemma {:induction false} DigitsRoundTrip(n: nat)
    ensures DigitsValue(NatToString(n)) == n
    decreases n
  {
    if n >= 10 {
      DigitsRoundTrip(n / 10);
      var s := NatToString(n);
      assert s[..|s| - 1] == NatToString(n / 10);
      assert DigitValue(DigitChar(n % 10)) == n % 10;
    } else {
      assert DigitValue(DigitChar(n)) == n;
    }
  }

  /** `int(str(n)) == n`. */
  lemma IntRoundTrip(n: int)
    ensures ParseInt(IntToString(n)) == Some(n)
  {
    if n < 0 {
      var m: nat := -n;
      assert IntToString(n) == "-" + NatToString(m);
      NatTextParses(m);
    } else {
      var m: nat := n;
      assert IntToString(n) == NatToString(m);
      NatTextParses(m);
    }
  }

  lemma SplitWithoutSeparator(s: string, c: char)
    requires c !in s
    ensures Split(s, c) == [s]
  {
    SplitJoin(s, c);
  }

  /** Text that `int()` accepts is accepted by `float()` with the same value,
      so the source's `int(float(t))` equals `int(t)`. */
  lemma ParseIntAsFloat(s: string)
    requires ParseInt(s).Some?
    ensures ParseFloat(s) == Some(ParseInt(s).value as real)
  {
    if |s| > 0 && (s[0] == '-' || s[0] == '+') {
      assert '.' !in s[1..];
      SplitWithoutSeparator(s[1..], '.');
    } else {
      assert '.' !in s;
      SplitWithoutSeparator(s, '.');
    }
  }

  /** Fields in front of the first separator come off one at a time. */
  lemma {:induction false} SplitAfterField(a: string, c: char, rest: string)
    requires c !in a
    ensures Split(a + [c] + rest, c) == [a] + Split(rest, c)
    decreases |a|
  {
    var s := a + [c] + rest;
    if a == [] {
      assert s[0] == c && s[1..] == rest;
    } else {
      SplitAfterField(a[1..], c, rest);
      assert s[0] == a[0] && s[1..] == a[1..] + [c] + rest;
      var tail := Split(s[1..], c);
      assert tail == [a[1..]] + Split(rest, c);
      assert Split(s, c) == [[a[0]] + tail[0]] + tail[1..];
      assert tail[0] == a[1..] && tail[1..] == Split(rest, c);
      assert [a[0]] + a[1..] == a;
    }
  }

  /** A separator between two texts splits them independently: the fields
      of the whole are the fields of the left text followed by those of the
      right one. */
  lemma {:induction false} SplitAppend(a: string, c: char, b: string)
    ensures Split(a + [c] + b, c) == Split(a, c) + Split(b, c)
    decreases |a|
  {
    if a == [] {
      var s := a + [c] + b;
      assert s[0] == c && s[1..] == b;
    } else {
      SplitAppend(a[1..], c, b);
      SplitConsAppend(a[0], a[1..], c, b);
      assert [a[0]] + a[1..] == a;
    }
  }

  /** The step of `SplitAppend`: one more character in front of the left
      text changes only its first field, or adds an empty one. */
  lemma SplitConsAppend(x: char, a: string, c: char, b: string)
    requires Split(a + [c] + b, c) == Split(a, c) + Split(b, c)
    ensures Split([x] + a + [c] + b, c) == Split([x] + a, c) + Split(b, c)
  {
    assert [x] + a + [c] + b == [x] + (a + [c] + b);
    SplitCons(x, a + [c] + b, c);
    SplitCons(x, a, c);
    FieldsAppend<char>([x], x == c, Split(a, c), Split(b, c));
  }

  /** `Split` of a text with a first character, unfolded once. */
  lemma SplitCons(x: char, r: string, c: char)
    ensures Split([x] + r, c) ==
      if x == c then [[]] + Split(r, c) else [[x] + Split(r, c)[0]] + Split(r, c)[1..]
  {
    var s := [x] + r;
    assert s[0] == x && s[1..] == r;
  }

  /** The list identity behind `SplitConsAppend`, for any fields. */
  lemma FieldsAppend<T>(h: seq<T>, starts: bool, left: seq<seq<T>>, right: seq<seq<T>>)
    requires |left| >= 1
    ensures (if starts then [[]] + (left + right) else [h + (left + right)[0]] + (left + right)[1..]) ==
      (if starts then [[]] + left else [h + left[0]] + left[1..]) + right
  {
    if !starts {
      assert (left + right)[0] == left[0] && (left + right)[1..] == left[1..] + right;
    }
  }

  /** Splitting a join of separator-free fields gives the fields back. */
  lemma {:induction false} SplitOfJoin(parts: seq<string>, c: char)
    requires |parts| >= 1
    requires forall k :: 0 <= k < |parts| ==> c !in parts[k]
    ensures Split(Join(parts, [c]), c) == parts
    decreases |parts|
  {
    if |parts| == 1 {
      SplitWithoutSeparator(parts[0], c);
    } else {
      assert forall k :: 0 <= k < |parts[1..]| ==> parts[1..][k] == parts[k + 1];
      SplitOfJoin(parts[1..], c);
      SplitAfterField(parts[0], c, Join(parts[1..], [c]));
      assert parts == [parts[0]] + parts[1..];
    }
  }

  /** Two words separated by one blank are the two tokens of `split()`. */
  lemma TokensOfPair(a: string, b: string)
    requires a != [] && NoSpace(a) && b != [] && NoSpace(b)
    ensures Tokens(a + " " + b) == [a, b]
  {
    var t := a + " " + b;
    WordPrefix(a, " " + b);
    assert t == a + (" " + b);
    assert t[0] == a[0] && !IsSpace(t[0]);
    assert t[..|a|] == a && t[|a|..] == " " + b;
    assert (" " + b)[0] == ' ' && (" " + b)[1..] == b;
    assert Tokens(" " + b) == Tokens(b);
    WordPrefix(b, []);
    assert b + [] == b;
    assert b[0] == (b + [])[0] && !IsSpace(b[0]);
    assert b[..|b|] == b && b[|b|..] == [];
    assert Tokens(b) == [b];
  }

  /** A word in front of a blank or the end of the text is one whole token. */
  lemma {:induction false} WordPrefix(w: string, s: string)
    requires NoSpace(w)
    requires s == [] || IsSpace(s[0])
    ensures WordLength(w + s) == |w|
    decreases |w|
  {
    if w != [] {
      WordPrefix(w[1..], s);
      assert (w + s)[1..] == w[1..] + s;
    }
  }

  /** `int(str(n))` and `int('-' + str(n))` for a natural number, including
      the `-0` that `str` never writes. */
  lemma NatTextParses(n: nat)
    ensures ParseInt(NatToString(n)) == Some(n)
    ensures ParseInt("-" + NatToString(n)) == Some(-(n as int))
  {
    DigitsRoundTrip(n);
    assert NatToString(n)[0] != '-' && NatToString(n)[0] != '+';
    assert ("-" + NatToString(n))[1..] == NatToString(n);
  }

  lemma NoSpaceConcat(a: string, b: string)
    requires NoSpace(a) && NoSpace(b)
    ensures NoSpace(a + b)
  {
    forall k | 0 <= k < |a + b| ensures !IsSpace((a + b)[k]) {
      if k >= |a| { assert (a + b)[k] == b[k - |a|]; }
    }
  }
}
