/** String operations the pipeline relies on, with Python's semantics:
    `str.strip()`, `str.startswith`, `str.replace`, code-point ordering of
    strings, splitting a text file into lines, joining lines, and the
    zero-padded decimal formatting `f"{n:0Wd}"`. */
module Text {
  import opened Seqs


  // ---------------------------------------------------------------------------
  // Whitespace and strip
  // ---------------------------------------------------------------------------

  /** The characters for which Python's `str.isspace()` holds; `str.strip()`
      with no argument removes exactly these from both ends. */
  predicate IsSpace(c: char)
  {
    ('\t' <= c <= '\r') || ('\U{001C}' <= c <= ' ') || c == '\U{0085}' || c == '\U{00A0}'
    || c == '\U{1680}' || ('\U{2000}' <= c <= '\U{200A}') || c == '\U{2028}' || c == '\U{2029}'
    || c == '\U{202F}' || c == '\U{205F}' || c == '\U{3000}'
  }

  /** Line terminators recognised when a text file is read in universal-newline mode. */
  predicate IsNewline(c: char)
  {
    c == '\n' || c == '\r'
  }

  function StripLeft(s: string): (r: string)
    ensures |r| <= |s| && r == s[|s| - |r|..]
    ensures r == [] || !IsSpace(r[0])
    ensures forall i :: 0 <= i < |s| - |r| ==> IsSpace(s[i])
    decreases |s|
  {
    if s != [] && IsSpace(s[0]) then StripLeft(s[1..]) else s
  }

  function StripRight(s: string): (r: string)
    ensures |r| <= |s| && r == s[..|r|]
    ensures r == [] || !IsSpace(r[|r| - 1])
    ensures forall i :: |r| <= i < |s| ==> IsSpace(s[i])
    decreases |s|
  {
    if s != [] && IsSpace(s[|s| - 1]) then StripRight(s[..|s| - 1]) else s
  }

  /** Python's `s.strip()`: the longest infix of `s` that neither starts nor
      ends with whitespace, obtained by removing whitespace at both ends. */
  function Strip(s: string): (r: string)
  {
    StripRight(StripLeft(s))
  }

  /** What `strip()` returns neither starts nor ends with whitespace, and it
      is empty only when the whole string was whitespace. */
  lemma StripShape(s: string)
    ensures var r := Strip(s);
      && (r == [] || (!IsSpace(r[0]) && !IsSpace(r[|r| - 1])))
      && (r == [] ==> forall i :: 0 <= i < |s| ==> IsSpace(s[i]))
  {
    var l := StripLeft(s);
    var r := StripRight(l);
    if r != [] {
      assert r[0] == l[0];
    }
  }

  /** A string with a non-blank first character strips to a non-empty string
      that neither starts nor ends with whitespace. */
  lemma StripNonBlank(s: string)
    requires |s| > 0 && !IsSpace(s[0])
    ensures var r := Strip(s); |r| > 0 && !IsSpace(r[0]) && !IsSpace(r[|r| - 1])
  {
    StripShape(s);
  }

  /** A string that neither starts nor ends with whitespace is its own strip. */
  lemma StripNoop(s: string)
    requires s == [] || (!IsSpace(s[0]) && !IsSpace(s[|s| - 1]))
    ensures Strip(s) == s
  {
  }

  /** Stripping twice is stripping once. */
  lemma StripIdempotent(s: string)
    ensures Strip(Strip(s)) == Strip(s)
  {
    StripShape(s);
    StripNoop(Strip(s));
  }

  /** Python's `s.startswith(c)` for a one-character prefix. */
  predicate StartsWith(s: string, c: char)
  {
    |s| > 0 && s[0] == c
  }

  /** Python's `s.replace(target, replacement)` for one-character arguments. */
  function ReplaceChar(s: string, target: char, replacement: char): (r: string)
    ensures |r| == |s|
    ensures forall i :: 0 <= i < |s| ==> r[i] == (if s[i] == target then replacement else s[i])
    ensures target != replacement ==> target !in r
  {
    seq(|s|, i requires 0 <= i < |s| => if s[i] == target then replacement else s[i])
  }

  // ---------------------------------------------------------------------------
  // Code-point (lexicographic) order on strings, as Python compares `str`
  // ---------------------------------------------------------------------------

  /** `a < b` for Python strings: the first differing code point decides, and a
      proper prefix is smaller. */
  predicate LexLess(a: string, b: string)
    decreases |a|
  {
    if a == [] then b != []
    else if b == [] then false
    else if a[0] != b[0] then a[0] < b[0]
    else LexLess(a[1..], b[1..])
  }

  lemma {:induction false} LexIrreflexive(a: string)
    ensures !LexLess(a, a)
    decreases |a|
  {
    if a != [] {
      LexIrreflexive(a[1..]);
    }
  }

  lemma {:induction false} LexTransitive(a: string, b: string, c: string)
    requires LexLess(a, b) && LexLess(b, c)
    ensures LexLess(a, c)
    decreases |a|
  {
    if a != [] && b != [] && c != [] && a[0] == b[0] && b[0] == c[0] {
      LexTransitive(a[1..], b[1..], c[1..]);
    }
  }

  /** Any two different strings are ordered one way. */
  lemma {:induction false} LexTotal(a: string, b: string)
    requires a != b
    ensures LexLess(a, b) || LexLess(b, a)
    decreases |a|
  {
    if a != [] && b != [] && a[0] == b[0] {
      assert a == [a[0]] + a[1..] && b == [b[0]] + b[1..];
      LexTotal(a[1..], b[1..]);
    }
  }

  lemma {:induction false} LexAsymmetric(a: string, b: string)
    requires LexLess(a, b)
    ensures !LexLess(b, a)
  {
    if LexLess(b, a) {
      LexTransitive(a, b, a);
      LexIrreflexive(a);
    }
  }

  // ---------------------------------------------------------------------------
  // Lines of a text file and joining lines
  // ---------------------------------------------------------------------------

  /** Index of the first line terminator in `s`, or `|s|` when there is none. */
  function FirstNewline(s: string): (i: nat)
    ensures i <= |s|
    ensures i < |s| ==> IsNewline(s[i])
    ensures forall j :: 0 <= j < i ==> !IsNewline(s[j])
    decreases |s|
  {
    if s == [] then 0
    else if IsNewline(s[0]) then 0
    else 1 + FirstNewline(s[1..])
  }

  predicate NoNewline(s: string)
  {
    forall i :: 0 <= i < |s| ==> !IsNewline(s[i])
  }

  /** The lines of a text, split at every `\n` and every `\r`, terminators
      removed. A `\r\n` pair yields an extra empty line, and a final terminator
      yields a final empty line; both are blank and every reader of lines in
      this model drops blank lines, so the readers see exactly the lines that
      Python's universal-newline iteration yields. */
  function SplitLines(s: string): (lines: seq<string>)
    ensures |lines| >= 1
    ensures forall k :: 0 <= k < |lines| ==> NoNewline(lines[k])
    decreases |s|
  {
    var i := FirstNewline(s);
    if i == |s| then [s] else [s[..i]] + SplitLines(s[i + 1..])
  }

  /** `"\n".join(lines)`. */
  function JoinLines(lines: seq<string>): (r: string)
    decreases |lines|
  {
    if lines == [] then ""
    else if |lines| == 1 then lines[0]
    else lines[0] + "\n" + JoinLines(lines[1..])
  }

  /** Splitting a joined text that ends with a newline gives the lines back,
      plus the empty line after the final terminator. */
  lemma {:induction false} SplitJoin(lines: seq<string>)
    requires |lines| >= 1
    requires forall k :: 0 <= k < |lines| ==> NoNewline(lines[k])
    ensures SplitLines(JoinLines(lines) + "\n") == lines + [""]
    decreases |lines|
  {
    var l := lines[0];
    var rest := if |lines| == 1 then "" else JoinLines(lines[1..]) + "\n";
    JoinNewline(lines);
    SplitAtFirst(l, rest);
    if |lines| == 1 {
      assert SplitLines(rest) == [""];
      assert lines == [l];
    } else {
      SplitJoin(lines[1..]);
      assert lines == [l] + lines[1..];
      ConcatAssoc([l], lines[1..], [""]);
    }
  }

  /** A text whose first line is `l` splits into `l` and the lines of the rest. */
  lemma SplitAtFirst(l: string, rest: string)
    requires NoNewline(l)
    ensures SplitLines(l + "\n" + rest) == [l] + SplitLines(rest)
  {
    var s := l + "\n" + rest;
    FirstNewlineAfter(l, rest);
    assert s[..|l|] == l;
    assert s[|l| + 1..] == rest;
  }

  lemma JoinNewline(lines: seq<string>)
    requires |lines| >= 1
    ensures JoinLines(lines) + "\n"
         == lines[0] + "\n" + (if |lines| == 1 then "" else JoinLines(lines[1..]) + "\n")
  {
  }

  lemma {:induction false} FirstNewlineAfter(l: string, rest: string)
    requires NoNewline(l)
    ensures FirstNewline(l + "\n" + rest) == |l|
    decreases |l|
  {
    if l != [] {
      assert (l + "\n" + rest)[1..] == l[1..] + "\n" + rest;
      FirstNewlineAfter(l[1..], rest);
    }
  }

  /** `"\n".join(lines)` starts with the first line and ends with the last. */
  lemma {:induction false} JoinEnds(lines: seq<string>)
    requires |lines| >= 1
    ensures |JoinLines(lines)| >= |lines[0]|
    ensures JoinLines(lines)[..|lines[0]|] == lines[0]
    ensures |JoinLines(lines)| >= |lines[|lines| - 1]|
    ensures JoinLines(lines)[|JoinLines(lines)| - |lines[|lines| - 1]|..] == lines[|lines| - 1]
    decreases |lines|
  {
    if |lines| > 1 {
      JoinEnds(lines[1..]);
      var j := JoinLines(lines[1..]);
      var last := lines[|lines| - 1];
      assert last == lines[1..][|lines[1..]| - 1];
      assert JoinLines(lines) == lines[0] + "\n" + j;
      assert (lines[0] + "\n" + j)[|lines[0] + "\n" + j| - |last|..] == j[|j| - |last|..];
    }
  }

  // ---------------------------------------------------------------------------
  // Zero-padded decimal formatting, f"{n:0Wd}"
  // ---------------------------------------------------------------------------

  predicate IsDigit(c: char)
  {
    '0' <= c <= '9'
  }

  predicate AllDigits(s: string)
  {
    forall i :: 0 <= i < |s| ==> IsDigit(s[i])
  }

  function DigitChar(d: nat): (c: char)
    requires d < 10
    ensures IsDigit(c)
  {
    ['0', '1', '2', '3', '4', '5', '6', '7', '8', '9'][d]
  }

  function DigitValue(c: char): nat
    requires IsDigit(c)
  {
    (c as int - '0' as int) as nat
  }

  /** `str(n)` for a natural number. */
  function Decimal(n: nat): (s: string)
    ensures |s| >= 1 && AllDigits(s)
  {
    if n < 10 then [DigitChar(n)] else Decimal(n / 10) + [DigitChar(n % 10)]
  }

  /** The number a string of decimal digits denotes (leading zeros allowed). */
  function DigitsValue(s: string): nat
    requires AllDigits(s)
  {
    if s == [] then 0 else 10 * DigitsValue(s[..|s| - 1]) + DigitValue(s[|s| - 1])
  }

  function Zeros(k: nat): (s: string)
    ensures |s| == k && AllDigits(s)
    ensures forall i :: 0 <= i < k ==> s[i] == '0'
  {
    seq(k, i => '0')
  }

  /** `f"{n:0Wd}"` for `n >= 0`: the decimal digits of `n`, left-padded with
      zeros to at least `width` characters. */
  function ZeroPad(n: nat, width: nat): (s: string)
    ensures AllDigits(s)
    ensures |s| == if |Decimal(n)| < width then width else |Decimal(n)|
  {
    var d := Decimal(n);
    if |d| < width then Zeros(width - |d|) + d else d
  }

  /** `f"{n:0Wd}"` for any integer: a negative number keeps its sign in front
      and pads its magnitude to the remaining width. */
  function FormatInt(n: int, width: nat): (s: string)
  {
    if n < 0 then "-" + ZeroPad(-n, if width > 0 then width - 1 else 0) else ZeroPad(n, width)
  }

  /** Reads back what FormatInt writes. */
  function ParseInt(s: string): int
  {
    if |s| > 0 && s[0] == '-' && AllDigits(s[1..]) then -(DigitsValue(s[1..]) as int)
    else if AllDigits(s) then DigitsValue(s)
    else 0
  }

  lemma {:induction false} DecimalValue(n: nat)
    ensures DigitsValue(Decimal(n)) == n
  {
    if n >= 10 {
      var d := Decimal(n);
      assert d[..|d| - 1] == Decimal(n / 10);
      DecimalValue(n / 10);
      assert DigitValue(d[|d| - 1]) == n % 10;
    }
  }

  lemma {:induction false} LeadingZerosValue(k: nat, s: string)
    requires AllDigits(s)
    ensures DigitsValue(Zeros(k) + s) == DigitsValue(s)
    decreases |s|, k
  {
    if s == [] {
      if k > 0 {
        assert Zeros(k)[..k - 1] == Zeros(k - 1);
        assert (Zeros(k) + s)[..k - 1] == Zeros(k - 1) + s;
        LeadingZerosValue(k - 1, s);
      }
    } else {
      var t := Zeros(k) + s;
      assert t[..|t| - 1] == Zeros(k) + s[..|s| - 1];
      LeadingZerosValue(k, s[..|s| - 1]);
    }
  }

  /** Zero-padding loses nothing: the padded digits denote the number. */
  lemma ZeroPadValue(n: nat, width: nat)
    ensures DigitsValue(ZeroPad(n, width)) == n
  {
    DecimalValue(n);
    var d := Decimal(n);
    if |d| < width {
      assert ZeroPad(n, width) == Zeros(width - |d|) + d;
      LeadingZerosValue(width - |d|, d);
    } else {
      assert ZeroPad(n, width) == d;
    }
  }

  lemma ParseNegative(p: string)
    requires AllDigits(p)
    ensures ParseInt("-" + p) == -(DigitsValue(p) as int)
  {
    var s := "-" + p;
    assert s[0] == '-' && s[1..] == p;
  }

  lemma ParseDigits(p: string)
    requires AllDigits(p)
    ensures ParseInt(p) == DigitsValue(p)
  {
    if |p| > 0 {
      assert IsDigit(p[0]);
    }
  }

  lemma NegativeRoundTrip(n: int, width: nat)
    requires n < 0
    ensures ParseInt(FormatInt(n, width)) == n
  {
    var m: nat := -n;
    var w: nat := if width > 0 then width - 1 else 0;
    var p := ZeroPad(m, w);
    ZeroPadValue(m, w);
    assert DigitsValue(p) == m;
    ParseNegative(p);
    assert FormatInt(n, width) == "-" + p;
  }

  lemma NonNegativeRoundTrip(n: int, width: nat)
    requires n >= 0
    ensures ParseInt(FormatInt(n, width)) == n
  {
    ZeroPadValue(n, width);
    ParseDigits(ZeroPad(n, width));
  }

  /** Round trip: ParseInt(FormatInt(n, w)) == n for every integer and width. */
  lemma FormatIntRoundTrip(n: int, width: nat)
    ensures ParseInt(FormatInt(n, width)) == n
  {
    if n < 0 {
      NegativeRoundTrip(n, width);
    } else {
      NonNegativeRoundTrip(n, width);
    }
  }

  /** Different integers format differently at the same width. */
  lemma FormatIntInjective(a: int, b: int, width: nat)
    requires FormatInt(a, width) == FormatInt(b, width)
    ensures a == b
  {
    FormatIntRoundTrip(a, width);
    FormatIntRoundTrip(b, width);
  }

  function Pow10(k: nat): nat
  {
    if k == 0 then 1 else 10 * Pow10(k - 1)
  }

  lemma {:induction false} DecimalLength(n: nat, k: nat)
    requires 1 <= k && n < Pow10(k)
    ensures |Decimal(n)| <= k
  {
    if n >= 10 {
      assert k > 1;
      DecimalLength(n / 10, k - 1);
    }
  }

  /** A non-negative number below 10^width formats to exactly `width` digits. */
  lemma ZeroPadExactWidth(n: nat, width: nat)
    requires 1 <= width && n < Pow10(width)
    ensures |FormatInt(n, width)| == width && AllDigits(FormatInt(n, width))
  {
    DecimalLength(n, width);
  }
}
