/** Character and string helpers used by the console: the ASCII case fold of
    the toolkit's case-insensitive comparisons, blank trimming, decimal
    rendering, padding, and joining and splitting on a separator. */
module Text {
  import opened Util

  // ---------------------------------------------------------------------------
  // Case folding

  /** ASCII upper-case fold (the toolkit's ImToUpper, and toupper in the C locale). */
  function Upper(c: char): char {
    if 'a' <= c <= 'z' then (c as int - 32) as char else c
  }

  function UpperAll(s: string): (r: string)
    ensures |r| == |s|
    ensures forall i :: 0 <= i < |s| ==> r[i] == Upper(s[i])
  {
    seq(|s|, i requires 0 <= i < |s| => Upper(s[i]))
  }

  /** ImStricmp(a, b) == 0: equal lengths and equal characters after the fold. */
  predicate EqualsIgnoreCase(a: string, b: string) {
    UpperAll(a) == UpperAll(b)
  }

  /** ImStrnicmp(s, p, |p|) == 0: `s` starts with `p` ignoring case. */
  predicate HasPrefixIgnoreCase(s: string, p: string) {
    |p| <= |s| && EqualsIgnoreCase(s[..|p|], p)
  }

  lemma UpperZero(c: char)
    ensures Upper(c) == '\0' <==> c == '\0'
  {
  }

  // ---------------------------------------------------------------------------
  // Prefix and substring tests (std::string::starts_with and find)

  predicate StartsWith(s: string, p: string) {
    |p| <= |s| && s[..|p|] == p
  }

  predicate OccursAt(s: string, p: string, i: nat) {
    i + |p| <= |s| && s[i..i + |p|] == p
  }

  predicate Contains(s: string, p: string) {
    exists i: nat | i <= |s| :: OccursAt(s, p, i)
  }

  // ---------------------------------------------------------------------------
  // Blank trimming (the toolkit's ImStrTrimBlanks: spaces and tabs at both ends)

  predicate IsBlank(c: char) { c == ' ' || c == '\t' }

  function LeadingBlanks(s: string): (n: nat)
    ensures n <= |s|
    ensures forall k :: 0 <= k < n ==> IsBlank(s[k])
    ensures n < |s| ==> !IsBlank(s[n])
  {
    if s == [] || !IsBlank(s[0]) then 0 else 1 + LeadingBlanks(s[1..])
  }

  function TrailingBlanks(s: string): (n: nat)
    ensures n <= |s|
    ensures forall k :: |s| - n <= k < |s| ==> IsBlank(s[k])
    ensures n < |s| ==> !IsBlank(s[|s| - n - 1])
  {
    if s == [] || !IsBlank(s[|s| - 1]) then 0 else 1 + TrailingBlanks(s[..|s| - 1])
  }

  function TrimBlanks(s: string): (r: string)
    ensures r == "" || (!IsBlank(r[0]) && !IsBlank(r[|r| - 1]))
    ensures LeadingBlanks(s) + |r| <= |s|
    ensures r == s[LeadingBlanks(s)..LeadingBlanks(s) + |r|]
    ensures forall k :: LeadingBlanks(s) + |r| <= k < |s| ==> IsBlank(s[k])
    ensures r == "" <==> forall k :: 0 <= k < |s| ==> IsBlank(s[k])
  {
    var t := s[LeadingBlanks(s)..];
    t[..|t| - TrailingBlanks(t)]
  }

  lemma TrimBlanksIdempotent(s: string)
    ensures TrimBlanks(TrimBlanks(s)) == TrimBlanks(s)
  {
    var r := TrimBlanks(s);
    if r != "" {
      assert LeadingBlanks(r) == 0;
      assert TrailingBlanks(r) == 0;
    }
  }

  // ---------------------------------------------------------------------------
  // Decimal rendering (printf's %d and fmt's {} for integers)

  function Digit(d: nat): char
    requires d < 10
  {
    ('0' as int + d) as char
  }

  function DecimalString(n: nat): (r: string)
    ensures |r| >= 1
    ensures forall i :: 0 <= i < |r| ==> '0' <= r[i] <= '9'
    ensures r[0] == '0' ==> n == 0
  {
    if n < 10 then [Digit(n)] else DecimalString(n / 10) + [Digit(n % 10)]
  }

  /** A signed integer in decimal, with a leading '-' when negative. */
  function IntString(i: int): string {
    if i < 0 then "-" + DecimalString(-i) else DecimalString(i)
  }

  function DigitValue(c: char): nat {
    if '0' <= c <= '9' then c as int - '0' as int else 0
  }

  function ParseDecimal(s: string): nat {
    if s == [] then 0 else 10 * ParseDecimal(s[..|s| - 1]) + DigitValue(s[|s| - 1])
  }

  function ParseInt(s: string): int {
    if s != [] && s[0] == '-' then -(ParseDecimal(s[1..]) as int) else ParseDecimal(s)
  }

  /** Decimal rendering loses nothing: the text reads back as the number. */
  lemma {:induction false} ParseDecimalString(n: nat)
    ensures ParseDecimal(DecimalString(n)) == n
  {
    if n >= 10 {
      ParseDecimalString(n / 10);
      var s := DecimalString(n / 10) + [Digit(n % 10)];
      assert s[..|s| - 1] == DecimalString(n / 10);
    }
  }

  lemma ParseIntString(i: int)
    ensures ParseInt(IntString(i)) == i
  {
    if i < 0 {
      ParseDecimalString(-i);
      assert IntString(i)[1..] == DecimalString(-i);
    } else {
      ParseDecimalString(i);
    }
  }

  // ---------------------------------------------------------------------------
  // Padding (printf's %3d and fmt's {:<32})

  function Spaces(n: nat): (r: string)
    ensures |r| == n && forall k :: 0 <= k < n ==> r[k] == ' '
  {
    seq(n, _ => ' ')
  }

  /** Right-aligns `s` in a field of `width` characters. */
  function PadLeft(s: string, width: nat): (r: string)
    ensures |r| == Max(|s|, width)
    ensures r[|r| - |s|..] == s
    ensures forall k :: 0 <= k < |r| - |s| ==> r[k] == ' '
  {
    if |s| >= width then s else Spaces(width - |s|) + s
  }

  /** Left-aligns `s` in a field of `width` characters. */
  function PadRight(s: string, width: nat): (r: string)
    ensures |r| == Max(|s|, width)
    ensures r[..|s|] == s
    ensures forall k :: |s| <= k < |r| ==> r[k] == ' '
  {
    if |s| >= width then s else s + Spaces(width - |s|)
  }

  // ---------------------------------------------------------------------------
  // Joining with a separator (fmt::join) and its inverse

  function Join(xs: seq<string>, sep: char): string
  {
    if |xs| == 0 then ""
    else if |xs| == 1 then xs[0]
    else Join(xs[..|xs| - 1], sep) + [sep] + xs[|xs| - 1]
  }

  /** The number of characters in all the pieces together. */
  function TotalLength(xs: seq<string>): nat {
    if xs == [] then 0 else TotalLength(xs[..|xs| - 1]) + |xs[|xs| - 1]|
  }

  /** Joining adds exactly one separator between neighbouring pieces. */
  lemma {:induction false} JoinLength(xs: seq<string>, sep: char)
    requires xs != []
    ensures |Join(xs, sep)| == TotalLength(xs) + |xs| - 1
  {
    if |xs| == 1 {
      assert xs[..0] == [];
    } else {
      JoinLength(xs[..|xs| - 1], sep);
    }
  }

  /** Splits `s` at every occurrence of `sep`; always at least one piece. */
  function Split(s: string, sep: char): (r: seq<string>)
    ensures |r| >= 1
  {
    if s == [] then [""]
    else
      var init := Split(s[..|s| - 1], sep);
      if s[|s| - 1] == sep then init + [""]
      else init[..|init| - 1] + [init[|init| - 1] + [s[|s| - 1]]]
  }

  lemma {:induction false} SplitAppendFree(s: string, w: string, sep: char)
    requires sep !in w
    ensures Split(s + w, sep) == Split(s, sep)[..|Split(s, sep)| - 1] + [Split(s, sep)[|Split(s, sep)| - 1] + w]
    decreases |w|
  {
    if w == [] {
      assert s + w == s;
      var r := Split(s, sep);
      assert r[|r| - 1] + w == r[|r| - 1];
      assert r[..|r| - 1] + [r[|r| - 1]] == r;
    } else {
      var w' := w[..|w| - 1];
      assert (s + w)[..|s + w| - 1] == s + w';
      assert (s + w)[|s + w| - 1] == w[|w| - 1];
      assert w[|w| - 1] in w;
      assert sep !in w';
      SplitAppendFree(s, w', sep);
      var r := Split(s, sep);
      var r' := Split(s + w', sep);
      assert r'[..|r'| - 1] == r[..|r| - 1];
      assert r'[|r'| - 1] + [w[|w| - 1]] == r[|r| - 1] + w;
    }
  }

  /** A trailing separator starts a new, empty piece. */
  lemma SplitSeparatorEnd(s: string, sep: char)
    ensures Split(s + [sep], sep) == Split(s, sep) + [""]
  {
    assert (s + [sep])[..|s|] == s;
  }

  /** Joining pieces that do not contain the separator can be undone by splitting. */
  lemma {:induction false} SplitJoin(xs: seq<string>, sep: char)
    requires |xs| >= 1
    requires forall i :: 0 <= i < |xs| ==> sep !in xs[i]
    ensures Split(Join(xs, sep), sep) == xs
  {
    if |xs| == 1 {
      SplitAppendFree("", xs[0], sep);
      assert "" + xs[0] == xs[0];
    } else {
      var init := xs[..|xs| - 1];
      var last := xs[|xs| - 1];
      SplitJoin(init, sep);
      var j := Join(init, sep) + [sep];
      SplitSeparatorEnd(Join(init, sep), sep);
      assert Split(j, sep) == init + [""];
      SplitAppendFree(j, last, sep);
      assert "" + last == last;
      assert (init + [""])[..|init|] == init;
      assert Join(xs, sep) == j + last;
      assert xs == init + [last];
    }
  }
}
