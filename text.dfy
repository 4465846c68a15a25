/**
 * Character classes and the string clean-up the extraction service applies:
 * `re.sub(r'\s+', ' ', s).strip()`, `str.lower()` and decimal numerals.
 */
module Text {
  import opened Results

  /** Python's whitespace (`\s` in a str pattern, and what `str.strip()` removes). */
  predicate IsSpace(c: char) {
    ('\t' <= c <= '\r') || ('\U{1C}' <= c <= '\U{1F}') || c == ' ' || c == '\U{85}' || c == '\U{A0}'
    || c == '\U{1680}' || ('\U{2000}' <= c <= '\U{200A}') || c == '\U{2028}' || c == '\U{2029}'
    || c == '\U{202F}' || c == '\U{205F}' || c == '\U{3000}'
  }

  /** `\d`, restricted to the ASCII digits. */
  predicate IsDigit(c: char) {
    '0' <= c <= '9'
  }

  /** `\w`: ASCII letters and digits, the underscore, and the Latin letters U+00C0..U+024F. */
  predicate IsWordChar(c: char) {
    ('a' <= c <= 'z') || ('A' <= c <= 'Z') || IsDigit(c) || c == '_'
    || ('\U{C0}' <= c <= '\U{24F}' && c != '\U{D7}' && c != '\U{F7}')
  }

  /** `str.lower()` on ASCII and Latin-1 capital letters; every other character is kept. */
  function LowerChar(c: char): char {
    if ('A' <= c <= 'Z') || ('\U{C0}' <= c <= '\U{DE}' && c != '\U{D7}') then
      (c as int + 32) as char
    else
      c
  }

  function Lower(s: string): string {
    seq(|s|, i requires 0 <= i < |s| => LowerChar(s[i]))
  }

  /** `not s.strip()`: the text is empty or whitespace only. */
  predicate IsBlank(s: string) {
    forall i :: 0 <= i < |s| ==> IsSpace(s[i])
  }

  /** The characters of `s` that are not whitespace, in order. */
  function NonSpace(s: string): string {
    if s == [] then []
    else (if IsSpace(s[0]) then [] else [s[0]]) + NonSpace(s[1..])
  }

  /** No two whitespace characters stand next to each other. */
  predicate NoSpaceRun(s: string) {
    forall i :: 0 < i < |s| ==> !(IsSpace(s[i - 1]) && IsSpace(s[i]))
  }

  /** The only whitespace character present is the plain space. */
  predicate PlainSpacesOnly(s: string) {
    forall i :: 0 <= i < |s| ==> IsSpace(s[i]) ==> s[i] == ' '
  }

  /** The shape of a cleaned value: no surrounding whitespace, single plain spaces inside. */
  predicate Normalized(s: string) {
    && (s != [] ==> !IsSpace(s[0]) && !IsSpace(s[|s| - 1]))
    && NoSpaceRun(s)
    && PlainSpacesOnly(s)
  }

  /** `s.lstrip()`: the suffix left after the leading whitespace. */
  function TrimStart(s: string): (r: string)
    ensures |r| <= |s|
    ensures r != [] ==> !IsSpace(r[0])
  {
    if s != [] && IsSpace(s[0]) then TrimStart(s[1..]) else s
  }

  /** `s.rstrip()`: the prefix left before the trailing whitespace. */
  function TrimEnd(s: string): (r: string)
    ensures |r| <= |s|
    ensures r != [] ==> !IsSpace(r[|r| - 1])
  {
    if s != [] && IsSpace(s[|s| - 1]) then TrimEnd(s[..|s| - 1]) else s
  }

  /** `lstrip` leaves a suffix of its input. */
  lemma {:induction false} TrimStartSuffix(s: string)
    ensures TrimStart(s) == s[|s| - |TrimStart(s)|..]
    decreases |s|
  {
    if s != [] && IsSpace(s[0]) {
      TrimStartSuffix(s[1..]);
    }
  }

  /** `rstrip` leaves a prefix of its input. */
  lemma {:induction false} TrimEndPrefix(s: string)
    ensures TrimEnd(s) == s[..|TrimEnd(s)|]
    decreases |s|
  {
    if s != [] && IsSpace(s[|s| - 1]) {
      TrimEndPrefix(s[..|s| - 1]);
    }
  }

  /** What `lstrip` removes is whitespace. */
  lemma {:induction false} TrimStartRemovesSpaces(s: string)
    ensures IsBlank(s[..|s| - |TrimStart(s)|])
    decreases |s|
  {
    if s != [] && IsSpace(s[0]) {
      TrimStartRemovesSpaces(s[1..]);
      var t := TrimStart(s);
      assert s[..|s| - |t|] == [s[0]] + s[1..][..|s| - 1 - |t|];
    }
  }

  /** What `rstrip` removes is whitespace. */
  lemma {:induction false} TrimEndRemovesSpaces(s: string)
    ensures IsBlank(s[|TrimEnd(s)|..])
    decreases |s|
  {
    if s != [] && IsSpace(s[|s| - 1]) {
      var p := s[..|s| - 1];
      TrimEndRemovesSpaces(p);
      var r := TrimEnd(s);
      assert s[|r|..] == p[|r|..] + [s[|s| - 1]];
    }
  }

  /** `s.strip()` */
  function Strip(s: string): (r: string)
    ensures r != [] ==> !IsSpace(r[0]) && !IsSpace(r[|r| - 1])
  {
    TrimEndPrefix(TrimStart(s));
    TrimEnd(TrimStart(s))
  }

  /** Stripping removes whitespace only. */
  lemma StripKeepsNonSpace(s: string)
    ensures NonSpace(Strip(s)) == NonSpace(s)
  {
    TrimStartKeepsNonSpace(s);
    TrimEndKeepsNonSpace(TrimStart(s));
  }

  lemma TrimStartKeepsNonSpace(s: string)
    ensures NonSpace(TrimStart(s)) == NonSpace(s)
  {
    var t := TrimStart(s);
    var lead := s[..|s| - |t|];
    TrimStartSuffix(s);
    assert s == lead + t;
    TrimStartRemovesSpaces(s);
    NonSpaceOfSpaces(lead);
    NonSpaceAppend(lead, t);
  }

  lemma TrimEndKeepsNonSpace(s: string)
    ensures NonSpace(TrimEnd(s)) == NonSpace(s)
  {
    var r := TrimEnd(s);
    var trail := s[|r|..];
    TrimEndPrefix(s);
    assert s == r + trail;
    TrimEndRemovesSpaces(s);
    NonSpaceOfSpaces(trail);
    NonSpaceAppend(r, trail);
  }

  /** `re.sub(r'\s+', ' ', s)`: every maximal whitespace run becomes one plain space. */
  function Collapse(s: string): (r: string)
    ensures |r| <= |s|
    ensures r == [] <==> s == []
    ensures s != [] ==> r[0] == (if IsSpace(s[0]) then ' ' else s[0])
    decreases |s|
  {
    if s == [] then []
    else if IsSpace(s[0]) then [' '] + Collapse(TrimStart(s))
    else [s[0]] + Collapse(s[1..])
  }

  /** After collapsing, whitespace comes only as single plain spaces. */
  lemma {:induction false} CollapseSpacing(s: string)
    ensures NoSpaceRun(Collapse(s)) && PlainSpacesOnly(Collapse(s))
    decreases |s|
  {
    if s == [] {
    } else if IsSpace(s[0]) {
      var t := TrimStart(s);
      CollapseSpacing(t);
      SpacingCons(' ', Collapse(t));
    } else {
      CollapseSpacing(s[1..]);
      SpacingCons(s[0], Collapse(s[1..]));
    }
  }

  /** One more character in front keeps the spacing when it is not whitespace, or a plain space before a non-space. */
  lemma SpacingCons(c: char, r: string)
    requires NoSpaceRun(r) && PlainSpacesOnly(r)
    requires IsSpace(c) ==> c == ' ' && (r != [] ==> !IsSpace(r[0]))
    ensures NoSpaceRun([c] + r) && PlainSpacesOnly([c] + r)
  {
    var cr := [c] + r;
    assert forall i :: 0 < i < |cr| ==> cr[i] == r[i - 1];
  }

  /** `re.sub(r'\s+', ' ', s).strip()`, the clean-up applied to every extracted value. */
  function Clean(s: string): string {
    Strip(Collapse(s))
  }

  /** The cleaned value has no surrounding whitespace and only single plain spaces inside. */
  lemma CleanNormalized(s: string)
    ensures Normalized(Clean(s))
  {
    CollapseSpacing(s);
    StripKeepsSpacing(Collapse(s));
  }

  /** Stripping a text with single plain spaces gives a value in normal form. */
  lemma StripKeepsSpacing(c: string)
    requires NoSpaceRun(c) && PlainSpacesOnly(c)
    ensures Normalized(Strip(c))
  {
    var k := StripSlice(c);
    SliceKeepsSpacing(c, k, k + |Strip(c)|);
  }

  /** Cleaning keeps every non-whitespace character of the input, in order. */
  lemma CleanKeepsNonSpace(s: string)
    ensures NonSpace(Clean(s)) == NonSpace(s)
  {
    StripKeepsNonSpace(Collapse(s));
    CollapseKeepsNonSpace(s);
  }

  /** The cleaned value is empty exactly when the input is blank. */
  lemma CleanEmptyIffBlank(s: string)
    ensures Clean(s) == [] <==> IsBlank(s)
  {
    CleanKeepsNonSpace(s);
    BlankIffNoNonSpace(s);
    BlankIffNoNonSpace(Clean(s));
  }

  /** `not s.strip()` holds exactly when the text is blank. */
  lemma StripEmptyIffBlank(s: string)
    ensures Strip(s) == [] <==> IsBlank(s)
  {
    StripKeepsNonSpace(s);
    BlankIffNoNonSpace(s);
    BlankIffNoNonSpace(Strip(s));
  }

  /** The stripped text is a contiguous piece of the original. */
  lemma StripSlice(s: string) returns (k: nat)
    ensures k + |Strip(s)| <= |s| && Strip(s) == s[k..k + |Strip(s)|]
  {
    var t := TrimStart(s);
    k := |s| - |t|;
    TrimStartSuffix(s);
    TrimEndPrefix(t);
  }

  lemma SliceKeepsSpacing(s: string, i: nat, j: nat)
    requires i <= j <= |s|
    requires NoSpaceRun(s) && PlainSpacesOnly(s)
    ensures NoSpaceRun(s[i..j]) && PlainSpacesOnly(s[i..j])
  {
    var t := s[i..j];
    forall n | 0 < n < |t|
      ensures !(IsSpace(t[n - 1]) && IsSpace(t[n]))
    {
      assert t[n - 1] == s[i + n - 1] && t[n] == s[i + n];
    }
    forall n | 0 <= n < |t| && IsSpace(t[n])
      ensures t[n] == ' '
    {
      assert t[n] == s[i + n];
    }
  }

  lemma {:induction false} NonSpaceAppend(a: string, b: string)
    ensures NonSpace(a + b) == NonSpace(a) + NonSpace(b)
    decreases |a|
  {
    if a == [] {
      assert a + b == b;
    } else {
      assert (a + b)[0] == a[0];
      assert (a + b)[1..] == a[1..] + b;
      NonSpaceAppend(a[1..], b);
    }
  }

  lemma {:induction false} NonSpaceOfSpaces(s: string)
    requires IsBlank(s)
    ensures NonSpace(s) == []
    decreases |s|
  {
    if s != [] {
      NonSpaceOfSpaces(s[1..]);
    }
  }

  /** A text is blank exactly when it has no non-whitespace character. */
  lemma {:induction false} BlankIffNoNonSpace(s: string)
    ensures IsBlank(s) <==> NonSpace(s) == []
    decreases |s|
  {
    if s != [] {
      BlankIffNoNonSpace(s[1..]);
    }
  }

  /** Collapsing whitespace runs keeps every other character, in order. */
  lemma {:induction false} CollapseKeepsNonSpace(s: string)
    ensures NonSpace(Collapse(s)) == NonSpace(s)
    decreases |s|
  {
    if s == [] {
    } else if IsSpace(s[0]) {
      var t := TrimStart(s);
      CollapseKeepsNonSpace(t);
      TrimStartKeepsNonSpace(s);
      NonSpaceAppend([' '], Collapse(t));
    } else {
      CollapseKeepsNonSpace(s[1..]);
      NonSpaceAppend([s[0]], Collapse(s[1..]));
      NonSpaceAppend([s[0]], s[1..]);
      assert s == [s[0]] + s[1..];
    }
  }

  /** A whitespace run after a word collapses to one plain space. */
  lemma CollapseRun(a: string, w: string, b: string)
    requires forall i :: 0 <= i < |a| ==> !IsSpace(a[i])
    requires w != [] && IsBlank(w)
    requires b != [] ==> !IsSpace(b[0])
    ensures Collapse(a + w + b) == a + [' '] + Collapse(b)
  {
    assert a + w + b == a + (w + b);
    CollapseWords(a, w + b);
    CollapseBlankRun(w, b);
  }

  /** Characters other than whitespace are copied as they are. */
  lemma {:induction false} CollapseWords(a: string, rest: string)
    requires forall i :: 0 <= i < |a| ==> !IsSpace(a[i])
    ensures Collapse(a + rest) == a + Collapse(rest)
    decreases |a|
  {
    if a == [] {
      assert a + rest == rest;
    } else {
      assert a + rest == [a[0]] + (a[1..] + rest);
      CollapseWord(a[0], a[1..] + rest);
      CollapseWords(a[1..], rest);
      assert a == [a[0]] + a[1..];
    }
  }

  /** A character other than whitespace is copied as it is. */
  lemma CollapseWord(c: char, rest: string)
    requires !IsSpace(c)
    ensures Collapse([c] + rest) == [c] + Collapse(rest)
  {
    assert ([c] + rest)[1..] == rest;
  }

  /** A leading whitespace run collapses to one plain space. */
  lemma CollapseBlankRun(w: string, b: string)
    requires w != [] && IsBlank(w)
    requires b != [] ==> !IsSpace(b[0])
    ensures Collapse(w + b) == [' '] + Collapse(b)
  {
    assert (w + b)[0] == w[0];
    TrimStartOfBlank(w, b);
  }

  /** `lstrip` removes a whitespace prefix and stops at the first other character. */
  lemma {:induction false} TrimStartOfBlank(w: string, b: string)
    requires IsBlank(w)
    requires b != [] ==> !IsSpace(b[0])
    ensures TrimStart(w + b) == b
    decreases |w|
  {
    if w == [] {
      assert w + b == b;
    } else {
      assert (w + b)[1..] == w[1..] + b;
      TrimStartOfBlank(w[1..], b);
    }
  }

  /** A value already in normal form is left unchanged by the clean-up. */
  lemma {:induction false} CleanFixesNormalized(s: string)
    requires Normalized(s)
    ensures Clean(s) == s
  {
    CollapseFixesNormalized(s);
  }

  /** Stripping and then cleaning a value in normal form changes nothing. */
  lemma StripCleanFixesNormalized(s: string)
    requires Normalized(s)
    ensures Clean(Strip(s)) == s
  {
    StripFixesTrimmed(s);
    CleanFixesNormalized(s);
  }

  /** Stripping a value with no surrounding whitespace changes nothing. */
  lemma StripFixesTrimmed(s: string)
    requires s != [] ==> !IsSpace(s[0]) && !IsSpace(s[|s| - 1])
    ensures Strip(s) == s
  {
    assert TrimStart(s) == s;
  }

  lemma {:induction false} CollapseFixesNormalized(s: string)
    requires NoSpaceRun(s) && PlainSpacesOnly(s)
    ensures Collapse(s) == s
    decreases |s|
  {
    if s != [] {
      SliceKeepsSpacing(s, 1, |s|);
      CollapseFixesNormalized(s[1..]);
      assert s == [s[0]] + s[1..];
      if IsSpace(s[0]) {
        assert s[1..] != [] ==> !IsSpace(s[1..][0]);
        TrimStartOfBlank([s[0]], s[1..]);
      } else {
        CollapseWord(s[0], s[1..]);
      }
    }
  }

  /** Cleaning twice is cleaning once. */
  lemma CleanIdempotent(s: string)
    ensures Clean(Clean(s)) == Clean(s)
  {
    CleanNormalized(s);
    CleanFixesNormalized(Clean(s));
  }

  /** The numeric value of a run of ASCII digits, most significant first. */
  function DigitsValue(s: string): nat
    requires forall i :: 0 <= i < |s| ==> IsDigit(s[i])
  {
    if s == [] then 0
    else
      assert IsDigit(s[|s| - 1]);
      10 * DigitsValue(s[..|s| - 1]) + (s[|s| - 1] as int - '0' as int)
  }

  /**
   * `int(s)` restricted to plain numerals: the value of a non-empty string of
   * ASCII digits, `None` for any other string. Signs, surrounding whitespace
   * and underscores, which `int` also accepts, are not modelled.
   */
  function ParseDecimal(s: string): (r: Option<nat>)
    ensures r.Some? <==> s != [] && forall i :: 0 <= i < |s| ==> IsDigit(s[i])
  {
    if s != [] && forall i :: 0 <= i < |s| ==> IsDigit(s[i]) then Some(DigitsValue(s)) else None
  }

  function DigitChar(d: nat): (c: char)
    requires d < 10
    ensures IsDigit(c)
  {
    ('0' as int + d) as char
  }

  /** `str(n)` for a natural number: its decimal numeral without leading zeros. */
  function NatToString(n: nat): (s: string)
    ensures s != [] && forall i :: 0 <= i < |s| ==> IsDigit(s[i])
    ensures n > 0 ==> s[0] != '0'
    ensures |s| > 1 ==> s[0] != '0'
  {
    if n < 10 then [DigitChar(n)] else NatToString(n / 10) + [DigitChar(n % 10)]
  }

  /** Reading back a printed number gives the number. */
  lemma {:induction false} ParseNatToString(n: nat)
    ensures ParseDecimal(NatToString(n)) == Some(n)
  {
    var s := NatToString(n);
    if n < 10 {
      assert s[..0] == [];
      assert DigitsValue(s) == n;
    } else {
      ParseNatToString(n / 10);
      assert s[..|s| - 1] == NatToString(n / 10);
      assert DigitsValue(s) == 10 * (n / 10) + n % 10;
    }
  }
}
