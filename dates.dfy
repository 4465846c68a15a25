/**
 * The date scanner: `re.finditer` of the pattern
 *   \b(\d{1,2}[/\.-]\d{1,2}[/\.-]\d{2,4})\b | \b(entre \d{4} e \d{4})\b | \b(\d{4})\b
 * over the raw text, followed by the clean-up and the year-range filter that
 * turn each match into a QUANDO entity.
 */
module Dates {
  import opened Results
  import opened Text
  import opened Catalog

  /** Position i holds a word character (`\w`). */
  predicate WordAt(t: string, i: int) {
    0 <= i < |t| && IsWordChar(t[i])
  }

  /** `\b` at position i: a word character on exactly one side. */
  predicate Boundary(t: string, i: nat) {
    WordAt(t, i - 1) != WordAt(t, i)
  }

  /** `\d{n}` at q. */
  predicate DigitsAt(t: string, q: nat, n: nat) {
    q + n <= |t| && forall i :: q <= i < q + n ==> IsDigit(t[i])
  }

  predicate IsSeparator(c: char) {
    c == '/' || c == '.' || c == '-'
  }

  /** `[/\.-]` at q. */
  predicate SeparatorAt(t: string, q: nat) {
    q < |t| && IsSeparator(t[q])
  }

  /** Every character of t[from..to] is a digit or a separator. */
  predicate NumericAt(t: string, from: nat, to: nat) {
    from <= to <= |t| && forall i :: from <= i < to ==> IsDigit(t[i]) || IsSeparator(t[i])
  }

  /** `\d{2,4}\b` at q, tried greedily: four digits, then three, then two. */
  function YearGroup(t: string, q: nat): (r: Option<nat>)
    ensures r.Some? ==> q + 2 <= r.value && NumericAt(t, q, r.value)
  {
    if DigitsAt(t, q, 4) && Boundary(t, q + 4) then Some(q + 4)
    else if DigitsAt(t, q, 3) && Boundary(t, q + 3) then Some(q + 3)
    else if DigitsAt(t, q, 2) && Boundary(t, q + 2) then Some(q + 2)
    else None
  }

  /** `\d{1,2}[/\.-]\d{2,4}\b` at q: two digits are tried before one. */
  function MonthGroup(t: string, q: nat): (r: Option<nat>)
    ensures r.Some? ==> q + 4 <= r.value && NumericAt(t, q, r.value)
  {
    if DigitsAt(t, q, 2) && SeparatorAt(t, q + 2) && YearGroup(t, q + 3).Some? then YearGroup(t, q + 3)
    else if DigitsAt(t, q, 1) && SeparatorAt(t, q + 1) then YearGroup(t, q + 2)
    else None
  }

  /** First alternative, `\b\d{1,2}[/\.-]\d{1,2}[/\.-]\d{2,4}\b`, at p. */
  function NumericDateAt(t: string, p: nat): (r: Option<nat>)
    ensures r.Some? ==> p + 6 <= r.value && NumericAt(t, p, r.value)
  {
    if !Boundary(t, p) then None
    else if DigitsAt(t, p, 2) && SeparatorAt(t, p + 2) && MonthGroup(t, p + 3).Some? then MonthGroup(t, p + 3)
    else if DigitsAt(t, p, 1) && SeparatorAt(t, p + 1) then MonthGroup(t, p + 2)
    else None
  }

  /** Second alternative, `\bentre \d{4} e \d{4}\b`, at p. */
  function RangeAt(t: string, p: nat): (r: Option<nat>)
    ensures r.Some? ==> r.value == p + 17 <= |t|
  {
    if && Boundary(t, p) && p + 17 <= |t|
       && t[p..p + 6] == "entre " && DigitsAt(t, p + 6, 4)
       && t[p + 10..p + 13] == " e " && DigitsAt(t, p + 13, 4)
       && Boundary(t, p + 17)
    then Some(p + 17)
    else None
  }

  /** Third alternative, `\b\d{4}\b`, at p. */
  function YearAt(t: string, p: nat): (r: Option<nat>)
    ensures r.Some? ==> r.value == p + 4 && DigitsAt(t, p, 4)
  {
    if Boundary(t, p) && DigitsAt(t, p, 4) && Boundary(t, p + 4) then Some(p + 4) else None
  }

  /** The whole pattern at p: the alternatives in order, the first that matches wins. */
  function MatchAt(t: string, p: nat): (r: Option<nat>)
    ensures r.Some? ==> p + 4 <= r.value <= |t|
  {
    if NumericDateAt(t, p).Some? then NumericDateAt(t, p)
    else if RangeAt(t, p).Some? then RangeAt(t, p)
    else YearAt(t, p)
  }

  /** A four-digit word is matched by the third alternative: the first two need a separator, the second a letter. */
  lemma BareYearMatch(t: string, p: nat)
    requires Boundary(t, p) && DigitsAt(t, p, 4) && Boundary(t, p + 4)
    ensures MatchAt(t, p) == Some(p + 4)
  {
    assert !SeparatorAt(t, p + 1) && !SeparatorAt(t, p + 2);
    if p + 17 <= |t| {
      assert t[p..p + 6][0] == t[p];
    }
  }

  /** A `dd/mm/yyyy` word is matched whole by the first alternative. */
  lemma FullDateMatch(t: string, p: nat)
    requires Boundary(t, p) && DigitsAt(t, p, 2) && SeparatorAt(t, p + 2)
    requires DigitsAt(t, p + 3, 2) && SeparatorAt(t, p + 5) && DigitsAt(t, p + 6, 4) && Boundary(t, p + 10)
    ensures MatchAt(t, p) == Some(p + 10)
  {
    assert YearGroup(t, p + 6) == Some(p + 10);
    assert MonthGroup(t, p + 3) == Some(p + 10);
  }

  /** What `\d{2,4}\b` consumed: two to four digits, then a word boundary. */
  lemma YearGroupSound(t: string, q: nat)
    requires YearGroup(t, q).Some?
    ensures var e := YearGroup(t, q).value;
      2 <= e - q <= 4 && DigitsAt(t, q, e - q) && Boundary(t, e)
  {
  }

  /** What `\d{1,2}[/\.-]\d{2,4}\b` consumed: b digits, a separator, then a year group. */
  lemma MonthGroupSound(t: string, q: nat) returns (b: nat)
    requires MonthGroup(t, q).Some?
    ensures 1 <= b <= 2 && DigitsAt(t, q, b) && SeparatorAt(t, q + b)
    ensures MonthGroup(t, q) == YearGroup(t, q + b + 1)
  {
    if DigitsAt(t, q, 2) && SeparatorAt(t, q + 2) && YearGroup(t, q + 3).Some? {
      b := 2;
    } else {
      b := 1;
    }
  }

  /**
   * What the first alternative consumed from p to e: a boundary at p, a digits
   * of day, a separator, b digits of month, a separator, two to four digits of
   * year, and a boundary at e.
   */
  lemma NumericDateSound(t: string, p: nat) returns (a: nat, b: nat)
    requires NumericDateAt(t, p).Some?
    ensures var e := NumericDateAt(t, p).value;
      && Boundary(t, p) && Boundary(t, e)
      && 1 <= a <= 2 && DigitsAt(t, p, a) && SeparatorAt(t, p + a)
      && 1 <= b <= 2 && DigitsAt(t, p + a + 1, b) && SeparatorAt(t, p + a + 1 + b)
      && 2 <= e - (p + a + b + 2) <= 4 && DigitsAt(t, p + a + b + 2, e - (p + a + b + 2))
  {
    if DigitsAt(t, p, 2) && SeparatorAt(t, p + 2) && MonthGroup(t, p + 3).Some? {
      a := 2;
    } else {
      a := 1;
    }
    b := MonthGroupSound(t, p + a + 1);
    YearGroupSound(t, p + a + b + 2);
  }

  /**
   * The converse of NumericDateSound: a boundary, a digits, a separator, b
   * digits, a separator, c digits and a boundary are matched whole by the
   * first alternative.
   */
  lemma NumericDateComplete(t: string, p: nat, a: nat, b: nat, c: nat)
    requires 1 <= a <= 2 && 1 <= b <= 2 && 2 <= c <= 4
    requires Boundary(t, p) && DigitsAt(t, p, a) && SeparatorAt(t, p + a)
    requires DigitsAt(t, p + a + 1, b) && SeparatorAt(t, p + a + 1 + b)
    requires DigitsAt(t, p + a + b + 2, c) && Boundary(t, p + a + b + 2 + c)
    ensures NumericDateAt(t, p) == Some(p + a + b + 2 + c)
  {
  }

  /** A match: the text t[start..end] is its (only non-empty) group. */
  datatype Match = Match(start: nat, end: nat)

  /**
   * `finditer` from position p: try the pattern at p; on a match, report it and
   * resume at its end; otherwise move one position on.
   */
  function Scan(t: string, p: nat): (ms: seq<Match>)
    requires p <= |t|
    ensures forall m :: m in ms ==> p <= m.start < m.end <= |t|
    decreases |t| - p
  {
    match MatchAt(t, p)
    case Some(e) => [Match(p, e)] + Scan(t, e)
    case None => if p == |t| then [] else Scan(t, p + 1)
  }

  /** All matches of the date pattern in t, left to right. */
  function Matches(t: string): seq<Match> {
    Scan(t, 0)
  }

  /** One step of the scan. */
  lemma ScanStep(t: string, p: nat)
    requires p <= |t|
    ensures MatchAt(t, p).Some? ==> Scan(t, p) == [Match(p, MatchAt(t, p).value)] + Scan(t, MatchAt(t, p).value)
    ensures MatchAt(t, p).None? && p < |t| ==> Scan(t, p) == Scan(t, p + 1)
    ensures MatchAt(t, p).None? && p == |t| ==> Scan(t, p) == []
  {
  }

  /** Matches are reported left to right and never overlap. */
  lemma {:induction false} ScanOrdered(t: string, p: nat)
    requires p <= |t|
    ensures forall i, j :: 0 <= i < j < |Scan(t, p)| ==> Scan(t, p)[i].end <= Scan(t, p)[j].start
    decreases |t| - p
  {
    ScanStep(t, p);
    if MatchAt(t, p).Some? {
      var e := MatchAt(t, p).value;
      ScanOrdered(t, e);
      OrderedCons(Match(p, e), Scan(t, e));
    } else if p < |t| {
      ScanOrdered(t, p + 1);
    }
  }

  lemma OrderedCons(m: Match, rest: seq<Match>)
    requires forall x :: x in rest ==> m.end <= x.start
    requires forall i, j :: 0 <= i < j < |rest| ==> rest[i].end <= rest[j].start
    ensures var ms := [m] + rest; forall i, j :: 0 <= i < j < |ms| ==> ms[i].end <= ms[j].start
  {
    var ms := [m] + rest;
    forall i, j | 0 <= i < j < |ms|
      ensures ms[i].end <= ms[j].start
    {
      assert ms[j] == rest[j - 1] && ms[j] in rest;
      if i > 0 {
        assert ms[i] == rest[i - 1];
      }
    }
  }

  lemma ScanStepNone(t: string, p: nat, q: nat)
    requires p <= q <= |t| && MatchAt(t, q).Some? && MatchAt(t, p).None?
    ensures p < q && Scan(t, p) == Scan(t, p + 1)
  {
  }

  /** No alternative starts at a character that is neither a digit nor the `e` of "entre ". */
  lemma NoMatchAt(t: string, p: nat)
    requires p < |t| && !IsDigit(t[p]) && !(p + 17 <= |t| && t[p..p + 6] == "entre ")
    ensures MatchAt(t, p) == None
  {
  }

  /**
   * No alternative can begin at p: not a digit, and not the "entr" of "entre "
   * with room for a whole range after it.
   */
  predicate CannotStart(t: string, p: nat)
    requires p < |t|
  {
    !IsDigit(t[p]) && (p + 17 > |t| || t[p] != 'e' || t[p + 1] != 'n' || t[p + 2] != 't' || t[p + 3] != 'r')
  }

  /** The scan passes over positions where no alternative can begin. */
  lemma {:induction false} ScanSkipText(t: string, p: nat, q: nat)
    requires p <= q <= |t|
    requires forall i :: p <= i < q ==> CannotStart(t, i)
    ensures Scan(t, p) == Scan(t, q)
    decreases q - p
  {
    if p < q {
      assert CannotStart(t, p);
      if p + 17 <= |t| {
        var w := t[p..p + 6];
        assert w[0] == t[p] && w[1] == t[p + 1] && w[2] == t[p + 2] && w[3] == t[p + 3];
      }
      NoMatchAt(t, p);
      ScanStep(t, p);
      ScanSkipText(t, p + 1, q);
    }
  }

  /** The scan passes over positions where the pattern does not match. */
  lemma {:induction false} ScanSkip(t: string, p: nat, q: nat)
    requires p <= q <= |t|
    requires forall i :: p <= i < q ==> MatchAt(t, i).None?
    ensures Scan(t, p) == Scan(t, q)
    decreases q - p
  {
    if p < q {
      ScanStep(t, p);
      ScanSkip(t, p + 1, q);
    }
  }

  /** Every reported match is a match of the pattern at its start position. */
  lemma {:induction false} ScanSound(t: string, p: nat)
    requires p <= |t|
    ensures forall m :: m in Scan(t, p) ==> MatchAt(t, m.start) == Some(m.end)
    decreases |t| - p
  {
    ScanStep(t, p);
    if MatchAt(t, p).Some? {
      ScanSound(t, MatchAt(t, p).value);
    } else if p < |t| {
      ScanSound(t, p + 1);
    }
  }

  /** Position q lies inside one of the matches. */
  predicate Covered(ms: seq<Match>, q: nat) {
    exists i :: 0 <= i < |ms| && ms[i].start <= q < ms[i].end
  }

  /**
   * No match is skipped: every position where the pattern matches lies inside
   * one of the reported matches (finditer is leftmost-first and only skips what
   * an earlier match consumed).
   */
  lemma {:induction false} ScanLeftmost(t: string, p: nat, q: nat)
    requires p <= q <= |t| && MatchAt(t, q).Some?
    ensures Covered(Scan(t, p), q)
    decreases |t| - p
  {
    if MatchAt(t, p).None? {
      ScanStepNone(t, p, q);
      ScanLeftmost(t, p + 1, q);
    } else {
      var e := MatchAt(t, p).value;
      ScanStep(t, p);
      var ms := Scan(t, p);
      if q >= e {
        ScanLeftmost(t, e, q);
        var rest := Scan(t, e);
        var i :| 0 <= i < |rest| && rest[i].start <= q < rest[i].end;
        assert ms[i + 1] == rest[i];
      } else {
        assert ms[0].start <= q < ms[0].end;
      }
    }
  }

  /** Two distinct reported matches never share a character. */
  lemma MatchesDisjoint(t: string)
    ensures forall i, j :: 0 <= i < |Matches(t)| && 0 <= j < |Matches(t)| && i != j ==>
      Matches(t)[i].end <= Matches(t)[j].start || Matches(t)[j].end <= Matches(t)[i].start
  {
    ScanOrdered(t, 0);
  }

  /** A four-character value survives only as a year in 1000..2099 (the `len == 4` check). */
  predicate KeptDate(clean: string) {
    |clean| == 4 ==> ParseDecimal(clean).Some? && 1000 <= ParseDecimal(clean).value <= 2099
  }

  /** On a four-character value the year filter keeps exactly four ASCII digits reading 1000..2099. */
  lemma KeptFourCharacters(c: string)
    requires |c| == 4
    ensures KeptDate(c) <==> (forall i :: 0 <= i < 4 ==> IsDigit(c[i])) && 1000 <= DigitsValue(c) <= 2099
  {
  }

  /** The clean-up, the year filter and the emptiness check applied to one matched group. */
  function DateValue(group: string): Option<string> {
    var clean := Clean(Strip(group));
    if !KeptDate(clean) then None
    else if clean == [] then None
    else Some(clean)
  }

  /** The QUANDO entity one match contributes, if any. */
  function DateEntity(t: string, m: Match): seq<Entity>
    requires m.start <= m.end <= |t|
  {
    match DateValue(t[m.start..m.end])
    case Some(v) => [Entity(v, Quando)]
    case None => []
  }

  /** One match's entity, spelled out as the clean-up, the year filter and the emptiness check. */
  lemma DateEntityUnfold(t: string, m: Match)
    requires m.start <= m.end <= |t|
    ensures var c := Clean(Strip(t[m.start..m.end]));
      DateEntity(t, m) == if KeptDate(c) && c != [] then [Entity(c, Quando)] else []
  {
  }

  predicate WithinText(t: string, ms: seq<Match>) {
    forall m :: m in ms ==> m.start <= m.end <= |t|
  }

  /** The QUANDO entities of a sequence of matches, in match order. */
  function DatesOf(t: string, ms: seq<Match>): seq<Entity>
    requires WithinText(t, ms)
  {
    if ms == [] then [] else DatesOf(t, ms[..|ms| - 1]) + DateEntity(t, ms[|ms| - 1])
  }

  lemma DatesOfStep(t: string, ms: seq<Match>, j: nat)
    requires WithinText(t, ms) && j < |ms|
    ensures WithinText(t, ms[..j]) && WithinText(t, ms[..j + 1])
    ensures DatesOf(t, ms[..j + 1]) == DatesOf(t, ms[..j]) + DateEntity(t, ms[j])
    ensures DateEntity(t, ms[j]) == [] ==> DatesOf(t, ms[..j + 1]) == DatesOf(t, ms[..j])
  {
    assert ms[..j + 1][..j] == ms[..j];
  }

  /** The QUANDO entities found in the text. */
  function DateEntities(t: string): seq<Entity> {
    DatesOf(t, Matches(t))
  }

  /** A well-formed date entity: label QUANDO, a non-empty normalized value, a plausible year. */
  predicate IsDateEntity(e: Entity) {
    e.category == Quando && e.value != [] && Normalized(e.value) && KeptDate(e.value)
  }

  lemma DateEntityWellFormed(t: string, m: Match)
    requires m.start <= m.end <= |t|
    ensures forall e :: e in DateEntity(t, m) ==> IsDateEntity(e)
  {
    CleanNormalized(Strip(t[m.start..m.end]));
  }

  /**
   * Every date entity is labelled QUANDO and has a non-empty normalized value;
   * a four-character value is a year between 1000 and 2099.
   */
  lemma {:induction false} DatesOfWellFormed(t: string, ms: seq<Match>)
    requires WithinText(t, ms)
    ensures forall e :: e in DatesOf(t, ms) ==> IsDateEntity(e)
    decreases |ms|
  {
    if ms != [] {
      DatesOfWellFormed(t, ms[..|ms| - 1]);
      DateEntityWellFormed(t, ms[|ms| - 1]);
    }
  }

  lemma DateEntitiesWellFormed(t: string)
    ensures forall e :: e in DateEntities(t) ==> IsDateEntity(e)
  {
    DatesOfWellFormed(t, Matches(t));
  }

  /** A text with no whitespace character at all is in normal form. */
  lemma SpacelessNormalized(g: string)
    requires forall i :: 0 <= i < |g| ==> !IsSpace(g[i])
    ensures Normalized(g)
  {
  }

  /** The group of a range match, `entre dddd e dddd`, is in normal form. */
  lemma RangeNormalized(g: string)
    requires |g| == 17 && g[..6] == "entre " && g[10..13] == " e "
    requires forall i :: 6 <= i < 10 || 13 <= i < 17 ==> IsDigit(g[i])
    ensures Normalized(g)
  {
    forall i | 0 <= i < 17 && IsSpace(g[i])
      ensures i == 5 || i == 10 || i == 12
    {
      if i < 6 {
        assert g[i] == g[..6][i];
      } else if 10 <= i < 13 {
        assert g[i] == g[10..13][i - 10];
      }
    }
    assert g[5] == g[..6][5] && g[10] == g[10..13][0] && g[12] == g[10..13][2];
  }

  /**
   * The group of a match is in normal form, and it has four characters only when
   * it is the bare four-digit alternative.
   */
  lemma MatchShape(t: string, p: nat)
    requires MatchAt(t, p).Some?
    ensures Normalized(t[p..MatchAt(t, p).value])
    ensures MatchAt(t, p).value - p == 4 ==> DigitsAt(t, p, 4)
  {
    var e := MatchAt(t, p).value;
    var g := t[p..e];
    if NumericDateAt(t, p).Some? {
      assert forall i :: 0 <= i < |g| ==> g[i] == t[p + i];
      SpacelessNormalized(g);
    } else if RangeAt(t, p).Some? {
      assert g[..6] == t[p..p + 6] && g[10..13] == t[p + 10..p + 13];
      assert forall i :: 0 <= i < |g| ==> g[i] == t[p + i];
      RangeNormalized(g);
    } else {
      assert forall i :: 0 <= i < |g| ==> g[i] == t[p + i];
      SpacelessNormalized(g);
    }
  }

  /** A non-empty group in normal form is its own value, unless it is a four-digit number out of range. */
  lemma NormalizedDateValue(g: string)
    requires g != [] && Normalized(g)
    requires |g| == 4 ==> forall i :: 0 <= i < 4 ==> IsDigit(g[i])
    ensures DateValue(g) == if |g| == 4 && !(1000 <= DigitsValue(g) <= 2099) then None else Some(g)
  {
    StripCleanFixesNormalized(g);
    if |g| == 4 {
      assert ParseDecimal(g) == Some(DigitsValue(g));
    }
    assert KeptDate(g) <==> !(|g| == 4 && !(1000 <= DigitsValue(g) <= 2099));
  }

  /** What a non-empty group in normal form contributes. */
  lemma NormalizedGroupEntity(t: string, m: Match)
    requires m.start < m.end <= |t|
    requires Normalized(t[m.start..m.end])
    requires m.end - m.start == 4 ==> DigitsAt(t, m.start, 4)
    ensures var g := t[m.start..m.end];
      DateEntity(t, m) == if |g| == 4 && !(1000 <= DigitsValue(g) <= 2099) then [] else [Entity(g, Quando)]
  {
    var g := t[m.start..m.end];
    if |g| == 4 {
      assert forall i :: 0 <= i < 4 ==> g[i] == t[m.start + i];
    }
    NormalizedDateValue(g);
  }

  /**
   * A match yields its exact text as a QUANDO entity, unless it is a bare
   * four-digit number outside 1000..2099, in which case it yields nothing.
   */
  lemma DateEntityOfMatch(t: string, m: Match)
    requires m.start <= |t| && MatchAt(t, m.start) == Some(m.end)
    ensures var g := t[m.start..m.end];
      DateEntity(t, m) == if |g| == 4 && !(1000 <= DigitsValue(g) <= 2099) then [] else [Entity(g, Quando)]
  {
    MatchShape(t, m.start);
    NormalizedGroupEntity(t, m);
  }
}
