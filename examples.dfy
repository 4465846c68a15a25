/**
 * Worked scenarios: the extraction on small concrete inputs, each derived
 * from the general lemmas of the other modules.
 */
module Scenarios {
  import opened Text
  import opened Catalog
  import opened Dates
  import opened Duplicates
  import opened Extraction

  // ---------------------------------------------------------------------------
  // Helpers: one general step each, so that the concrete lemmas below only
  // have to check character facts.

  /** The value of four ASCII digits. */
  lemma DigitsValueFour(s: string)
    requires |s| == 4 && forall i :: 0 <= i < 4 ==> IsDigit(s[i])
    ensures DigitsValue(s) == 1000 * (s[0] as int - '0' as int) + 100 * (s[1] as int - '0' as int)
      + 10 * (s[2] as int - '0' as int) + (s[3] as int - '0' as int)
  {
    var d0, d1, d2 := s[0] as int - '0' as int, s[1] as int - '0' as int, s[2] as int - '0' as int;
    assert s[..1][..0] == [] && s[..1][0] == s[0];
    assert DigitsValue(s[..1]) == d0;
    assert s[..2][..1] == s[..1] && s[..2][1] == s[1];
    assert DigitsValue(s[..2]) == 10 * d0 + d1;
    assert s[..3][..2] == s[..2] && s[..3][2] == s[2];
    assert DigitsValue(s[..3]) == 100 * d0 + 10 * d1 + d2;
    assert s[..3] == s[..|s| - 1];
  }

  lemma SliceIs(t: string, i: nat, w: string)
    requires i + |w| <= |t| && forall k :: 0 <= k < |w| ==> t[i + k] == w[k]
    ensures t[i..i + |w|] == w
  {
  }

  /** Scanning from p over inert text up to a four-digit word at q reports that word first. */
  lemma ScanToYear(t: string, p: nat, q: nat)
    requires p <= q && DigitsAt(t, q, 4) && Boundary(t, q) && Boundary(t, q + 4)
    requires forall i :: p <= i < q ==> CannotStart(t, i)
    ensures Scan(t, p) == [Match(q, q + 4)] + Scan(t, q + 4)
  {
    ScanSkipText(t, p, q);
    BareYearMatch(t, q);
    ScanStep(t, q);
  }

  /** Scanning from p over inert text up to a `dd/mm/yyyy` word at q reports that date first. */
  lemma ScanToFullDate(t: string, p: nat, q: nat)
    requires p <= q && DigitsAt(t, q, 2) && SeparatorAt(t, q + 2) && DigitsAt(t, q + 3, 2)
    requires SeparatorAt(t, q + 5) && DigitsAt(t, q + 6, 4) && Boundary(t, q) && Boundary(t, q + 10)
    requires forall i :: p <= i < q ==> CannotStart(t, i)
    ensures Scan(t, p) == [Match(q, q + 10)] + Scan(t, q + 10)
  {
    ScanSkipText(t, p, q);
    FullDateMatch(t, q);
    ScanStep(t, q);
  }

  /** Scanning inert text to its end reports nothing. */
  lemma ScanToEnd(t: string, p: nat)
    requires p <= |t| && forall i :: p <= i < |t| ==> CannotStart(t, i)
    ensures Scan(t, p) == []
  {
    ScanSkipText(t, p, |t|);
    ScanStep(t, |t|);
  }

  /** The QUANDO entities of a text with exactly one match. */
  lemma DateEntitiesOfOne(t: string, m: Match)
    requires Matches(t) == [m]
    ensures m.start <= m.end <= |t|
    ensures DateEntities(t) == DateEntity(t, m)
  {
    assert m in Matches(t);
    assert [m][..0] == [];
    assert DatesOf(t, [m]) == DatesOf(t, []) + DateEntity(t, m);
  }

  /** The QUANDO entities of a text with exactly two matches. */
  lemma DateEntitiesOfTwo(t: string, m1: Match, m2: Match)
    requires Matches(t) == [m1, m2]
    ensures m1.start <= m1.end <= |t| && m2.start <= m2.end <= |t|
    ensures DateEntities(t) == DateEntity(t, m1) + DateEntity(t, m2)
  {
    assert m1 in Matches(t) && m2 in Matches(t);
    var ms := [m1, m2];
    assert ms[..|ms| - 1] == [m1] && [m1][..0] == [];
    assert DatesOf(t, [m1]) == DateEntity(t, m1);
    assert DatesOf(t, ms) == DatesOf(t, [m1]) + DateEntity(t, m2);
  }

  /** The entity of a four-digit word y at q: itself when it is a year in 1000..2099, else nothing. */
  lemma YearEntity(t: string, q: nat, y: string)
    requires DigitsAt(t, q, 4) && Boundary(t, q) && Boundary(t, q + 4) && t[q..q + 4] == y
    ensures |y| == 4 && forall i :: 0 <= i < 4 ==> IsDigit(y[i])
    ensures DateEntity(t, Match(q, q + 4)) == if 1000 <= DigitsValue(y) <= 2099 then [Entity(y, Quando)] else []
  {
    assert forall i :: 0 <= i < 4 ==> y[i] == t[q + i];
    BareYearMatch(t, q);
    DateEntityOfMatch(t, Match(q, q + 4));
  }

  /** The entity of a `dd/mm/yyyy` word d at q: d itself. */
  lemma FullDateEntity(t: string, q: nat, d: string)
    requires DigitsAt(t, q, 2) && SeparatorAt(t, q + 2) && DigitsAt(t, q + 3, 2)
    requires SeparatorAt(t, q + 5) && DigitsAt(t, q + 6, 4) && Boundary(t, q) && Boundary(t, q + 10)
    requires t[q..q + 10] == d
    ensures DateEntity(t, Match(q, q + 10)) == [Entity(d, Quando)]
  {
    FullDateMatch(t, q);
    DateEntityOfMatch(t, Match(q, q + 10));
  }

  /** A text of letters and single inner spaces is in normal form. */
  lemma WordsNormalized(s: string)
    requires s != [] && s[0] != ' ' && s[|s| - 1] != ' '
    requires forall i :: 0 <= i < |s| ==> s[i] == ' ' || ('a' <= s[i] <= 'z') || ('A' <= s[i] <= 'Z') || s[i] == '\U{E3}'
    requires forall i :: 0 < i < |s| ==> s[i - 1] != ' ' || s[i] != ' '
    ensures Normalized(s)
  {
  }

  /** A span whose text is already clean and whose label is kept yields that text under the mapped label. */
  lemma CleanSpan(text: string, tag: string)
    requires text != [] && Normalized(text) && IsRecognizerLabel(MapLabel(tag))
    ensures SpanEntity(Span(text, tag)) == [Entity(text, MapLabel(tag))]
  {
    CleanFixesNormalized(text);
  }

  lemma SpanEntitiesOfThree(s1: Span, s2: Span, s3: Span, e1: Entity, e2: Entity, e3: Entity)
    requires SpanEntity(s1) == [e1] && SpanEntity(s2) == [e2] && SpanEntity(s3) == [e3]
    ensures SpanEntities([s1, s2, s3]) == [e1, e2, e3]
  {
    var spans := [s1, s2, s3];
    assert spans[..2] == [s1, s2] && [s1, s2][..1] == [s1] && [s1][..0] == [];
    assert SpanEntities([s1]) == SpanEntity(s1);
    assert SpanEntities([s1, s2]) == SpanEntity(s1) + SpanEntity(s2);
  }

  /** The four catalog labels are different. */
  lemma CatalogLabelsDistinct()
    ensures Quem != Onde && Quem != OQue && Quem != Quando && Onde != OQue && Onde != Quando && OQue != Quando
  {
  }

  /** Four entities with pairwise different labels never share a key. */
  lemma DistinctCategories(a: Entity, b: Entity, c: Entity, d: Entity)
    requires a.category != b.category && a.category != c.category && a.category != d.category
    requires b.category != c.category && b.category != d.category && c.category != d.category
    ensures DistinctKeys([a, b, c, d])
  {
  }

  /** When no two candidates share a key, the extraction returns the candidates as they are. */
  lemma ExtractDistinct(text: string, spans: seq<Span>)
    requires DistinctKeys(Candidates(text, spans))
    ensures ExtractEntities(text, spans) == Candidates(text, spans)
  {
    DedupOfDistinct(Candidates(text, spans));
  }

  // ---------------------------------------------------------------------------
  // A year inside the range is kept.

  lemma OneYearShape()
    ensures var t := "ano 1500";
      && (forall i :: 0 <= i < 4 ==> CannotStart(t, i))
      && DigitsAt(t, 4, 4) && Boundary(t, 4) && Boundary(t, 8)
      && t[4..8] == "1500"
  {
  }

  /** "ano 1500" yields the QUANDO entity "1500". */
  lemma YearInRangeKept()
    ensures DateEntities("ano 1500") == [Entity("1500", Quando)]
  {
    var t := "ano 1500";
    OneYearShape();
    ScanToYear(t, 0, 4);
    ScanToEnd(t, 8);
    DateEntitiesOfOne(t, Match(4, 8));
    YearEntity(t, 4, "1500");
    DigitsValueFour("1500");
  }

  // ---------------------------------------------------------------------------
  // Years outside the range are dropped.

  lemma TwoYearsShape()
    ensures var t := "ano 0999 e ano 2100";
      && (forall i :: 0 <= i < 4 ==> CannotStart(t, i))
      && DigitsAt(t, 4, 4) && Boundary(t, 4) && Boundary(t, 8)
      && (forall i :: 8 <= i < 15 ==> CannotStart(t, i))
      && DigitsAt(t, 15, 4) && Boundary(t, 15) && Boundary(t, 19)
  {
  }

  lemma TwoYearsSlices()
    ensures "ano 0999 e ano 2100"[4..8] == "0999" && "ano 0999 e ano 2100"[15..19] == "2100"
  {
  }

  lemma MatchesTwoYears()
    ensures Matches("ano 0999 e ano 2100") == [Match(4, 8), Match(15, 19)]
  {
    var t := "ano 0999 e ano 2100";
    TwoYearsShape();
    ScanToYear(t, 0, 4);
    ScanToYear(t, 8, 15);
    ScanToEnd(t, 19);
  }

  /** "ano 0999 e ano 2100" yields no QUANDO entity: both numbers fall outside 1000..2099. */
  lemma YearsOutOfRangeDropped()
    ensures DateEntities("ano 0999 e ano 2100") == []
  {
    var t := "ano 0999 e ano 2100";
    MatchesTwoYears();
    DateEntitiesOfTwo(t, Match(4, 8), Match(15, 19));
    TwoYearsShape();
    TwoYearsSlices();
    YearEntity(t, 4, "0999");
    YearEntity(t, 15, "2100");
    DigitsValueFour("0999");
    DigitsValueFour("2100");
  }

  // ---------------------------------------------------------------------------
  // A numeric date is taken whole, and a later year separately.

  lemma DateShape()
    ensures var t := "Documento de 15/03/1842, revisado em 2020";
      && (forall i :: 0 <= i < 13 ==> CannotStart(t, i))
  {
  }

  /** The digit and separator positions of a `dd/mm/yyyy` word d found at q. */
  lemma FullDateWord(t: string, q: nat, d: string)
    requires q + 10 <= |t| && t[q..q + 10] == d
    requires IsDigit(d[0]) && IsDigit(d[1]) && IsSeparator(d[2]) && IsDigit(d[3]) && IsDigit(d[4])
    requires IsSeparator(d[5]) && IsDigit(d[6]) && IsDigit(d[7]) && IsDigit(d[8]) && IsDigit(d[9])
    ensures DigitsAt(t, q, 2) && SeparatorAt(t, q + 2) && DigitsAt(t, q + 3, 2)
    ensures SeparatorAt(t, q + 5) && DigitsAt(t, q + 6, 4)
  {
    assert forall i :: 0 <= i < 10 ==> t[q + i] == d[i];
  }

  lemma DateDigitsShape()
    ensures var t := "Documento de 15/03/1842, revisado em 2020";
      && DigitsAt(t, 13, 2) && SeparatorAt(t, 15) && DigitsAt(t, 16, 2)
      && SeparatorAt(t, 18) && DigitsAt(t, 19, 4)
  {
    DateAndYearSlices();
    FullDateWord("Documento de 15/03/1842, revisado em 2020", 13, "15/03/1842");
  }

  lemma DateBoundaryShape()
    ensures var t := "Documento de 15/03/1842, revisado em 2020";
      Boundary(t, 13) && Boundary(t, 23)
  {
  }

  lemma YearAfterDateShape()
    ensures var t := "Documento de 15/03/1842, revisado em 2020";
      && (forall i :: 23 <= i < 37 ==> CannotStart(t, i))
      && DigitsAt(t, 37, 4) && Boundary(t, 37) && Boundary(t, 41)
  {
  }

  lemma DateAndYearSlices()
    ensures "Documento de 15/03/1842, revisado em 2020"[13..23] == "15/03/1842" && "Documento de 15/03/1842, revisado em 2020"[37..41] == "2020"
  {
    SliceIs("Documento de 15/03/1842, revisado em 2020", 13, "15/03/1842");
  }

  lemma MatchesDateAndYear()
    ensures Matches("Documento de 15/03/1842, revisado em 2020") == [Match(13, 23), Match(37, 41)]
  {
    var t := "Documento de 15/03/1842, revisado em 2020";
    DateShape();
    DateDigitsShape();
    DateBoundaryShape();
    YearAfterDateShape();
    ScanToFullDate(t, 0, 13);
    ScanToYear(t, 23, 37);
    ScanToEnd(t, 41);
  }

  lemma NumericDateKept()
    ensures DateEntity("Documento de 15/03/1842, revisado em 2020", Match(13, 23)) == [Entity("15/03/1842", Quando)]
  {
    DateDigitsShape();
    DateBoundaryShape();
    DateAndYearSlices();
    FullDateEntity("Documento de 15/03/1842, revisado em 2020", 13, "15/03/1842");
  }

  lemma YearAfterDateKept()
    ensures DateEntity("Documento de 15/03/1842, revisado em 2020", Match(37, 41)) == [Entity("2020", Quando)]
  {
    YearAfterDateShape();
    DateAndYearSlices();
    YearEntity("Documento de 15/03/1842, revisado em 2020", 37, "2020");
    DigitsValueFour("2020");
  }

  /**
   * "Documento de 15/03/1842, revisado em 2020" yields "15/03/1842" and then
   * "2020": the year inside the date is not reported on its own.
   */
  lemma DateAndYearInOrder()
    ensures DateEntities("Documento de 15/03/1842, revisado em 2020") == [Entity("15/03/1842", Quando), Entity("2020", Quando)]
  {
    MatchesDateAndYear();
    DateEntitiesOfTwo("Documento de 15/03/1842, revisado em 2020", Match(13, 23), Match(37, 41));
    NumericDateKept();
    YearAfterDateKept();
  }

  // ---------------------------------------------------------------------------
  // Recognizer spans are cleaned.

  lemma NameParts()
    ensures "Jo\U{E3}o" + "   " + "Silva" == "Jo\U{E3}o   Silva"
    ensures "Jo\U{E3}o" + [' '] + "Silva" == "Jo\U{E3}o Silva"
    ensures forall i :: 0 <= i < 4 ==> !IsSpace("Jo\U{E3}o"[i])
    ensures IsBlank("   ") && !IsSpace('S')
    ensures NoSpaceRun("Silva") && PlainSpacesOnly("Silva")
    ensures !IsSpace('J') && !IsSpace('a')
  {
  }

  /** The whitespace run of a name typed with three spaces collapses to one space. */
  lemma NameCollapsed()
    ensures Collapse("Jo\U{E3}o   Silva") == "Jo\U{E3}o Silva"
  {
    NameParts();
    CollapseRun("Jo\U{E3}o", "   ", "Silva");
    CollapseFixesNormalized("Silva");
  }

  lemma NameCleaned()
    ensures Clean("Jo\U{E3}o   Silva") == "Jo\U{E3}o Silva"
  {
    NameCollapsed();
    NameParts();
    StripFixesTrimmed("Jo\U{E3}o Silva");
  }

  /** A PER span "João   Silva" yields the QUEM entity "João Silva". */
  lemma SpanWhitespaceCollapsed()
    ensures SpanEntities([Span("Jo\U{E3}o   Silva", "PER")]) == [Entity("Jo\U{E3}o Silva", Quem)]
  {
    NameCleaned();
    assert [Span("Jo\U{E3}o   Silva", "PER")][..0] == [];
  }

  // ---------------------------------------------------------------------------
  // Duplicates differ only by case.

  /** Keys compare lower-cased values: a later "brasil" is a duplicate of "Brasil", and the first casing stays. */
  lemma DedupIgnoresCase()
    ensures Dedup([Entity("Brasil", Onde), Entity("brasil", Onde)]) == [Entity("Brasil", Onde)]
  {
    var es := [Entity("Brasil", Onde), Entity("brasil", Onde)];
    assert Lower("Brasil") == Lower("brasil");
    assert es[..1] == [es[0]] && [es[0]][..0] == [];
    assert Dedup([es[0]]) == [es[0]];
    assert Key(es[1]) in Keys([es[0]]);
  }

  // ---------------------------------------------------------------------------
  // The whole extraction on a letter.

  lemma LetterTextShape()
    ensures var t := "Carta de Jo\U{E3}o Silva, Rio de Janeiro, 1920.";
      forall i :: 0 <= i < 37 ==> CannotStart(t, i)
  {
  }

  lemma LetterYearShape()
    ensures var t := "Carta de Jo\U{E3}o Silva, Rio de Janeiro, 1920.";
      && DigitsAt(t, 37, 4) && Boundary(t, 37) && Boundary(t, 41) && CannotStart(t, 41)
      && t[37..41] == "1920"
  {
    SliceIs("Carta de Jo\U{E3}o Silva, Rio de Janeiro, 1920.", 37, "1920");
  }

  lemma LetterDates()
    ensures DateEntities("Carta de Jo\U{E3}o Silva, Rio de Janeiro, 1920.") == [Entity("1920", Quando)]
  {
    var t := "Carta de Jo\U{E3}o Silva, Rio de Janeiro, 1920.";
    LetterTextShape();
    LetterYearShape();
    ScanToYear(t, 0, 37);
    ScanToEnd(t, 41);
    DateEntitiesOfOne(t, Match(37, 41));
    YearEntity(t, 37, "1920");
    DigitsValueFour("1920");
  }

  lemma LetterTexts()
    ensures "Jo\U{E3}o Silva" != [] && Normalized("Jo\U{E3}o Silva")
    ensures "Rio de Janeiro" != [] && Normalized("Rio de Janeiro")
    ensures "Carta" != [] && Normalized("Carta")
  {
    WordsNormalized("Jo\U{E3}o Silva");
    WordsNormalized("Rio de Janeiro");
    WordsNormalized("Carta");
  }

  lemma LetterLabels()
    ensures MapLabel("PER") == Quem && MapLabel("LOC") == Onde && MapLabel("O_QUE") == OQue
    ensures IsRecognizerLabel(Quem) && IsRecognizerLabel(Onde) && IsRecognizerLabel(OQue)
  {
  }

  lemma LetterSpans()
    ensures SpanEntities([Span("Jo\U{E3}o Silva", "PER"), Span("Rio de Janeiro", "LOC"), Span("Carta", "O_QUE")])
      == [Entity("Jo\U{E3}o Silva", Quem), Entity("Rio de Janeiro", Onde), Entity("Carta", OQue)]
  {
    LetterTexts();
    LetterLabels();
    CleanSpan("Jo\U{E3}o Silva", "PER");
    CleanSpan("Rio de Janeiro", "LOC");
    CleanSpan("Carta", "O_QUE");
    SpanEntitiesOfThree(Span("Jo\U{E3}o Silva", "PER"), Span("Rio de Janeiro", "LOC"), Span("Carta", "O_QUE"),
      Entity("Jo\U{E3}o Silva", Quem), Entity("Rio de Janeiro", Onde), Entity("Carta", OQue));
  }

  lemma LetterCandidates()
    ensures Candidates("Carta de Jo\U{E3}o Silva, Rio de Janeiro, 1920.", [Span("Jo\U{E3}o Silva", "PER"), Span("Rio de Janeiro", "LOC"), Span("Carta", "O_QUE")]) == [Entity("Jo\U{E3}o Silva", Quem), Entity("Rio de Janeiro", Onde), Entity("Carta", OQue), Entity("1920", Quando)]
  {
    LetterSpans();
    LetterDates();
  }

  /**
   * "Carta de João Silva, Rio de Janeiro, 1920." with the spans João Silva
   * (PER), Rio de Janeiro (LOC) and Carta (O_QUE) yields the person, the
   * place and the document kind, in span order, then the year.
   */
  lemma LetterEntities()
    ensures ExtractEntities("Carta de Jo\U{E3}o Silva, Rio de Janeiro, 1920.", [Span("Jo\U{E3}o Silva", "PER"), Span("Rio de Janeiro", "LOC"), Span("Carta", "O_QUE")]) == [Entity("Jo\U{E3}o Silva", Quem), Entity("Rio de Janeiro", Onde), Entity("Carta", OQue), Entity("1920", Quando)]
  {
    LetterCandidates();
    CatalogLabelsDistinct();
    DistinctCategories(Entity("Jo\U{E3}o Silva", Quem), Entity("Rio de Janeiro", Onde), Entity("Carta", OQue), Entity("1920", Quando));
    ExtractDistinct("Carta de Jo\U{E3}o Silva, Rio de Janeiro, 1920.", [Span("Jo\U{E3}o Silva", "PER"), Span("Rio de Janeiro", "LOC"), Span("Carta", "O_QUE")]);
  }
}
