/**
 * Catalog entities, the mapping of the recognizer's generic labels onto the
 * catalog labels, and the filter that turns recognizer spans into entities.
 */
module Catalog {
  import opened Text

  /** An extracted entity: a cleaned text value and its catalog label. */
  datatype Entity = Entity(value: string, category: string)

  /** A span reported by the recognizer: its text and its generic label. */
  datatype Span = Span(text: string, tag: string)

  /** The catalog labels: who, where, what and when. */
  const Quem: string := "QUEM"
  const Onde: string := "ONDE"
  const OQue: string := "O_QUE"
  const Quando: string := "QUANDO"

  /** The labels a recognizer span may end up with to be kept. */
  predicate IsRecognizerLabel(category: string) {
    category == Quem || category == Onde || category == OQue
  }

  /** Maps a recognizer label to a catalog label; any other label passes through. */
  function MapLabel(spacyLabel: string): (r: string)
    ensures spacyLabel == OQue || spacyLabel == "MISC" ==> r == OQue
    ensures spacyLabel == "PER" || spacyLabel == "ORG" ==> r == Quem
    ensures spacyLabel == "LOC" || spacyLabel == "GPE" ==> r == Onde
    ensures spacyLabel !in {OQue, "MISC", "PER", "ORG", "LOC", "GPE"} ==> r == spacyLabel
  {
    if spacyLabel == OQue then OQue
    else if spacyLabel == "PER" then Quem
    else if spacyLabel == "ORG" then Quem
    else if spacyLabel == "LOC" then Onde
    else if spacyLabel == "GPE" then Onde
    else if spacyLabel == "MISC" then OQue
    else spacyLabel
  }

  /**
   * A span survives the label filter exactly when its label is one of the six
   * mapped labels or already a recognizer catalog label (QUEM, ONDE).
   */
  lemma MapLabelKept(spacyLabel: string)
    ensures IsRecognizerLabel(MapLabel(spacyLabel))
        <==> spacyLabel in {OQue, "MISC", "PER", "ORG", "LOC", "GPE", Quem, Onde}
  {
  }

  /** The entity one span contributes: none, or its cleaned text under its mapped label. */
  function SpanEntity(span: Span): seq<Entity> {
    var mapped := MapLabel(span.tag);
    if IsRecognizerLabel(mapped) && Clean(span.text) != [] then [Entity(Clean(span.text), mapped)] else []
  }

  /** The entities the recognizer spans yield, in span order. */
  function SpanEntities(spans: seq<Span>): seq<Entity> {
    if spans == [] then [] else SpanEntities(spans[..|spans| - 1]) + SpanEntity(spans[|spans| - 1])
  }

  lemma SpanEntitiesStep(spans: seq<Span>, i: nat)
    requires i < |spans|
    ensures SpanEntities(spans[..i + 1]) == SpanEntities(spans[..i]) + SpanEntity(spans[i])
  {
    assert spans[..i + 1][..i] == spans[..i];
  }

  /** A well-formed recognizer entity: a recognizer label and a non-empty normalized value. */
  predicate IsRecognizerEntity(e: Entity) {
    IsRecognizerLabel(e.category) && e.value != [] && Normalized(e.value)
  }

  /** What one span contributes, stated without the filter's code. */
  lemma SpanEntityKept(span: Span)
    ensures SpanEntity(span) != [] <==> IsRecognizerLabel(MapLabel(span.tag)) && !IsBlank(span.text)
    ensures forall e :: e in SpanEntity(span) ==> IsRecognizerEntity(e)
  {
    CleanEmptyIffBlank(span.text);
    CleanNormalized(span.text);
  }

  /** Every kept recognizer entity is well formed. */
  lemma {:induction false} SpanEntitiesWellFormed(spans: seq<Span>)
    ensures forall e :: e in SpanEntities(spans) ==> IsRecognizerEntity(e)
    decreases |spans|
  {
    if spans != [] {
      SpanEntitiesWellFormed(spans[..|spans| - 1]);
      SpanEntityKept(spans[|spans| - 1]);
    }
  }

  /**
   * The span filter distributes over concatenation: entities of earlier spans
   * precede entities of later spans, so the recognizer's order is kept.
   */
  lemma {:induction false} SpanEntitiesAppend(a: seq<Span>, b: seq<Span>)
    ensures SpanEntities(a + b) == SpanEntities(a) + SpanEntities(b)
    decreases |b|
  {
    if b == [] {
      assert a + b == a;
    } else {
      var b', last := b[..|b| - 1], b[|b| - 1];
      assert (a + b)[..|a + b| - 1] == a + b';
      assert (a + b)[|a + b| - 1] == last;
      SpanEntitiesAppend(a, b');
      calc {
        SpanEntities(a + b);
        SpanEntities(a + b') + SpanEntity(last);
        SpanEntities(a) + SpanEntities(b') + SpanEntity(last);
        SpanEntities(a) + SpanEntities(b);
      }
    }
  }

  /** Each span contributes at most one entity. */
  lemma {:induction false} SpanEntitiesLength(spans: seq<Span>)
    ensures |SpanEntities(spans)| <= |spans|
    decreases |spans|
  {
    if spans != [] {
      SpanEntitiesLength(spans[..|spans| - 1]);
    }
  }
}
