/**
 * Entity extraction from a text (`_extract_entities_from_text`): recognizer
 * entities, then date entities, then duplicate removal.
 */
module Extraction {
  import opened Text
  import opened Catalog
  import opened Dates
  import opened Duplicates

  /** The entities before duplicate removal: recognizer entities, then date entities. */
  function Candidates(text: string, spans: seq<Span>): seq<Entity> {
    SpanEntities(spans) + DateEntities(text)
  }

  /** The extracted entities, for the spans the recognizer reports on the text. */
  function ExtractEntities(text: string, spans: seq<Span>): seq<Entity> {
    Dedup(Candidates(text, spans))
  }

  /**
   * `_extract_entities_from_text` with the recognizer's spans for the text given:
   * its three loops, in order.
   */
  method ExtractEntitiesFromText(text: string, spans: seq<Span>) returns (unique: seq<Entity>)
    ensures unique == ExtractEntities(text, spans)
  {
    var entities := CollectSpanEntities(spans);
    entities := AppendDateEntities(text, entities);
    unique := RemoveDuplicates(entities);
  }

  /** First loop: map each span's label, keep QUEM, ONDE and O_QUE, clean the text, drop empty values. */
  method CollectSpanEntities(spans: seq<Span>) returns (entities: seq<Entity>)
    ensures entities == SpanEntities(spans)
  {
    entities := [];
    for i := 0 to |spans|
      invariant entities == SpanEntities(spans[..i])
    {
      var ent := spans[i];
      var catalogLabel := MapLabel(ent.tag);
      SpanEntitiesStep(spans, i);
      if IsRecognizerLabel(catalogLabel) {
        var cleanValue := Clean(ent.text);
        if cleanValue != [] {
          entities := entities + [Entity(cleanValue, catalogLabel)];
        }
      }
    }
    assert spans[..|spans|] == spans;
  }

  /** Second loop: each pattern match, cleaned, filtered by the year range, appended as QUANDO. */
  method AppendDateEntities(text: string, entities: seq<Entity>) returns (result: seq<Entity>)
    ensures result == entities + DateEntities(text)
  {
    result := entities;
    var matches := Matches(text);
    for j := 0 to |matches|
      invariant result == entities + DatesOf(text, matches[..j])
    {
      var m := matches[j];
      DatesOfStep(text, matches, j);
      DateEntityUnfold(text, m);
      var dateStr := Strip(text[m.start..m.end]);
      var cleanDateStr := Clean(dateStr);
      if |cleanDateStr| == 4 {
        var year := ParseDecimal(cleanDateStr);
        if year.None? || !(1000 <= year.value <= 2099) {
          assert DatesOf(text, matches[..j + 1]) == DatesOf(text, matches[..j]);
          continue;
        }
      }
      if cleanDateStr != [] {
        var date := Entity(cleanDateStr, Quando);
        assert DatesOf(text, matches[..j + 1]) == DatesOf(text, matches[..j]) + [date];
        result := result + [date];
      } else {
        assert DatesOf(text, matches[..j + 1]) == DatesOf(text, matches[..j]);
      }
    }
    assert matches[..|matches|] == matches;
  }

  /** Third loop: keep an entity only when its key is not yet in `seen`. */
  method RemoveDuplicates(entities: seq<Entity>) returns (unique: seq<Entity>)
    ensures unique == Dedup(entities)
  {
    unique := [];
    var seen: set<(string, string)> := {};
    for k := 0 to |entities|
      invariant unique == Dedup(entities[..k])
      invariant seen == Keys(unique)
    {
      var entity := entities[k];
      var key := (Lower(entity.value), entity.category);
      DedupStep(entities, k);
      KeysAppend(unique, [entity]);
      if key !in seen {
        seen := seen + {key};
        unique := unique + [entity];
      }
    }
    assert entities[..|entities|] == entities;
  }

  /**
   * Every extracted entity is either a recognizer entity (QUEM, ONDE or O_QUE
   * with a clean non-empty value) or a date entity (QUANDO, a clean non-empty
   * value, a four-character value being a year in 1000..2099), and no two share
   * a duplicate key.
   */
  lemma ExtractedWellFormed(text: string, spans: seq<Span>)
    ensures forall e :: e in ExtractEntities(text, spans) ==> IsRecognizerEntity(e) || IsDateEntity(e)
    ensures DistinctKeys(ExtractEntities(text, spans))
  {
    var c := Candidates(text, spans);
    SpanEntitiesWellFormed(spans);
    DateEntitiesWellFormed(text);
    var idx := DedupSubsequence(c);
    forall e | e in ExtractEntities(text, spans)
      ensures IsRecognizerEntity(e) || IsDateEntity(e)
    {
      var k :| 0 <= k < |idx| && ExtractEntities(text, spans)[k] == e;
      assert e == c[idx[k]];
    }
  }

  /**
   * In the result, every recognizer entity comes before every date entity.
   */
  lemma RecognizerBeforeDates(text: string, spans: seq<Span>)
    ensures var out := ExtractEntities(text, spans);
      forall i, j :: 0 <= i < j < |out| ==> !(out[i].category == Quando && out[j].category != Quando)
  {
    var s, d := SpanEntities(spans), DateEntities(text);
    var out := ExtractEntities(text, spans);
    var n := |Dedup(s)|;
    DedupAppend(s, d);
    SpanEntitiesWellFormed(spans);
    DateEntitiesWellFormed(text);
    var idx := DedupSubsequence(s);
    forall i | 0 <= i < n
      ensures out[i].category != Quando
    {
      assert out[i] == out[..n][i] == Dedup(s)[i];
      assert IsRecognizerEntity(s[idx[i]]);
    }
    forall j | n <= j < |out|
      ensures out[j].category == Quando
    {
      assert out[j] == out[n..][j - n];
      assert out[j] in d;
    }
  }

  /** Recognizer entities keep the recognizer's order: the result begins with the deduplicated recognizer entities. */
  lemma RecognizerPrefix(text: string, spans: seq<Span>)
    ensures |Dedup(SpanEntities(spans))| <= |ExtractEntities(text, spans)|
    ensures ExtractEntities(text, spans)[..|Dedup(SpanEntities(spans))|] == Dedup(SpanEntities(spans))
  {
    DedupAppend(SpanEntities(spans), DateEntities(text));
  }
}
