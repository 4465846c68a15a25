# Catalog entity extraction, modelled in Dafny

This project models the extraction core of the document-cataloguing service
(`app/services/extraction.py`). The service turns the text of a scanned
document into catalog entities. Each entity is a value and one of four labels:

- `QUEM`: who;
- `ONDE`: where;
- `O_QUE`: what kind of document;
- `QUANDO`: when.

The model covers these parts of the source:

- `_map_spacy_label_to_catalog`, the label table (`Catalog.MapLabel`).
- The first loop of `_extract_entities_from_text`. It keeps the recognizer's spans whose mapped label is `QUEM`, `ONDE` or `O_QUE`, and cleans their text. Cleaning is `re.sub(r'\s+', ' ', s).strip()`, here `Text.Clean`. This loop is `Catalog.SpanEntities` and `Extraction.CollectSpanEntities`.
- The second loop. It runs `finditer` with the three-alternative date pattern. A four-character value outside 1000..2099 is dropped. This is modelled as a scanner: each alternative is a function that backtracks in the regex engine's order, `\b` is a word-character test on both sides, and `Dates.Scan` is `finditer`. The loop itself is `Extraction.AppendDateEntities`.
- The third loop. A `seen` set of keys `(value.lower(), label)` keeps the first entity of each key (`Duplicates.Dedup`, `Extraction.RemoveDuplicates`).
- `process_document`: the MIME dispatch, the unsupported-type error, the blank-text short-circuit, the recognizer-unavailable error and the response (`Pipeline.Process`, `Pipeline.ProcessDocument`).
- The page loop of `_extract_text_from_pdf`. Each page appends its text and the end-of-page marker, or an error marker that names page `i + 1` (`Pipeline.ExtractTextFromPdf`).

Files and modules:

| file | module | contents |
|---|---|---|
| `results.dfy` | `Results` | `Option` and `Result` |
| `text.dfy` | `Text` | character classes (`\s`, `\d`, `\w`), `lower()`, `strip()`, the whitespace collapse, `int()` and `str()` on naturals |
| `catalog.dfy` | `Catalog` | entities, spans, the label table, the span filter |
| `dates.dfy` | `Dates` | the date pattern, the scan, the year filter |
| `dedup.dfy` | `Duplicates` | duplicate removal |
| `extraction.dfy` | `Extraction` | the three loops of `_extract_entities_from_text` as methods |
| `pipeline.dfy` | `Pipeline` | the PDF page loop and `process_document` |
| `examples.dfy` | `Scenarios` | the general results applied to concrete inputs |

Each loop of the source is a method. Each method is proved equal to a function, and the properties are lemmas about those functions:

| method | function |
|---|---|
| `CollectSpanEntities` | `SpanEntities` |
| `AppendDateEntities` | `DateEntities` |
| `RemoveDuplicates` | `Dedup` |
| `ExtractTextFromPdf` | `PdfText` |
| `ProcessDocument` | `Process` |

The external engines are inputs:

- The OCR engine and the PDF rasteriser are an `OcrOutput`. It holds one `PageOcr` (text or failure) per PDF page, or the converter's failure, and the image's text or the reader's failure.
- The entity recognizer is a `Recognizer`. It is `Unavailable` when the model failed to load, or `Available(spans)` with the spans it reports on the extracted text.

## Model

| member | source | states |
|---|---|---|
| Text.Collapse | app/services/extraction.py:178 | `re.sub(r'\s+', ' ', s)`: each maximal whitespace run becomes one plain space, other characters are copied |
| Text.Clean | app/services/extraction.py:178 | the clean-up `re.sub(r'\s+', ' ', s).strip()` applied to span texts and, at lines 193-194, to dates |
| Text.Lower | app/services/extraction.py:218 | `str.lower()` character by character |
| Text.Strip | app/services/extraction.py:178 | `strip()` leaves no whitespace at either end of its result |
| Text.StripEmptyIffBlank | app/services/extraction.py:74 | `s.strip()` is empty exactly when `s` is empty or whitespace only |
| Text.CollapseSpacing | app/services/extraction.py:178 | after `re.sub(r'\s+', ' ', s)` no two whitespace characters are adjacent and the only whitespace left is the plain space |
| Text.CollapseRun | app/services/extraction.py:178 | a whitespace run between a word and the next non-space collapses to exactly one plain space |
| Text.CleanNormalized | app/services/extraction.py:178 | a cleaned value has no surrounding whitespace and only single plain spaces inside |
| Text.CleanKeepsNonSpace | app/services/extraction.py:178 | cleaning keeps every non-whitespace character, in order |
| Text.CleanEmptyIffBlank | app/services/extraction.py:178-179 | a cleaned value is empty exactly when the original text is blank |
| Text.CleanFixesNormalized | app/services/extraction.py:178 | a value already in normal form is unchanged by cleaning |
| Text.CleanIdempotent | app/services/extraction.py:178 | cleaning twice is cleaning once |
| Text.StripCleanFixesNormalized | app/services/extraction.py:193-194 | `strip()` followed by the clean-up leaves a value already in normal form unchanged |
| Text.ParseDecimal | app/services/extraction.py:196-202 | on plain numerals, `int(s)`: a value exactly for a non-empty string of ASCII digits |
| Text.NatToString | app/services/extraction.py:120 | the printed page number is a non-empty string of digits with no leading zero |
| Text.ParseNatToString | app/services/extraction.py:120 | reading back a printed page number gives the number |
| Catalog.MapLabel | app/services/extraction.py:138-159 | `PER`, `ORG` map to `QUEM`; `LOC`, `GPE` to `ONDE`; `O_QUE`, `MISC` to `O_QUE`; every other label passes through unchanged |
| Catalog.MapLabelKept | app/services/extraction.py:174-177 | a span passes the label filter exactly when its label is one of the six mapped labels, `QUEM` or `ONDE` |
| Catalog.SpanEntity | app/services/extraction.py:174-185 | one span's contribution: its cleaned text under the mapped label when the label is kept and the text is not empty, else nothing |
| Catalog.SpanEntities | app/services/extraction.py:173-185 | the first loop's result: the span contributions in span order |
| Catalog.SpanEntityKept | app/services/extraction.py:173-185 | a span yields an entity exactly when its mapped label is kept and its text is not blank, and that entity is well formed |
| Catalog.SpanEntitiesWellFormed | app/services/extraction.py:173-185 | every recognizer entity has label `QUEM`, `ONDE` or `O_QUE` and a non-empty value without surrounding whitespace or whitespace runs |
| Catalog.SpanEntitiesAppend | app/services/extraction.py:173-185 | entities of earlier spans come before entities of later spans |
| Catalog.SpanEntitiesLength | app/services/extraction.py:173-185 | each span contributes at most one entity |
| Dates.YearGroup | app/services/extraction.py:189 | `\d{2,4}\b` consumes at least two characters, all digits or separators |
| Dates.MonthGroup | app/services/extraction.py:189 | `\d{1,2}[/\.-]\d{2,4}\b` consumes at least four characters, all digits or separators |
| Dates.NumericDateAt | app/services/extraction.py:189 | the first alternative consumes at least six characters, all digits or separators |
| Dates.RangeAt | app/services/extraction.py:189 | the range alternative consumes exactly 17 characters |
| Dates.YearAt | app/services/extraction.py:189 | the bare-year alternative consumes exactly four digits |
| Dates.MatchAt | app/services/extraction.py:189 | a match of the pattern is at least four characters long and lies within the text |
| Dates.NumericDateSound | app/services/extraction.py:189 | a match of the first alternative is a boundary, 1-2 digits, a separator, 1-2 digits, a separator, 2-4 digits and a boundary |
| Dates.NumericDateComplete | app/services/extraction.py:189 | conversely, a boundary, 1-2 digits, a separator, 1-2 digits, a separator, 2-4 digits and a boundary are matched whole by the first alternative |
| Dates.BareYearMatch | app/services/extraction.py:189 | a four-digit word is matched by the third alternative, as four characters |
| Dates.FullDateMatch | app/services/extraction.py:189 | a `dd/mm/yyyy` word is matched whole, as ten characters |
| Dates.Scan | app/services/extraction.py:191 | every match reported from position p lies in the text at or after p |
| Dates.Matches | app/services/extraction.py:191 | `date_pattern.finditer(text)`: the scan from the start of the text |
| Dates.ScanSound | app/services/extraction.py:191 | every reported match is a match of the pattern at its start |
| Dates.ScanOrdered | app/services/extraction.py:191 | matches are reported left to right and never overlap |
| Dates.ScanLeftmost | app/services/extraction.py:191 | every position where the pattern matches lies inside a reported match |
| Dates.ScanSkip | app/services/extraction.py:191 | the scan passes over positions where the pattern does not match |
| Dates.MatchesDisjoint | app/services/extraction.py:189-191 | two different matches never share a character |
| Dates.MatchShape | app/services/extraction.py:189-194 | a matched group is already in normal form, and it is four characters long only for the bare-year alternative |
| Dates.DateValue | app/services/extraction.py:193-205 | a group stripped and cleaned, dropped when it has four characters and is not a year in 1000..2099, or when it is empty |
| Dates.DateEntity | app/services/extraction.py:192-211 | the `QUANDO` entity one match contributes, if any |
| Dates.DateEntities | app/services/extraction.py:191-211 | the second loop's result: the contributions of all matches, in match order |
| Dates.KeptDate | app/services/extraction.py:196-202 | the `len == 4` / `int()` / range filter: a four-character value passes only as a number in 1000..2099 |
| Dates.KeptFourCharacters | app/services/extraction.py:196-202 | on a four-character value the year filter keeps exactly four ASCII digits reading 1000..2099 |
| Dates.NormalizedDateValue | app/services/extraction.py:193-205 | a non-empty group in normal form comes out of the strip, the clean-up and the filter unchanged, unless it is a four-digit number outside 1000..2099 |
| Dates.DateEntityOfMatch | app/services/extraction.py:192-211 | a match yields its exact text as a `QUANDO` entity, unless it is a four-digit number outside 1000..2099, which yields nothing |
| Dates.DatesOfWellFormed | app/services/extraction.py:191-211 | every date entity is `QUANDO` with a non-empty normalized value, and a four-character value is a year in 1000..2099 |
| Duplicates.Key | app/services/extraction.py:218 | the duplicate key `(value.lower(), label)` |
| Duplicates.Dedup | app/services/extraction.py:213-221 | the result has every key of the input and no two entries with the same key |
| Duplicates.DedupSubsequence | app/services/extraction.py:213-221 | the result is an order-preserving subsequence of the input, made of first occurrences |
| Duplicates.DedupKeepsFirst | app/services/extraction.py:216-221 | the first entry of every key is in the result |
| Duplicates.DedupOfDistinct | app/services/extraction.py:213-221 | a list without duplicate keys is unchanged |
| Duplicates.DedupIdempotent | app/services/extraction.py:213-221 | removing duplicates twice is removing them once |
| Duplicates.DedupAppend | app/services/extraction.py:213-221 | the result for `a + b` starts with the result for `a`, and the rest comes from `b` |
| Extraction.Candidates | app/services/extraction.py:169-211 | the `entities` list the first two loops build: the span entities followed by the date entities |
| Extraction.ExtractEntities | app/services/extraction.py:162-223 | what `_extract_entities_from_text` returns: duplicates removed from the span entities followed by the date entities |
| Extraction.ExtractEntitiesFromText | app/services/extraction.py:162-223 | the three loops compute the deduplicated recognizer entities followed by the date entities |
| Extraction.CollectSpanEntities | app/services/extraction.py:173-185 | the span loop computes the filtered, cleaned span entities |
| Extraction.AppendDateEntities | app/services/extraction.py:191-211 | the date loop, with its `continue`, appends exactly the date entities of the text |
| Extraction.RemoveDuplicates | app/services/extraction.py:214-221 | the `seen`-set loop computes `Dedup`, with `seen` equal to the keys kept so far |
| Extraction.ExtractedWellFormed | app/services/extraction.py:162-223 | every extracted entity is a well-formed recognizer entity or date entity, and no two share a key |
| Extraction.RecognizerBeforeDates | app/services/extraction.py:173-221 | no `QUANDO` entity comes before a recognizer entity in the result |
| Extraction.RecognizerPrefix | app/services/extraction.py:173-221 | the result begins with the deduplicated recognizer entities, in span order |
| Pipeline.PageChunk | app/services/extraction.py:116-120 | one page's contribution: its text and the end-of-page marker, or the error marker naming page `i + 1` |
| Pipeline.PagesText | app/services/extraction.py:111-122 | the text of a PDF: the page contributions in page order |
| Pipeline.PdfText | app/services/extraction.py:105-122 | `_extract_text_from_pdf`: the converter's failure, or the page texts of all pages |
| Pipeline.ExtractText | app/services/extraction.py:64-71 | the MIME dispatch: the PDF text, the image text, or the unsupported-type error, with each reader's failure propagated |
| Pipeline.Process | app/services/extraction.py:54-97 | what `process_document` returns or raises: the reader's error, the blank response, the recognizer error, or the response with the entities |
| Pipeline.ExtractTextFromPdf | app/services/extraction.py:105-122 | the page loop yields the converter's failure, or each page's text and end marker or its numbered error marker, in page order |
| Pipeline.PagesTextNotBlank | app/services/extraction.py:113-120 | the text of a PDF with at least one page is never blank, because every marker holds dashes |
| Pipeline.PagesTextPrefix | app/services/extraction.py:113-122 | the chunk of page i follows the pages before it |
| Pipeline.ProcessDocument | app/services/extraction.py:54-97 | the control flow of `process_document` returns what `Process` specifies |
| Pipeline.UnsupportedTypeIff | app/services/extraction.py:64-71 | the unsupported-type error is raised exactly for a MIME type outside PDF, PNG, JPEG and TIFF |
| Pipeline.BlankShortCircuit | app/services/extraction.py:74-77 | blank text yields an empty response with no entities, whether the recognizer is available or not |
| Pipeline.NoRecognizerIff | app/services/extraction.py:74-85 | without the recognizer, processing fails exactly when the text was read and is not blank |
| Pipeline.PdfWithPagesNeedsRecognizer | app/services/extraction.py:74-85 | a PDF with at least one page always needs the recognizer |
| Pipeline.ProcessResponse | app/services/extraction.py:54-97 | a response is the blank one or carries the file name and the non-blank text, and its entities are well formed with distinct keys |
| Scenarios.YearInRangeKept | app/services/extraction.py:196-211 | "ano 1500" yields the date entity "1500" |
| Scenarios.YearsOutOfRangeDropped | app/services/extraction.py:196-200 | "ano 0999 e ano 2100" yields no date entity |
| Scenarios.DateAndYearInOrder | app/services/extraction.py:189-211 | "Documento de 15/03/1842, revisado em 2020" yields "15/03/1842" and then "2020", with no separate "1842" |
| Scenarios.SpanWhitespaceCollapsed | app/services/extraction.py:178 | a `PER` span "João   Silva" yields the `QUEM` entity "João Silva" |
| Scenarios.DedupIgnoresCase | app/services/extraction.py:218-219 | "brasil" after "Brasil" under the same label is a duplicate, and the first spelling stays |
| Scenarios.LetterEntities | app/services/extraction.py:162-223 | a letter with a person, a place, a document kind and a year yields exactly those four entities, in that order |

## Left out

- OCR, PDF rasterising and image decoding (lines 100-110 and 125-135) are not modelled. Their outcomes are inputs: the pages' texts or failures, the converter's failure, and the image's text or the reader's failure.
- Loading the recognizer model and its pattern rules (lines 13-51) are not modelled. The recognizer is either unavailable or a given sequence of spans on the extracted text. Which spans a statistical model reports is outside the model.
- Logging is left out, because it has no effect on results.
- Exceptions are a `Failure` datatype, one case per `raise`. The converter's and the reader's messages are kept as a cause string; the exact message text is not modelled.
- `app/main.py`, `app/tasks.py` and `app/celery_config.py` are not part of this model. They are the HTTP endpoint and the task-queue wiring. `app/models/schemas.py` is the `Entity` and `ExtractionResponse` datatypes.
- Text.ParseDecimal: `int()` is modelled on plain numerals only. It also accepts a sign, surrounding whitespace and underscores between digits (`int("+12")`, `int(" 7 ")`, `int("1_0")`), which the model rejects. No such string reaches line 198: every four-character value there is four ASCII digits from the bare-year alternative (`Dates.MatchShape`).
- `Text.IsDigit`: `\d` and `int()` are restricted to ASCII digits. Python also accepts other Unicode decimal digits.
- `Text.IsWordChar`: `\w` is ASCII letters and digits, `_`, and the Latin letters U+00C0..U+024F, not the whole Unicode alphanumeric class.
- `Text.LowerChar`: `lower()` covers ASCII and Latin-1 capitals only. Other characters are kept as they are.
- `Text.IsSpace` is the exact whitespace set of Python's `str` methods and of `\s`, so it needs no approximation.
- The blank short-circuit returns a response without the file name, as the code does (line 77).
