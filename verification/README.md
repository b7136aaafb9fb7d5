# WARC parser test harness, modelled in Dafny

The WARC parser module of this search indexing suite is checked by
`TestWarcParser`. That test loads WARC files into an indexer, counts the
documents the index should then hold, and compares the documents it gets
back with an expected-results ("gold") file. This project models the
self-contained logic of the harness and proves what it promises:

- `gold_file.dfy` (module `GoldFile`) reads a gold file. The file is a list of lines
  that alternate a key and a value. A key ending in `#contains` asks for substring
  matching, and repeated keys merge their values. A dangling key line is a format
  error.
- `matching.dfy` (module `Matching`) checks each expected (field, value) against the
  returned documents. In `equals` mode the value must be among the field's values.
  In `contains` mode it must be a substring of one value's string form. As
  written, a `contains` search visits every document, even after a match, and
  any document without the field ends it in a `NullPointerException`. The
  function `Search` models that search as written, and the content check itself
  uses the corrected search. See Findings.
- `java_int.dfy` (module `JavaInt`) models Java's 32-bit `int`: the wrap-around of
  `AtomicInteger.getAndIncrement`, and the decimal text `"" + n` with its inverse.
- `loading.dfy` (module `Loading`) covers loading. `load` hands the indexer a copy of an
  event, stamped with a fresh `"id"` taken from the global `SEQ_NUM` counter.
  `testDocumentTypesInternal` loads files one by one and keeps the expected
  document count: 140 for the sample WARC file, 1 for any other file.

The harness state that outlives a call is `Loading.TestHarness`: the counter,
and the events handed to the indexer so far. `SEQ_NUM` is a static field, so
one `TestHarness` stands for the lifetime of the test class in the JVM, across
the per-test indexers that `setUp` rebuilds. Stream events are objects whose
header map is updated in place (`Loading.StreamEvent`). The gold-file reader,
the content check and the count loop are methods with loops. Each is proved
against a specification function (`Build`, `SearchGuarded`,
`Deliveries`, `ExpectedDocCount`), and the promised properties are lemmas about those
functions.

## Model

| member | source | states |
|---|---|---|
| GoldFile.SplitKey | search-warc-parser/src/test/java/org/apache/solr/tika/TestWarcParser.java:143-147 | A key asks for `Contains` exactly when it ends in `#contains`. The suffix is then removed once, and the field put back together with the suffix is the key. Any other key names its field unchanged with `Equals`. |
| GoldFile.GetExpectedOutput | search-warc-parser/src/test/java/org/apache/solr/tika/TestWarcParser.java:131-161 | Reading fails with the "Unexpected file format" message for that file exactly when the number of lines is odd. Otherwise it returns the map that `Build` gives for the pairs read in order. |
| GoldFile.BuildKeys | search-warc-parser/src/test/java/org/apache/solr/tika/TestWarcParser.java:136-158 | The fields of the result are exactly the even-indexed key lines, each with a trailing `#contains` removed. This holds in both directions. |
| GoldFile.BuildValuesComplete | search-warc-parser/src/test/java/org/apache/solr/tika/TestWarcParser.java:136-158 | Every value line is in the value set of the field named by the key line before it. |
| GoldFile.BuildValuesSound | search-warc-parser/src/test/java/org/apache/solr/tika/TestWarcParser.java:148-158 | A value set holds nothing except values that follow a key naming that field. So repeated keys give the set union of their values, with duplicates collapsed. |
| GoldFile.BuildCompareType | search-warc-parser/src/test/java/org/apache/solr/tika/TestWarcParser.java:143-158 | The compare type of a field is the one asked for by the last key line that names it. |
| Matching.FindExpectedValue | search-warc-parser/src/test/java/org/apache/solr/tika/TestWarcParser.java:219-239 | The nested loops and the `foundField` flag compute the corrected search, in which a document without the field is skipped. |
| Matching.Search | search-warc-parser/src/test/java/org/apache/solr/tika/TestWarcParser.java:222-239 | The search as written throws only in `contains` mode, and only when some returned document lacks the field. |
| Matching.SearchEquals | search-warc-parser/src/test/java/org/apache/solr/tika/TestWarcParser.java:224-228 | In `equals` mode the search never throws. It finds the value exactly when some document has the field and the value is among its values. |
| Matching.SearchContainsFound | search-warc-parser/src/test/java/org/apache/solr/tika/TestWarcParser.java:222-239 | In `contains` mode the search as written finds the value exactly when every returned document has the field and some document has a value whose string form contains it. |
| Matching.SearchContainsThrows | search-warc-parser/src/test/java/org/apache/solr/tika/TestWarcParser.java:222-239 | In `contains` mode the search as written throws exactly when some returned document lacks the field, whether it comes before or after a match. |
| Matching.SearchGuardedFinds | search-warc-parser/src/test/java/org/apache/solr/tika/TestWarcParser.java:222-239 | The corrected search never throws. It finds the value exactly when some document matches it in the requested mode. |
| Matching.SearchAgreesWhenFieldPresent | search-warc-parser/src/test/java/org/apache/solr/tika/TestWarcParser.java:222-239 | When every returned document has the field, the search as written and the corrected search agree. |
| Matching.MissingFieldThrows | search-warc-parser/src/test/java/org/apache/solr/tika/TestWarcParser.java:231-233 | A document without the field, with a matching document before or after it, makes the `contains` search as written throw. The corrected search finds the value. |
| Matching.MissingFieldThrowsExample | search-warc-parser/src/test/java/org/apache/solr/tika/TestWarcParser.java:231-233 | Concrete inputs for the finding: an empty document before, and after, one whose `title` is "Example". Searching "Exam" throws as written in both orders and is found when corrected. |
| Matching.EqualsFoundImpliesContainsFound | search-warc-parser/src/test/java/org/apache/solr/tika/TestWarcParser.java:224-237 | A value found by exact comparison is also found by substring comparison, in the corrected search. |
| Matching.TestDocumentContent | search-warc-parser/src/test/java/org/apache/solr/tika/TestWarcParser.java:212-243 | The check passes exactly when every expected value of every field is matched by some returned document in its field's mode. A failed assertion names an expected (field, value) that no document matches. |
| JavaInt.Increment | search-warc-parser/src/test/java/org/apache/solr/tika/TestWarcParser.java:62 | One increment stays in the int range and adds one, modulo 2^32. |
| JavaInt.AdvanceClosedForm | search-warc-parser/src/test/java/org/apache/solr/tika/TestWarcParser.java:62 | Fewer than 2^32 increments add their number to the counter, wrapping once past the largest int. |
| JavaInt.AdvanceInjective | search-warc-parser/src/test/java/org/apache/solr/tika/TestWarcParser.java:62 | No counter value repeats within 2^32 successive increments. |
| JavaInt.NaturalToStringDigits | search-warc-parser/src/test/java/org/apache/solr/tika/TestWarcParser.java:278 | The text of a natural number is a non-empty string of digits with no leading zero. |
| JavaInt.NaturalRoundTrip | search-warc-parser/src/test/java/org/apache/solr/tika/TestWarcParser.java:278 | Reading back the digits of a natural number gives the number. |
| JavaInt.IntRoundTrip | search-warc-parser/src/test/java/org/apache/solr/tika/TestWarcParser.java:278 | The decimal text of an int starts with '-' exactly when the int is negative, and parsing it back gives the int. |
| JavaInt.IntToStringInjective | search-warc-parser/src/test/java/org/apache/solr/tika/TestWarcParser.java:278 | Distinct ints have distinct decimal texts. |
| Loading.ExpectedDocCountWithSampleTable | search-warc-parser/src/test/java/org/apache/solr/tika/TestWarcParser.java:252-266 | With the test's table, the expected count is the number of files plus 139 for each occurrence of the sample WARC path. |
| Loading.BaseNameIsLastSegment | search-warc-parser/src/test/java/org/apache/solr/tika/TestWarcParser.java:256-259 | The resource name is the longest suffix of the path that contains no '/'. |
| Loading.StreamEvent.PutHeader | search-warc-parser/src/test/java/org/apache/solr/tika/TestWarcParser.java:259 | Putting a header sets that one entry and leaves the body alone. |
| Loading.Deliveries | search-warc-parser/src/test/java/org/apache/solr/tika/TestWarcParser.java:255-260 | A run over the files hands the indexer one event per file. |
| Loading.DeliveriesAt | search-warc-parser/src/test/java/org/apache/solr/tika/TestWarcParser.java:255-260 | The i-th event carries the i-th file's body, its base name, and the counter advanced i times as its id. |
| Loading.DeliveredIdsDistinct | search-warc-parser/src/test/java/org/apache/solr/tika/TestWarcParser.java:276-280 | Within a run of at most 2^32 loads, any two events carry different `"id"` headers. |
| Loading.FirstMissing | search-warc-parser/src/test/java/org/apache/solr/tika/TestWarcParser.java:255-257 | Gives the index of the first unreadable file, or the number of files when all are readable. |
| Loading.TestHarness.constructor | search-warc-parser/src/test/java/org/apache/solr/tika/TestWarcParser.java:62 | The counter starts at 0 and nothing has been handed to the indexer. |
| Loading.TestHarness.Load | search-warc-parser/src/test/java/org/apache/solr/tika/TestWarcParser.java:276-280 | The indexer receives the event's body, with the event's headers plus `"id"` set to the decimal text of the counter. The counter is incremented with wrap-around, and the caller's event is unchanged. |
| Loading.TestHarness.LoadFile | search-warc-parser/src/test/java/org/apache/solr/tika/TestWarcParser.java:256-260 | Loading one file hands over an event that carries the file's bytes, its base name as resource name, and the current counter as id. |
| Loading.TestHarness.TestDocumentTypesInternal | search-warc-parser/src/test/java/org/apache/solr/tika/TestWarcParser.java:245-274 | The files before the first unreadable one are loaded in order, each with the next counter value. The counter advances once per loaded file. The run ends with a missing-file error naming that file, or else with the expected count: each file's table entry, or 1. |

## Left out

- The Solr side of the test is not modelled: server choice and construction, `initCore`, `deleteByQuery`, `commit`, and `query` (TestWarcParser.java lines 67-109 and 282-296). These are I/O against a backend. The documents a query returns are an input `seq<Document>`.
- The `assertEquals(numDocs, queryResultSetSize("*:*"))` checks are not modelled, because they compare against that backend. The model computes the `numDocs` they would compare with.
- `TikaIndexer.process` is a call into code that is not part of this model. The model only records, in `processed`, what is handed to it.
- Tika's `Metadata.RESOURCE_NAME_KEY` is not part of this model. Its value is the harness's `resourceNameKey`, supplied on construction.
- File reading (`Files.readLines`, `FileUtils.readFileToByteArray`) takes the lines, or a map from path to bytes, as input. An unreadable file is the `FileNotFound` outcome.
- `java.io.File` path normalisation is not modelled. `getName` is the text after the last '/'.
- The stream body is kept as bytes and never consumed.
- Logging and timing (`LOGGER.trace`, `System.currentTimeMillis`) have no behavioural content and are left out.
- The `for (int i = 0; i < 1; i++)` wrapper runs its body once and is flattened.
- `DoubleProcessor` is left out. It only wraps `Double.parseDouble`, which is floating point and a library call.
- The `@Test` methods that chain these pieces with fixed file names (TestWarcParser.java lines 167-210) are not modelled separately.
- Loading.TestHarness.TestDocumentTypesInternal: `numDocs` is an unbounded integer, so its overflow past 2^31 - 1 documents is not modelled.
- Matching.TestDocumentContent: a `null` element inside a field's value list is not modelled, so the `toString()` exception it would raise is not modelled either. Java `assert` is taken as enabled.
- Matching.TestDocumentContent: the check uses the corrected search, so the `NullPointerException` that the code as written raises for a document without the field is not one of its outcomes. That behaviour is modelled by `Matching.Search` and stated by `Matching.SearchContainsThrows` (see Findings).
- Matching.TestDocumentContent: the order in which the hash map and hash sets are visited is left unspecified. So when several expectations fail, the model does not say which one is reported.
- GoldFile.GetExpectedOutput: the shared `HashSet` is mutated in place and rewrapped in a new `ExpectedResult`. The old entry is always replaced, so this aliasing cannot be observed, and the model uses set values.

## Findings

| source | as written | input that shows it | evidently intended | confidence | as-written member | corrected member |
|---|---|---|---|---|---|---|
| search-warc-parser/src/test/java/org/apache/solr/tika/TestWarcParser.java:231-233 | In `contains` mode the field's value list is dereferenced before it is checked for null, so the check at 233 is too late. A match only leaves the loop over one document's values, so every document is visited, and any returned document without the field throws a `NullPointerException`, including one after a match. | Documents `[{}, {title: ["Example"]}]` or `[{title: ["Example"]}, {}]`, expected `title#contains` = `Exam` | A document without the field is skipped, as in `equals` mode. The value is found when any document has a value containing it. | high, not executed | Matching.MissingFieldThrows, Matching.MissingFieldThrowsExample | Matching.SearchGuarded, Matching.SearchGuardedFinds |

The search as written is the function `Matching.Search`. Lemmas
`Matching.SearchContainsFound` and `Matching.SearchContainsThrows` say exactly
when its `contains` mode finds a value and when it throws. `Matching.FindExpectedValue` and
`Matching.TestDocumentContent` use the corrected search.
`Matching.SearchAgreesWhenFieldPresent` shows that the two searches differ
only when some document lacks the field.
