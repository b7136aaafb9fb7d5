/** Matching the expectations of a gold file against the documents a query
    returned: every expected (field, value) must be present in at least one
    document, exactly (Equals) or as a substring of a value's string form
    (Contains). */
module Matching {
  import opened GoldFile

  /** A stored field value: a Java String, or any other object, given by the
      text its toString() produces. */
  datatype FieldValue = Text(s: string) | Other(rendered: string)

  /** toString() of a stored value. */
  function Render(v: FieldValue): string
  {
    match v
    case Text(s) => s
    case Other(r) => r
  }

  /** A returned document: the values of each field it has. A field it does
      not have is absent (getFieldValues gives null for it). */
  type Document = map<string, seq<FieldValue>>

  /** Java's String.contains: needle occurs in hay at some offset. */
  predicate IsSubstring(needle: string, hay: string)
  {
    exists i :: 0 <= i <= |hay| && needle <= hay[i..]
  }

  /** The outcome of looking for one expected value: found, not found, or the
      NullPointerException raised when a document lacks the field. */
  datatype SearchResult = Found | NotFound | Threw

  /** Equals mode: the document's values for the field include the string. */
  predicate EqualsMatch(d: Document, field: string, expected: string)
  {
    field in d && Text(expected) in d[field]
  }

  /** Contains mode: some value of the field has the string as a substring. */
  predicate ContainsMatch(d: Document, field: string, expected: string)
  {
    field in d && exists j :: 0 <= j < |d[field]| && IsSubstring(expected, Render(d[field][j]))
  }

  /** A document matches an expected value in the given mode. */
  predicate Matches(d: Document, field: string, expected: string, compareType: CompareType)
  {
    match compareType
    case Equals => EqualsMatch(d, field, expected)
    case Contains => ContainsMatch(d, field, expected)
  }

  /** The search as written. In Equals mode the document loop stops at the
      first match. In Contains mode a match only leaves the loop over one
      document's values, so every document is visited, and each one's value
      list is dereferenced before anything checks that it exists: a document
      lacking the field throws, even after a match. A throw can only come
      from such a document. */
  function Search(docs: seq<Document>, field: string, expected: string, compareType: CompareType): (r: SearchResult)
    ensures r == Threw ==> compareType == Contains && exists j :: 0 <= j < |docs| && field !in docs[j]
    decreases |docs|
  {
    if docs == [] then NotFound
    else match compareType
      case Equals =>
        if EqualsMatch(docs[0], field, expected) then Found
        else Search(docs[1..], field, expected, compareType)
      case Contains =>
        if field !in docs[0] then Threw
        else
          var rest := Search(docs[1..], field, expected, compareType);
          assert rest == Threw ==> exists j :: 0 <= j < |docs| && field !in docs[j] by {
            if rest == Threw {
              var j :| 0 <= j < |docs| - 1 && field !in docs[1..][j];
              assert docs[j + 1] == docs[1..][j];
            }
          }
          if rest == Threw then Threw
          else if ContainsMatch(docs[0], field, expected) then Found
          else rest
  }

  /** In Equals mode the search never throws, and it finds the value exactly
      when some document holds it among the field's values. */
  lemma {:induction false} SearchEquals(docs: seq<Document>, field: string, expected: string)
    ensures Search(docs, field, expected, Equals) != Threw
    ensures Search(docs, field, expected, Equals) == Found <==>
              exists j :: 0 <= j < |docs| && EqualsMatch(docs[j], field, expected)
    decreases |docs|
  {
    if docs != [] {
      SearchEquals(docs[1..], field, expected);
      if exists j :: 0 <= j < |docs| && EqualsMatch(docs[j], field, expected) {
        var j :| 0 <= j < |docs| && EqualsMatch(docs[j], field, expected);
        if j > 0 {
          assert docs[1..][j - 1] == docs[j];
        }
      }
      forall j | 0 <= j < |docs| - 1 && EqualsMatch(docs[1..][j], field, expected)
        ensures EqualsMatch(docs[j + 1], field, expected)
      {
      }
    }
  }

  /** In Contains mode the search throws exactly when some document lacks
      the field, wherever it comes. */
  lemma {:induction false} SearchContainsThrows(docs: seq<Document>, field: string, expected: string)
    ensures Search(docs, field, expected, Contains) == Threw <==>
              exists j :: 0 <= j < |docs| && field !in docs[j]
    decreases |docs|
  {
    if docs != [] && field in docs[0] {
      var tail := docs[1..];
      SearchContainsThrows(tail, field, expected);
      forall j | 1 <= j < |docs| ensures docs[j] == tail[j - 1] { }
    }
  }

  /** In Contains mode the search finds the value exactly when every document
      has the field and some document has a value containing it. */
  lemma {:induction false} SearchContainsFound(docs: seq<Document>, field: string, expected: string)
    ensures Search(docs, field, expected, Contains) == Found <==>
              (forall j :: 0 <= j < |docs| ==> field in docs[j]) &&
              exists j :: 0 <= j < |docs| && ContainsMatch(docs[j], field, expected)
    decreases |docs|
  {
    if docs != [] && field in docs[0] {
      var tail := docs[1..];
      SearchContainsFound(tail, field, expected);
      SearchContainsThrows(tail, field, expected);
      forall j | 1 <= j < |docs| ensures docs[j] == tail[j - 1] { }
    }
  }

  /** The search as evidently intended: in Contains mode a document lacking the
      field is skipped, as it is in Equals mode, instead of throwing. */
  function SearchGuarded(docs: seq<Document>, field: string, expected: string, compareType: CompareType): SearchResult
    decreases |docs|
  {
    if docs == [] then NotFound
    else if Matches(docs[0], field, expected, compareType) then Found
    else SearchGuarded(docs[1..], field, expected, compareType)
  }

  /** The intended search never throws and finds the value exactly when some
      document matches it in the requested mode. */
  lemma {:induction false} SearchGuardedFinds(docs: seq<Document>, field: string, expected: string, compareType: CompareType)
    ensures SearchGuarded(docs, field, expected, compareType) != Threw
    ensures SearchGuarded(docs, field, expected, compareType) == Found <==>
              exists j :: 0 <= j < |docs| && Matches(docs[j], field, expected, compareType)
    decreases |docs|
  {
    if docs != [] {
      var tail := docs[1..];
      SearchGuardedFinds(tail, field, expected, compareType);
      forall j | 1 <= j < |docs| ensures docs[j] == tail[j - 1] { }
    }
  }

  /** When every document has the field, the search as written and the intended
      one agree. */
  lemma {:induction false} SearchAgreesWhenFieldPresent(docs: seq<Document>, field: string, expected: string, compareType: CompareType)
    requires forall j :: 0 <= j < |docs| ==> field in docs[j]
    ensures Search(docs, field, expected, compareType) == SearchGuarded(docs, field, expected, compareType)
    decreases |docs|
  {
    if docs != [] {
      assert forall j :: 0 <= j < |docs| - 1 ==> docs[1..][j] == docs[j + 1];
      SearchAgreesWhenFieldPresent(docs[1..], field, expected, compareType);
    }
  }

  /** As written, a document lacking the field makes a Contains search throw
      when another document matches, before or after it, where the intended
      search finds the value. */
  lemma MissingFieldThrows(docs: seq<Document>, field: string, expected: string, i: int, j: int)
    requires 0 <= i < |docs| && field !in docs[i]
    requires 0 <= j < |docs| && ContainsMatch(docs[j], field, expected)
    ensures Search(docs, field, expected, Contains) == Threw
    ensures SearchGuarded(docs, field, expected, Contains) == Found
  {
    SearchContainsThrows(docs, field, expected);
    SearchGuardedFinds(docs, field, expected, Contains);
  }

  /** Concrete instances: a document without a "title" field before, and
      after, one whose title contains "Exam". */
  lemma MissingFieldThrowsExample()
    ensures Search([map[], map["title" := [Text("Example")]]], "title", "Exam", Contains) == Threw
    ensures SearchGuarded([map[], map["title" := [Text("Example")]]], "title", "Exam", Contains) == Found
    ensures Search([map["title" := [Text("Example")]], map[]], "title", "Exam", Contains) == Threw
    ensures SearchGuarded([map["title" := [Text("Example")]], map[]], "title", "Exam", Contains) == Found
  {
    var titled: Document := map["title" := [Text("Example")]];
    assert "Exam" <= "Example"[0..];
    assert ContainsMatch(titled, "title", "Exam") by {
      assert titled["title"][0] == Text("Example");
    }
    var before: seq<Document> := [map[], titled];
    MissingFieldThrows(before, "title", "Exam", 0, 1);
    var after: seq<Document> := [titled, map[]];
    MissingFieldThrows(after, "title", "Exam", 1, 0);
  }

  /** A value found exactly is also found as a substring: Contains is the
      weaker comparison, in the intended search. */
  lemma EqualsFoundImpliesContainsFound(docs: seq<Document>, field: string, expected: string)
    requires SearchGuarded(docs, field, expected, Equals) == Found
    ensures SearchGuarded(docs, field, expected, Contains) == Found
  {
    SearchGuardedFinds(docs, field, expected, Equals);
    SearchGuardedFinds(docs, field, expected, Contains);
    var j :| 0 <= j < |docs| && Matches(docs[j], field, expected, Equals);
    assert EqualsMatch(docs[j], field, expected);
    var values := docs[j][field];
    var i :| 0 <= i < |values| && values[i] == Text(expected);
    assert expected <= Render(values[i])[0..];
    assert Matches(docs[j], field, expected, Contains);
  }

  /** The search for one expected value in testDocumentContent, with its loops
      over the documents and over one document's values and its foundField
      flag, as corrected: in Contains mode a document lacking the field is
      skipped. */
  method FindExpectedValue(docs: seq<Document>, field: string, expected: string, compareType: CompareType)
    returns (r: SearchResult)
    ensures r == SearchGuarded(docs, field, expected, compareType)
  {
    var foundField := false;
    var n := 0;
    while n < |docs|
      invariant 0 <= n <= |docs|
      invariant !foundField
      invariant SearchGuarded(docs, field, expected, compareType) == SearchGuarded(docs[n..], field, expected, compareType)
    {
      var doc := docs[n];
      assert docs[n..][0] == doc && docs[n..][1..] == docs[n + 1..];
      if compareType == Equals {
        if field in doc && Text(expected) in doc[field] {
          foundField := true;
          break;
        }
      } else if field in doc {
        var actualFieldValues := doc[field];
        var k := 0;
        while k < |actualFieldValues|
          invariant 0 <= k <= |actualFieldValues|
          invariant !foundField
          invariant forall j :: 0 <= j < k ==> !IsSubstring(expected, Render(actualFieldValues[j]))
        {
          var actualValue := Render(actualFieldValues[k]);
          if IsSubstring(expected, actualValue) {
            foundField := true;
            break;
          }
          k := k + 1;
        }
        if foundField {
          break;
        }
      }
      n := n + 1;
    }
    r := if foundField then Found else NotFound;
  }

  /** How testDocumentContent ends: every expectation was met, or the assertion
      failed for an expected value no document holds. */
  datatype ContentOutcome =
    | AllFound
    | AssertionFailed(field: string, value: string)

  /** Every expected value of every field is matched by some document. */
  predicate AllExpectedFound(expected: map<string, ExpectedResult>, docs: seq<Document>)
  {
    forall field, value :: field in expected && value in expected[field].fieldValues ==>
      exists j :: 0 <= j < |docs| && Matches(docs[j], field, value, expected[field].compareType)
  }

  /** testDocumentContent: checks every expected (field, value), in an order the
      hash map and hash sets leave unspecified, and stops at the first failure. */
  method TestDocumentContent(expected: map<string, ExpectedResult>, docs: seq<Document>)
    returns (outcome: ContentOutcome)
    ensures outcome.AllFound? <==> AllExpectedFound(expected, docs)
    ensures outcome.AssertionFailed? ==>
              outcome.field in expected && outcome.value in expected[outcome.field].fieldValues &&
              forall j :: 0 <= j < |docs| ==>
                !Matches(docs[j], outcome.field, outcome.value, expected[outcome.field].compareType)
  {
    var fields := expected.Keys;
    while fields != {}
      invariant fields <= expected.Keys
      invariant forall field, value :: field in expected && field !in fields && value in expected[field].fieldValues ==>
                  exists j :: 0 <= j < |docs| && Matches(docs[j], field, value, expected[field].compareType)
      decreases fields
    {
      var field :| field in fields;
      var values := expected[field].fieldValues;
      while values != {}
        invariant values <= expected[field].fieldValues
        invariant forall value :: value in expected[field].fieldValues && value !in values ==>
                    exists j :: 0 <= j < |docs| && Matches(docs[j], field, value, expected[field].compareType)
        decreases values
      {
        var expectedFieldValue :| expectedFieldValue in values;
        var compareType := expected[field].compareType;
        var r := FindExpectedValue(docs, field, expectedFieldValue, compareType);
        SearchGuardedFinds(docs, field, expectedFieldValue, compareType);
        if r != Found {
          return AssertionFailed(field, expectedFieldValue);
        }
        values := values - {expectedFieldValue};
      }
      fields := fields - {field};
    }
    return AllFound;
  }
}
