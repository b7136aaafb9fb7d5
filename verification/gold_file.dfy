/** The expected-results ("gold") files of the WARC parser tests.
    A gold file is a list of lines that alternate a key and a value. A key
    ending in "#contains" names a field whose values are matched as
    substrings; any other key names a field whose values are matched exactly. */
module GoldFile {

  /** How an expected value is compared with the values a document holds. */
  datatype CompareType = Equals | Contains

  /** The expected values of one field, and how to compare them. */
  datatype ExpectedResult = ExpectedResult(fieldValues: set<string>, compareType: CompareType)

  /** What reading a gold file yields: the expectations, or the format error. */
  datatype ParseResult =
    | Parsed(entries: map<string, ExpectedResult>)
    | UnexpectedFormat(message: string)

  const ContainsSuffix: string := "#contains"

  /** Java's String.endsWith. */
  predicate EndsWith(s: string, suffix: string)
  {
    |suffix| <= |s| && s[|s| - |suffix|..] == suffix
  }

  /** The message of the IOException raised for a dangling key line. */
  function FormatError(file: string): string
  {
    "Unexpected file format for " + file + ".  Expected alternativing key/value lines"
  }

  /** Splits a key line into the field it names and the compare type it asks for:
      the "#contains" suffix, when present, is removed exactly once. */
  function SplitKey(raw: string): (r: (string, CompareType))
    ensures r.1 == Contains <==> EndsWith(raw, ContainsSuffix)
    ensures r.1 == Contains ==> r.0 + ContainsSuffix == raw
    ensures r.1 == Equals ==> r.0 == raw
  {
    if EndsWith(raw, ContainsSuffix) then
      var field := raw[..|raw| - |ContainsSuffix|];
      assert field + ContainsSuffix == raw;
      (field, Contains)
    else
      (raw, Equals)
  }

  function FieldOf(raw: string): string { SplitKey(raw).0 }

  function TypeOf(raw: string): CompareType { SplitKey(raw).1 }

  /** The expectations after one more key/value pair has been read: the value
      joins the field's earlier values, and the compare type is the new key's. */
  function Put(m: map<string, ExpectedResult>, rawKey: string, value: string): map<string, ExpectedResult>
  {
    var field := FieldOf(rawKey);
    var earlier := if field in m then m[field].fieldValues else {};
    m[field := ExpectedResult(earlier + {value}, TypeOf(rawKey))]
  }

  /** The expectations read from a list of complete key/value pairs, in order. */
  function Build(lines: seq<string>): map<string, ExpectedResult>
    requires |lines| % 2 == 0
    decreases |lines|
  {
    if lines == [] then map[]
    else Put(Build(lines[..|lines| - 2]), lines[|lines| - 2], lines[|lines| - 1])
  }

  /** Index i holds a key line that has its value line after it. */
  predicate KeyAt(lines: seq<string>, i: int)
  {
    0 <= i < |lines| - 1 && i % 2 == 0
  }

  /** getExpectedOutput: reads the lines pair by pair into a map of expectations.
      A key line with no value line after it makes the whole read fail. */
  method GetExpectedOutput(file: string, lines: seq<string>) returns (r: ParseResult)
    ensures r.UnexpectedFormat? <==> |lines| % 2 == 1
    ensures r.UnexpectedFormat? ==> r.message == FormatError(file)
    ensures r.Parsed? ==> r.entries == Build(lines)
  {
    var m: map<string, ExpectedResult> := map[];
    var i := 0;
    while i < |lines|
      invariant 0 <= i <= |lines| && i % 2 == 0
      invariant m == Build(lines[..i])
    {
      var key := lines[i];
      if i + 1 == |lines| {
        return UnexpectedFormat(FormatError(file));
      }
      var value := lines[i + 1];
      var compareType := Equals;
      if EndsWith(key, ContainsSuffix) {
        key := key[..|key| - |ContainsSuffix|];
        compareType := Contains;
      }
      var values: set<string>;
      if key in m {
        values := m[key].fieldValues + {value};
      } else {
        values := {};
      }
      values := values + {value};
      assert key == FieldOf(lines[i]) && compareType == TypeOf(lines[i]);
      m := m[key := ExpectedResult(values, compareType)];
      assert m == Put(Build(lines[..i]), lines[i], lines[i + 1]);
      i := i + 2;
      assert lines[..i][..i - 2] == lines[..i - 2];
    }
    assert lines[..i] == lines;
    return Parsed(m);
  }

  /** The fields of the expectations are exactly the key lines with their
      "#contains" suffix removed. */
  lemma {:induction false} BuildKeys(lines: seq<string>)
    requires |lines| % 2 == 0
    ensures forall i :: KeyAt(lines, i) ==> FieldOf(lines[i]) in Build(lines)
    ensures forall field :: field in Build(lines) ==>
              exists i :: KeyAt(lines, i) && FieldOf(lines[i]) == field
    decreases |lines|
  {
    if lines != [] {
      var n := |lines|;
      var pre := lines[..n - 2];
      BuildKeys(pre);
      var b := Build(lines);
      PutEffect(Build(pre), lines[n - 2], lines[n - 1]);
      forall i | KeyAt(lines, i) ensures FieldOf(lines[i]) in b {
        if i < n - 2 {
          assert KeyAt(pre, i) && pre[i] == lines[i];
        }
      }
      forall field | field in b
        ensures exists i :: KeyAt(lines, i) && FieldOf(lines[i]) == field
      {
        if field == FieldOf(lines[n - 2]) {
          assert KeyAt(lines, n - 2);
        } else {
          assert field in Build(pre);
          var i :| KeyAt(pre, i) && FieldOf(pre[i]) == field;
          assert KeyAt(lines, i) && lines[i] == pre[i];
        }
      }
    }
  }

  /** Reading one more pair adds its value to its field's set and leaves every
      other field as it was. */
  lemma PutEffect(m: map<string, ExpectedResult>, rawKey: string, value: string)
    ensures FieldOf(rawKey) in Put(m, rawKey, value)
    ensures Put(m, rawKey, value)[FieldOf(rawKey)].fieldValues ==
              (if FieldOf(rawKey) in m then m[FieldOf(rawKey)].fieldValues else {}) + {value}
    ensures forall field :: field != FieldOf(rawKey) ==>
              (field in Put(m, rawKey, value) <==> field in m) &&
              (field in m ==> Put(m, rawKey, value)[field] == m[field])
  {
  }

  /** Every value line lands in the value set of the field its key line names. */
  lemma {:induction false} BuildValuesComplete(lines: seq<string>)
    requires |lines| % 2 == 0
    ensures forall i :: KeyAt(lines, i) ==>
              FieldOf(lines[i]) in Build(lines) &&
              lines[i + 1] in Build(lines)[FieldOf(lines[i])].fieldValues
    decreases |lines|
  {
    if lines != [] {
      var n := |lines|;
      var pre := lines[..n - 2];
      BuildValuesComplete(pre);
      PutEffect(Build(pre), lines[n - 2], lines[n - 1]);
      var b := Build(lines);
      forall i | KeyAt(lines, i)
        ensures FieldOf(lines[i]) in b && lines[i + 1] in b[FieldOf(lines[i])].fieldValues
      {
        if i < n - 2 {
          assert KeyAt(pre, i) && pre[i] == lines[i] && pre[i + 1] == lines[i + 1];
        }
      }
    }
  }

  /** A field's value set holds only value lines that follow a key line naming
      that field: repeated keys merge their values by set union. */
  lemma {:induction false} BuildValuesSound(lines: seq<string>)
    requires |lines| % 2 == 0
    ensures forall field, v :: field in Build(lines) && v in Build(lines)[field].fieldValues ==>
              exists i :: KeyAt(lines, i) && FieldOf(lines[i]) == field && lines[i + 1] == v
    decreases |lines|
  {
    if lines != [] {
      var n := |lines|;
      var pre := lines[..n - 2];
      BuildValuesSound(pre);
      PutEffect(Build(pre), lines[n - 2], lines[n - 1]);
      var b := Build(lines);
      forall field, v | field in b && v in b[field].fieldValues
        ensures exists i :: KeyAt(lines, i) && FieldOf(lines[i]) == field && lines[i + 1] == v
      {
        if field == FieldOf(lines[n - 2]) && v == lines[n - 1] {
          assert KeyAt(lines, n - 2);
        } else {
          assert field in Build(pre) && v in Build(pre)[field].fieldValues;
          var i :| KeyAt(pre, i) && FieldOf(pre[i]) == field && pre[i + 1] == v;
          assert KeyAt(lines, i) && lines[i] == pre[i] && lines[i + 1] == pre[i + 1];
        }
      }
    }
  }

  /** A field's compare type is the one asked for by the LAST key line naming it. */
  lemma {:induction false} BuildCompareType(lines: seq<string>)
    requires |lines| % 2 == 0
    ensures forall field :: field in Build(lines) ==>
              exists i :: KeyAt(lines, i) && FieldOf(lines[i]) == field &&
                Build(lines)[field].compareType == TypeOf(lines[i]) &&
                forall j :: i < j && KeyAt(lines, j) ==> FieldOf(lines[j]) != field
    decreases |lines|
  {
    if lines != [] {
      var n := |lines|;
      var pre := lines[..n - 2];
      BuildCompareType(pre);
      var b := Build(lines);
      forall field | field in b
        ensures exists i :: KeyAt(lines, i) && FieldOf(lines[i]) == field &&
                  b[field].compareType == TypeOf(lines[i]) &&
                  forall j :: i < j && KeyAt(lines, j) ==> FieldOf(lines[j]) != field
      {
        if field == FieldOf(lines[n - 2]) {
          assert KeyAt(lines, n - 2);
        } else {
          var i :| KeyAt(pre, i) && FieldOf(pre[i]) == field && Build(pre)[field].compareType == TypeOf(pre[i]) &&
                   forall j :: i < j && KeyAt(pre, j) ==> FieldOf(pre[j]) != field;
          assert KeyAt(lines, i) && lines[i] == pre[i];
          forall j | i < j && KeyAt(lines, j) ensures FieldOf(lines[j]) != field {
            if j < n - 2 {
              assert KeyAt(pre, j) && pre[j] == lines[j];
            }
          }
        }
      }
    }
  }
}
