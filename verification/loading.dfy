/** Loading test files into the indexer: each event is re-stamped with a fresh
    "id" header taken from a global sequence counter, and the test keeps a
    running count of the documents it expects the index to hold. */
module Loading {
  import opened JavaInt

  type Bytes = seq<bv8>

  const IdKey: string := "id"

  const ResourcesDir: string := "target/test-classes"
  const TestDocumentsPath: string := ResourcesDir + "/test-documents"
  const SampleWarcFile: string := "/IAH-20080430204825-00000-blackbook.warc.gz"
  const SampleWarcPath: string := TestDocumentsPath + SampleWarcFile
  /** The number of records in the sample WARC file. */
  const SampleWarcRecords: int := 140

  /** The table of files holding more than one document, by path. */
  function NumRecords(): map<string, int>
  {
    map[SampleWarcPath := SampleWarcRecords]
  }

  /** The documents loading one file adds: its table entry, or 1. */
  function DocsFor(table: map<string, int>, file: string): int
  {
    if file in table then table[file] else 1
  }

  /** The document count expected after loading the files in order, from 0. */
  function ExpectedDocCount(table: map<string, int>, files: seq<string>): int
    decreases |files|
  {
    if files == [] then 0
    else ExpectedDocCount(table, files[..|files| - 1]) + DocsFor(table, files[|files| - 1])
  }

  /** With the test's table, every file counts 1 and each load of the sample
      WARC file counts 139 more. */
  lemma {:induction false} ExpectedDocCountWithSampleTable(files: seq<string>)
    ensures ExpectedDocCount(NumRecords(), files) ==
              |files| + (SampleWarcRecords - 1) * multiset(files)[SampleWarcPath]
    decreases |files|
  {
    if files != [] {
      var n := |files| - 1;
      ExpectedDocCountWithSampleTable(files[..n]);
      assert files == files[..n] + [files[n]];
      assert multiset(files) == multiset(files[..n]) + multiset{files[n]};
    }
  }

  /** java.io.File.getName: the part of the path after its last '/'. */
  function BaseName(path: string): string
    decreases |path|
  {
    if path == [] || path[|path| - 1] == '/' then []
    else BaseName(path[..|path| - 1]) + [path[|path| - 1]]
  }

  /** The base name is the longest suffix of the path without a '/'. */
  lemma {:induction false} BaseNameIsLastSegment(path: string)
    ensures var name := BaseName(path);
      |name| <= |path| &&
      (forall i :: 0 <= i < |name| ==> name[i] == path[|path| - |name| + i] && name[i] != '/') &&
      (|name| < |path| ==> path[|path| - |name| - 1] == '/')
    decreases |path|
  {
    if path != [] && path[|path| - 1] != '/' {
      BaseNameIsLastSegment(path[..|path| - 1]);
    }
  }

  /** What the indexer is handed by one load: the body and the headers. */
  datatype Delivered = Delivered(body: Bytes, headers: map<string, string>)

  /** A unit of work: a body and its mutable header map. */
  class StreamEvent {
    var body: Bytes
    var headers: map<string, string>

    constructor (body: Bytes, headers: map<string, string>)
      ensures this.body == body && this.headers == headers
    {
      this.body := body;
      this.headers := headers;
    }

    method PutHeader(key: string, value: string)
      modifies this
      ensures body == old(body)
      ensures headers == old(headers)[key := value]
    {
      headers := headers[key := value];
    }
  }

  /** How testDocumentTypesInternal ends: with the expected document count, or
      with the exception raised when a file cannot be read. */
  datatype DocCountRun = Completed(numDocs: int) | FileNotFound(path: string)

  /** The event loading one file hands to the indexer, with counter value id. */
  function Stamped(nameKey: string, body: Bytes, file: string, id: int): Delivered
  {
    Delivered(body, map[nameKey := BaseName(file), IdKey := IntToString(id)])
  }

  /** The events a run over the files hands to the indexer, the counter
      starting at start: each carries its file's name and a stamped id. */
  function Deliveries(nameKey: string, fs: map<string, Bytes>, files: seq<string>, start: int): (r: seq<Delivered>)
    requires IsInt32(start)
    requires forall i :: 0 <= i < |files| ==> files[i] in fs
    ensures |r| == |files|
    decreases |files|
  {
    if files == [] then []
    else
      var n := |files| - 1;
      Deliveries(nameKey, fs, files[..n], start) + [Stamped(nameKey, fs[files[n]], files[n], Advance(start, n))]
  }

  /** The i-th event of a run carries the i-th file and the counter advanced i times. */
  lemma {:induction false} DeliveriesAt(nameKey: string, fs: map<string, Bytes>, files: seq<string>, start: int, i: nat)
    requires IsInt32(start)
    requires forall j :: 0 <= j < |files| ==> files[j] in fs
    requires i < |files|
    ensures Deliveries(nameKey, fs, files, start)[i] == Stamped(nameKey, fs[files[i]], files[i], Advance(start, i))
    decreases |files|
  {
    var n := |files| - 1;
    var pre := files[..n];
    if i < n {
      DeliveriesAt(nameKey, fs, pre, start, i);
      assert Deliveries(nameKey, fs, files, start)[i] == Deliveries(nameKey, fs, pre, start)[i];
      assert pre[i] == files[i];
    }
  }

  lemma DeliveriesStep(nameKey: string, fs: map<string, Bytes>, files: seq<string>, start: int, i: nat)
    requires IsInt32(start) && i < |files|
    requires forall j :: 0 <= j <= i ==> files[j] in fs
    ensures Deliveries(nameKey, fs, files[..i + 1], start) ==
              Deliveries(nameKey, fs, files[..i], start) + [Stamped(nameKey, fs[files[i]], files[i], Advance(start, i))]
  {
    assert files[..i + 1][..i] == files[..i];
  }

  lemma ExpectedDocCountStep(table: map<string, int>, files: seq<string>, i: nat)
    requires i < |files|
    ensures ExpectedDocCount(table, files[..i + 1]) == ExpectedDocCount(table, files[..i]) + DocsFor(table, files[i])
  {
    assert files[..i + 1][..i] == files[..i];
  }

  /** The ids a run stamps are pairwise distinct, for at most 2^32 files. */
  lemma DeliveredIdsDistinct(nameKey: string, fs: map<string, Bytes>, files: seq<string>, start: int, a: int, b: int)
    requires IsInt32(start)
    requires forall i :: 0 <= i < |files| ==> files[i] in fs
    requires |files| <= Modulus && 0 <= a < b < |files|
    ensures var r := Deliveries(nameKey, fs, files, start);
      IdKey in r[a].headers && IdKey in r[b].headers && r[a].headers[IdKey] != r[b].headers[IdKey]
  {
    DeliveriesAt(nameKey, fs, files, start, a);
    DeliveriesAt(nameKey, fs, files, start, b);
    AdvanceInjective(start, a, b);
    IntToStringInjective(Advance(start, a), Advance(start, b));
  }

  /** The index of the first file that cannot be read, or the number of files
      when all can. */
  function FirstMissing(fs: map<string, Bytes>, files: seq<string>): (k: nat)
    ensures k <= |files|
    ensures forall j :: 0 <= j < k ==> files[j] in fs
    ensures k < |files| ==> files[k] !in fs
    decreases |files|
  {
    if files == [] || files[0] !in fs then 0
    else 1 + FirstMissing(fs, files[1..])
  }

  /** The first missing file is the one after a readable prefix. */
  lemma FirstMissingIs(fs: map<string, Bytes>, files: seq<string>, i: nat)
    requires i <= |files| && (forall j :: 0 <= j < i ==> files[j] in fs)
    requires i == |files| || files[i] !in fs
    ensures FirstMissing(fs, files) == i
  {
  }

  /** After the first k files were loaded with the counter starting at start:
      all of them were readable, the counter moved k times, and the indexer
      received their events after the earlier ones. */
  ghost predicate LoadedPrefix(nameKey: string, fs: map<string, Bytes>, files: seq<string>, k: int, start: int,
                               counter: int, before: seq<Delivered>, after: seq<Delivered>)
  {
    IsInt32(start) && 0 <= k <= |files| && (forall j :: 0 <= j < k ==> files[j] in fs) &&
    counter == Advance(start, k) && after == before + Deliveries(nameKey, fs, files[..k], start)
  }

  lemma LoadedPrefixStep(nameKey: string, fs: map<string, Bytes>, files: seq<string>, k: int, start: int,
                         counter: int, before: seq<Delivered>, after: seq<Delivered>)
    requires LoadedPrefix(nameKey, fs, files, k, start, counter, before, after)
    requires k < |files| && files[k] in fs
    ensures LoadedPrefix(nameKey, fs, files, k + 1, start, Increment(counter), before,
                         after + [Stamped(nameKey, fs[files[k]], files[k], counter)])
  {
    DeliveriesStep(nameKey, fs, files, start, k);
  }

  /** The test harness state that outlives one load: the global sequence
      counter, and the events handed to the indexer so far. */
  class TestHarness {
    /** The header name under which Tika's Metadata.RESOURCE_NAME_KEY files
        the resource name. */
    const resourceNameKey: string
    var seqNum: int
    var processed: seq<Delivered>

    ghost predicate Valid()
      reads this
    {
      IsInt32(seqNum)
    }

    constructor (resourceNameKey: string)
      ensures Valid() && seqNum == 0 && processed == []
      ensures this.resourceNameKey == resourceNameKey
    {
      this.resourceNameKey := resourceNameKey;
      seqNum := 0;
      processed := [];
    }

    /** load: hands the indexer a copy of the event whose "id" header is the
        decimal text of the counter, which is then incremented; the caller's
        event is left as it was. */
    method Load(event: StreamEvent)
      requires Valid()
      modifies this
      ensures Valid()
      ensures seqNum == Increment(old(seqNum))
      ensures processed == old(processed) + [Delivered(event.body, event.headers[IdKey := IntToString(old(seqNum))])]
      ensures event.body == old(event.body) && event.headers == old(event.headers)
    {
      var copy := new StreamEvent(event.body, event.headers);
      var id := seqNum;
      seqNum := Increment(seqNum);
      copy.PutHeader(IdKey, IntToString(id));
      processed := processed + [Delivered(copy.body, copy.headers)];
    }

    /** One file's turn in testDocumentTypesInternal: a fresh event carrying
        the file's body and its name, handed to load. */
    method LoadFile(file: string, body: Bytes)
      requires Valid()
      modifies this
      ensures Valid()
      ensures seqNum == Increment(old(seqNum))
      ensures processed == old(processed) + [Stamped(resourceNameKey, body, file, old(seqNum))]
    {
      var event := new StreamEvent(body, map[]);
      event.PutHeader(resourceNameKey, BaseName(file));
      Load(event);
    }

    /** testDocumentTypesInternal: loads each file, named by its base name, and
        adds its expected number of documents to the running count. */
    method TestDocumentTypesInternal(fs: map<string, Bytes>, files: seq<string>) returns (run: DocCountRun)
      requires Valid()
      modifies this
      ensures Valid()
      ensures var k := FirstMissing(fs, files);
        LoadedPrefix(resourceNameKey, fs, files, k, old(seqNum), seqNum, old(processed), processed) &&
        run == if k < |files| then FileNotFound(files[k]) else Completed(ExpectedDocCount(NumRecords(), files))
    {
      var numDocs := 0;
      var numRecords := NumRecords();
      var i := 0;
      while i < |files|
        invariant Valid()
        invariant LoadedPrefix(resourceNameKey, fs, files, i, old(seqNum), seqNum, old(processed), processed)
        invariant numDocs == ExpectedDocCount(numRecords, files[..i])
      {
        var file := files[i];
        if file !in fs {
          FirstMissingIs(fs, files, i);
          return FileNotFound(file);
        }
        ghost var counter, delivered := seqNum, processed;
        LoadFile(file, fs[file]);
        numDocs := numDocs + DocsFor(numRecords, file);
        LoadedPrefixStep(resourceNameKey, fs, files, i, old(seqNum), counter, old(processed), delivered);
        ExpectedDocCountStep(numRecords, files, i);
        i := i + 1;
      }
      assert files[..i] == files;
      FirstMissingIs(fs, files, i);
      return Completed(numDocs);
    }
  }
}
