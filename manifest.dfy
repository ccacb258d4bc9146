/**
 * The dataset manifest of `download_dataset`: the records are
 * de-duplicated by whole-record equality, keeping the order in which each
 * record first appears, and each remaining record becomes one download.
 */
module Manifest {
  import opened Replies

  predicate NoDuplicates(s: seq<DataFile>)
  {
    forall i, j :: 0 <= i < j < |s| ==> s[i] != s[j]
  }

  /** Position of the first occurrence of `x` in `s`. */
  function FirstIndex(s: seq<DataFile>, x: DataFile): (i: nat)
    requires x in s
    ensures i < |s| && s[i] == x && x !in s[..i]
  {
    if s[0] == x then 0
    else
      var i := 1 + FirstIndex(s[1..], x);
      assert s[..i] == [s[0]] + s[1..][..i - 1];
      i
  }

  /** The first occurrence of a record found in a prefix lies in that prefix. */
  lemma FirstIndexInPrefix(s: seq<DataFile>, k: nat, x: DataFile)
    requires k <= |s| && x in s[..k]
    ensures FirstIndex(s, x) == FirstIndex(s[..k], x) < k
  {
    var i, j := FirstIndex(s, x), FirstIndex(s[..k], x);
    assert s[..k][..j] == s[..j];
  }

  /** The records of `s`, each once, in the order of their first appearance;
      nothing is lost and nothing is repeated. */
  function FirstOccurrences(s: seq<DataFile>): (r: seq<DataFile>)
    ensures forall x :: x in r <==> x in s
    ensures NoDuplicates(r)
    decreases |s|
  {
    if s == [] then []
    else
      var init, last := s[..|s| - 1], s[|s| - 1];
      assert s == init + [last];
      if last in init then FirstOccurrences(init) else FirstOccurrences(init) + [last]
  }

  /** `r` lists records of `s` in the order in which they first appear in `s`. */
  predicate InFirstOccurrenceOrder(s: seq<DataFile>, r: seq<DataFile>)
    requires forall x :: x in r ==> x in s
  {
    forall i, j :: 0 <= i < j < |r| ==> FirstIndex(s, r[i]) < FirstIndex(s, r[j])
  }

  /** Appending a record leaves the first occurrences of earlier records alone. */
  lemma OrderExtends(init: seq<DataFile>, last: DataFile, p: seq<DataFile>)
    requires forall x :: x in p ==> x in init
    requires InFirstOccurrenceOrder(init, p)
    ensures InFirstOccurrenceOrder(init + [last], p)
  {
    var s := init + [last];
    assert s[..|init|] == init;
    forall i | 0 <= i < |p|
      ensures FirstIndex(s, p[i]) == FirstIndex(init, p[i]) < |init|
    {
      FirstIndexInPrefix(s, |init|, p[i]);
    }
  }

  /** A record new at the end comes after every earlier record. */
  lemma OrderAppendNew(init: seq<DataFile>, last: DataFile, p: seq<DataFile>)
    requires forall x :: x in p ==> x in init
    requires last !in init
    requires InFirstOccurrenceOrder(init + [last], p)
    ensures InFirstOccurrenceOrder(init + [last], p + [last])
  {
    var s, r := init + [last], p + [last];
    assert s[..|init|] == init;
    assert FirstIndex(s, last) == |init|;
    forall i | 0 <= i < |p|
      ensures FirstIndex(s, r[i]) < |init|
    {
      assert r[i] == p[i];
      FirstIndexInPrefix(s, |init|, p[i]);
    }
  }

  /** The output keeps first-occurrence order: a record listed before another
      first appears before it in the manifest. */
  lemma {:induction false} FirstOccurrencesOrder(s: seq<DataFile>)
    ensures InFirstOccurrenceOrder(s, FirstOccurrences(s))
    decreases |s|
  {
    if s != [] {
      var init, last := s[..|s| - 1], s[|s| - 1];
      assert s == init + [last];
      FirstOccurrencesOrder(init);
      OrderExtends(init, last, FirstOccurrences(init));
      if last !in init {
        OrderAppendNew(init, last, FirstOccurrences(init));
      }
    }
  }

  /** Each record of the manifest occurs exactly once in the output, and
      nothing else does. */
  lemma {:induction false} FirstOccurrencesOnce(s: seq<DataFile>, x: DataFile)
    ensures multiset(FirstOccurrences(s))[x] == if x in s then 1 else 0
    decreases |s|
  {
    if s != [] {
      var init, last := s[..|s| - 1], s[|s| - 1];
      assert s == init + [last];
      FirstOccurrencesOnce(init, x);
    }
  }

  /** The list-building loop of `download_dataset`: a record is appended
      when it is not already in the list built so far. */
  method Dedup(records: seq<DataFile>) returns (unique: seq<DataFile>)
    ensures unique == FirstOccurrences(records)
  {
    unique := [];
    for i := 0 to |records|
      invariant unique == FirstOccurrences(records[..i])
    {
      assert records[..i + 1][..i] == records[..i];
      if records[i] !in unique {
        unique := unique + [records[i]];
      }
    }
    assert records[..|records|] == records;
  }

  /** Local path of a downloaded file; `os.path.join` with a plain file name. */
  function JoinPath(dir: string, name: string): string
  {
    dir + "/" + name
  }

  /** The download issued for one manifest record. */
  function DownloadOf(api: string, destination: string, f: DataFile): Request
  {
    DownloadFile(api + "/files/" + f.filename, JoinPath(destination, f.filename))
  }

  /** The downloads issued for a list of records: one per record, the last
      for the last record. */
  function DownloadPlan(api: string, destination: string, files: seq<DataFile>): (plan: seq<Request>)
    ensures |plan| == |files|
    ensures files != [] ==> plan[|files| - 1] == DownloadOf(api, destination, files[|files| - 1])
    decreases |files|
  {
    if files == [] then []
    else DownloadPlan(api, destination, files[..|files| - 1]) + [DownloadOf(api, destination, files[|files| - 1])]
  }

  /** The k-th download fetches the k-th record's file into the destination:
      the records are downloaded in list order. */
  lemma {:induction false} DownloadPlanAt(api: string, destination: string, files: seq<DataFile>, k: nat)
    requires k < |files|
    ensures DownloadPlan(api, destination, files)[k] == DownloadOf(api, destination, files[k])
    decreases |files|
  {
    if k < |files| - 1 {
      var init := files[..|files| - 1];
      DownloadPlanAt(api, destination, init, k);
      assert init[k] == files[k];
    }
  }

  /** Downloading the de-duplicated manifest fetches every record of the
      manifest, each record exactly once, in the order of first appearance,
      and nothing else. */
  lemma OneDownloadPerDistinctRecord(api: string, destination: string, manifest: seq<DataFile>)
    ensures var unique := FirstOccurrences(manifest);
      var plan := DownloadPlan(api, destination, unique);
      && |plan| == |unique|
      && (forall k :: 0 <= k < |plan| ==> plan[k] == DownloadOf(api, destination, unique[k]))
      && (forall f :: f in manifest <==> f in unique)
      && (forall f :: multiset(unique)[f] == if f in manifest then 1 else 0)
      && InFirstOccurrenceOrder(manifest, unique)
  {
    var unique := FirstOccurrences(manifest);
    forall f
      ensures multiset(unique)[f] == if f in manifest then 1 else 0
    {
      FirstOccurrencesOnce(manifest, f);
    }
    forall k | 0 <= k < |unique|
      ensures DownloadPlan(api, destination, unique)[k] == DownloadOf(api, destination, unique[k])
    {
      DownloadPlanAt(api, destination, unique, k);
    }
    FirstOccurrencesOrder(manifest);
  }

  /** A manifest holding one record twice yields two downloads, not three. */
  lemma DuplicateRecordDownloadedOnce(a: DataFile, b: DataFile)
    requires a != b
    ensures FirstOccurrences([a, b, a]) == [a, b]
  {
    assert [a, b, a][..2] == [a, b];
    assert [a, b][..1] == [a];
    assert [a][..0] == [];
    assert FirstOccurrences([a]) == [a];
    assert FirstOccurrences([a, b]) == [a, b];
  }
}
