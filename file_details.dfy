/**
 * The metadata probe (getFileDetails, file.go:86-124) with the HTTP round
 * trip replaced by its outcome: either no response, or a status code and the
 * response's header fields.
 */
module FileDetails {
  import opened Wrappers
  import opened Errors
  import opened Decimal

  /**
   * What client.Head gave back. Header names are in Go's canonical form
   * (as net/http stores them); a field may carry several values.
   */
  datatype Probe =
    | NoResponse
    | Response(status: int, header: map<string, seq<string>>)

  /** The `file` record: what the downloader learns about the resource. */
  datatype File = File(name: string, size: int, etag: string, acceptRanges: bool, contentType: string)

  const StatusOK: int := 200
  const FileNameKey: string := "filename="
  /** The code asks for "ETag"; Header.Get looks up its canonical form. */
  const EtagKey: string := "Etag"

  /** http.Header.Get: the first value of a field, or "" when there is none. */
  function HeaderGet(header: map<string, seq<string>>, key: string): string
  {
    if key in header && header[key] != [] then header[key][0] else ""
  }

  predicate OccursAt(s: string, pat: string, k: nat) {
    k + |pat| <= |s| && s[k..k + |pat|] == pat
  }

  /** strings.Index from position `from` on: the first occurrence of `pat`, if any. */
  function IndexFrom(s: string, pat: string, from: nat): (r: Option<nat>)
    requires from <= |s|
    ensures r.Some? ==> from <= r.value && OccursAt(s, pat, r.value)
    ensures r.Some? ==> forall k :: from <= k < r.value ==> !OccursAt(s, pat, k)
    ensures r.None? ==> forall k :: from <= k <= |s| ==> !OccursAt(s, pat, k)
    decreases |s| - from
  {
    if OccursAt(s, pat, from) then Some(from)
    else if from == |s| then None
    else IndexFrom(s, pat, from + 1)
  }

  /** file.go:102-107: everything after the first `filename=`, or "" without one. */
  function FileNameOf(disposition: string): string
  {
    match IndexFrom(disposition, FileNameKey, 0)
    case Some(k) => disposition[k + |FileNameKey|..]
    case None => ""
  }

  /** file.go:86-124, from the point where client.Head has returned. */
  function GetFileDetails(url: string, probe: Probe): (r: Result<File, Error>)
    ensures r.Success? ==> probe.Response? && probe.status == StatusOK
    ensures r.Success? ==> Int64Min <= r.value.size <= Int64Max
    ensures r.Success? ==> Decimalish(HeaderGet(probe.header, "Content-Length"))
  {
    match probe
    case NoResponse => Failure(Transport)
    case Response(status, header) =>
      if status != StatusOK then Failure(BadStatus(url, status))
      else
        var length := HeaderGet(header, "Content-Length");
        match Atoi(length)
        case Failure(kind) => Failure(BadContentLength(length, kind))
        case Success(size) =>
          Success(File(
            FileNameOf(HeaderGet(header, "Content-Disposition")),
            size,
            HeaderGet(header, EtagKey),
            HeaderGet(header, "Accept-Ranges") == "bytes",
            HeaderGet(header, "Content-Type")))
  }

  /**
   * The suggested name is the whole rest of Content-Disposition after the
   * first `filename=`: any occurrence at `k` with none before it decides it,
   * and without one the name is empty.
   */
  lemma FileNameIsSuffixAfterFirstKey(disposition: string, k: nat)
    requires OccursAt(disposition, FileNameKey, k)
    requires forall j :: 0 <= j < k ==> !OccursAt(disposition, FileNameKey, j)
    ensures FileNameOf(disposition) == disposition[k + |FileNameKey|..]
  {
  }

  lemma FileNameAbsent(disposition: string)
    requires forall j :: 0 <= j <= |disposition| ==> !OccursAt(disposition, FileNameKey, j)
    ensures FileNameOf(disposition) == ""
  {
  }

  /**
   * Every failure of the probe yields an error and no record: no response, a
   * status other than 200, or a Content-Length Atoi refuses (including a
   * missing one, which reads as ""), reported with Atoi's own error kind.
   */
  lemma ProbeFailures(url: string, probe: Probe)
    ensures probe.NoResponse? ==> GetFileDetails(url, probe) == Failure(Transport)
    ensures probe.Response? && probe.status != StatusOK ==>
      GetFileDetails(url, probe) == Failure(BadStatus(url, probe.status))
    ensures probe.Response? && probe.status == StatusOK && !Decimalish(HeaderGet(probe.header, "Content-Length")) ==>
      GetFileDetails(url, probe).Failure?
    ensures probe.Response? && probe.status == StatusOK && Atoi(HeaderGet(probe.header, "Content-Length")).Failure? ==>
      var length := HeaderGet(probe.header, "Content-Length");
      GetFileDetails(url, probe) == Failure(BadContentLength(length, Atoi(length).error))
    ensures probe.Response? && "Content-Length" !in probe.header ==> GetFileDetails(url, probe).Failure?
  {
    if probe.Response? && "Content-Length" !in probe.header {
      assert !Decimalish("");
    }
  }

  /**
   * A 200 response whose Content-Length is an optional sign and digits
   * denoting a 64-bit integer yields a record with that size, Accept-Ranges
   * compared exactly with "bytes", and the entity tag and Content-Type copied
   * verbatim.
   */
  lemma ProbeSuccess(url: string, header: map<string, seq<string>>)
    requires Decimalish(HeaderGet(header, "Content-Length"))
    requires Int64Min <= SignedValue(HeaderGet(header, "Content-Length")) <= Int64Max
    ensures GetFileDetails(url, Response(StatusOK, header)).Success?
    ensures var f := GetFileDetails(url, Response(StatusOK, header)).value;
      && f.size == SignedValue(HeaderGet(header, "Content-Length"))
      && f.acceptRanges == (HeaderGet(header, "Accept-Ranges") == "bytes")
      && f.etag == HeaderGet(header, "Etag")
      && f.contentType == HeaderGet(header, "Content-Type")
      && f.name == FileNameOf(HeaderGet(header, "Content-Disposition"))
  {
  }

  lemma ExampleFileName()
    ensures FileNameOf("attachment; filename=test.txt") == "test.txt"
  {
    var cd := "attachment; filename=test.txt";
    assert cd[12..21] == FileNameKey;
    forall j | 0 <= j < 12 ensures !OccursAt(cd, FileNameKey, j) {
      assert cd[j + 8] != FileNameKey[8];
    }
    FileNameIsSuffixAfterFirstKey(cd, 12);
    assert cd[21..] == "test.txt";
  }

  /** The first case of TestGetFileDetails (file_test.go:28-53); Header.Set stores "ETag" as "Etag". */
  lemma ExampleFileDetails(url: string)
    ensures GetFileDetails(url, Response(StatusOK, map[
      "Content-Disposition" := ["attachment; filename=test.txt"],
      "Content-Length" := ["100"],
      "Accept-Ranges" := ["bytes"],
      "Etag" := ["123456789"]]))
      == Success(File("test.txt", 100, "123456789", true, ""))
  {
    var header := map[
      "Content-Disposition" := ["attachment; filename=test.txt"],
      "Content-Length" := ["100"],
      "Accept-Ranges" := ["bytes"],
      "Etag" := ["123456789"]];
    assert HeaderGet(header, "Content-Length") == "100";
    assert HeaderGet(header, "Content-Disposition") == "attachment; filename=test.txt";
    assert HeaderGet(header, "Accept-Ranges") == "bytes";
    assert HeaderGet(header, EtagKey) == "123456789";
    assert HeaderGet(header, "Content-Type") == "";
    ExampleFileName();
    AtoiExamples();
  }

  /** The third case of TestGetFileDetails (file_test.go:70-87): "abc" is no length. */
  lemma ExampleNonIntegerLength(url: string)
    ensures GetFileDetails(url, Response(StatusOK, map["Content-Length" := ["abc"]]))
      == Failure(BadContentLength("abc", Syntax))
  {
    AtoiSyntaxExamples();
  }
}
