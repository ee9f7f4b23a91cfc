/**
 * The sequential skeleton of the downloader: main (main.go:39-58) probes the
 * resource, falls back to a generated name and to a single chunk, splits the
 * size, and calls downloadFile (file.go:36-84), which asks for one range per
 * chunk, collects the chunks that arrive, merges them and cleans up.
 *
 * The concurrent part is replaced by its observable result: `arrivals`, the
 * chunks that were downloaded, in the order they reached the `chunks`
 * channel. A chunk whose download failed or was cancelled is absent.
 */
module Pipeline {
  import opened Wrappers
  import opened Errors
  import opened ChunkPlan
  import opened RangeHeader
  import opened FileDetails
  import opened Collect
  import opened Workspace

  /** One GET request a download goroutine issues: the URL and its `Range` header. */
  datatype Request = Request(url: string, rangeHeader: string)

  /** main.go:50-53: without range support the download uses a single chunk. */
  function EffectiveChunks(f: File, requested: int): int
  {
    if f.acceptRanges then requested else 1
  }

  /** main.go:45-48: the suggested name, or the generated one when there is none. */
  function Destination(f: File, generated: string): string
  {
    if f.name == "" then generated else f.name
  }

  /** The request chunk `i` of `n` sends, given the split main.go passes in. */
  function ChunkRequest(url: string, chunkSize: int, remainder: int, n: int, i: int): Request
  {
    var w := WindowAt(i, chunkSize, remainder, n);
    Request(url, Format(w.start, w.end))
  }

  /** The requests of chunks 0 to n - 1, by index. */
  function Requests(url: string, chunkSize: int, remainder: int, n: nat): (rs: seq<Request>)
    ensures |rs| == n
  {
    seq(n, i requires 0 <= i < n => ChunkRequest(url, chunkSize, remainder, n, i))
  }

  /** All requests for a resource of `size` bytes in `n` chunks, by index. */
  function PlannedRequests(url: string, size: int, n: int): (rs: seq<Request>)
    requires n >= 1
    ensures |rs| == n
  {
    Requests(url, GoDiv(size, n), GoMod(size, n), n)
  }

  /** Each request's header reads back as exactly its chunk's window. */
  lemma RequestHeaderParses(url: string, chunkSize: int, remainder: int, n: int, i: int)
    ensures var w := WindowAt(i, chunkSize, remainder, n);
      Parse(ChunkRequest(url, chunkSize, remainder, n, i).rangeHeader) == Some((w.start, w.end))
  {
    var w := WindowAt(i, chunkSize, remainder, n);
    ParseFormat(w.start, w.end);
  }

  /**
   * The `eg.Go` loop of downloadFile (file.go:42-62): chunk `i` asks for its
   * window of the resource, whatever order the goroutines then run in.
   */
  method IssueRequests(url: string, chunkSize: int, remainder: int, n: nat) returns (requests: seq<Request>)
    ensures requests == Requests(url, chunkSize, remainder, n)
    ensures forall i :: 0 <= i < n ==>
      (requests[i].url == url &&
       Parse(requests[i].rangeHeader) ==
         Some((WindowAt(i, chunkSize, remainder, n).start, WindowAt(i, chunkSize, remainder, n).end)))
  {
    requests := [];
    for i := 0 to n
      invariant |requests| == i
      invariant forall k :: 0 <= k < i ==> requests[k] == ChunkRequest(url, chunkSize, remainder, n, k)
    {
      requests := requests + [ChunkRequest(url, chunkSize, remainder, n, i)];
    }
    forall i | 0 <= i < n
      ensures Parse(requests[i].rangeHeader) ==
        Some((WindowAt(i, chunkSize, remainder, n).start, WindowAt(i, chunkSize, remainder, n).end))
    {
      RequestHeaderParses(url, chunkSize, remainder, n, i);
    }
  }

  /** `fileNames` after the collection loop. */
  function Slots(n: nat, arrivals: seq<Chunk>): seq<string>
    requires InRange(arrivals, n)
  {
    Placed(Blank(n), arrivals)
  }

  /** The files once downloadFile has merged into `dst` and removed the temporary files. */
  function FilesAfter(files: Files, readOnly: set<string>, dst: string, slots: seq<string>): Files
  {
    MergedFiles(files, readOnly, dst, slots) - NameSet(slots)
  }

  /** The errors downloadFile sends: the merge error, then one per failed removal. */
  function ErrorsAfter(files: Files, readOnly: set<string>, dst: string, slots: seq<string>): seq<Error>
  {
    var mergeErr := MergeError(files, readOnly, dst, slots);
    (if mergeErr.Some? then [mergeErr.value] else [])
      + CleanupErrors(MergedFiles(files, readOnly, dst, slots).Keys, slots)
  }

  class Downloader {
    /** The `-chunks` flag, which main overwrites when ranges are unsupported. */
    var numberOfChunks: int
    /** The `-url` flag. */
    const url: string
    const ws: Workspace

    ghost predicate Valid()
      reads this, ws
    {
      numberOfChunks >= 1 && ws.Valid()
    }

    /** The flags as flags.go leaves them: validateFlags guarantees at least one chunk. */
    constructor (url: string, numberOfChunks: int, ws: Workspace)
      requires numberOfChunks >= 1 && ws.Valid()
      ensures Valid()
      ensures this.url == url && this.numberOfChunks == numberOfChunks && this.ws == ws
    {
      this.url := url;
      this.numberOfChunks := numberOfChunks;
      this.ws := ws;
    }

    /**
     * downloadFile without its goroutines: one request per chunk index, then
     * the collection loop over the arrivals, the merge into `f.name` (its
     * error sent on `errs`), and the deferred cleanup of every collected name.
     */
    method DownloadFile(chunkSize: int, remainder: int, f: File, arrivals: seq<Chunk>)
      returns (requests: seq<Request>)
      requires Valid()
      requires InRange(arrivals, numberOfChunks)
      requires forall c :: c in arrivals ==> c.tempFileName != f.name
      modifies ws
      ensures Valid() && ws.readOnly == old(ws.readOnly)
      ensures requests == Requests(url, chunkSize, remainder, numberOfChunks)
      ensures ws.files == FilesAfter(old(ws.files), ws.readOnly, f.name, Slots(numberOfChunks, arrivals))
      ensures ws.errs == old(ws.errs) + ErrorsAfter(old(ws.files), ws.readOnly, f.name, Slots(numberOfChunks, arrivals))
    {
      var n := numberOfChunks;
      requests := IssueRequests(url, chunkSize, remainder, n);
      var fileNames := CollectNames(n, arrivals);
      var slots := fileNames[..];
      ghost var files0, errs0 := ws.files, ws.errs;
      SlotsNotDestination(n, arrivals, f.name);
      var err := ws.MergeFiles(f.name, slots);
      ghost var merged := ws.files;
      assert merged == MergedFiles(files0, ws.readOnly, f.name, slots);
      if err.Some? {
        ws.Send(err.value);
      }
      assert ws.files == merged;
      assert ws.errs == errs0 + (if err.Some? then [err.value] else []);
      ws.CleanupFiles(slots);
    }

    /**
     * main from the probe on: a failed probe sends its error and stops before
     * any planning; otherwise the name and chunk-count fallbacks are applied
     * in place, the size is split with Go's `/` and `%`, and downloadFile runs.
     */
    method Run(probe: Probe, generatedName: string, arrivals: seq<Chunk>)
      returns (requests: seq<Request>)
      requires Valid()
      requires generatedName != ""
      requires GetFileDetails(url, probe).Success? ==>
        var f := GetFileDetails(url, probe).value;
        && InRange(arrivals, EffectiveChunks(f, numberOfChunks))
        && forall c :: c in arrivals ==> c.tempFileName != Destination(f, generatedName)
      modifies this, ws
      ensures Valid() && ws.readOnly == old(ws.readOnly)
      ensures GetFileDetails(url, probe).Failure? ==>
        && numberOfChunks == old(numberOfChunks)
        && requests == []
        && ws.files == old(ws.files)
        && ws.errs == old(ws.errs) + [GetFileDetails(url, probe).error]
      ensures GetFileDetails(url, probe).Success? ==>
        var f := GetFileDetails(url, probe).value;
        var dst := Destination(f, generatedName);
        && dst != ""
        && numberOfChunks == EffectiveChunks(f, old(numberOfChunks))
        && requests == PlannedRequests(url, f.size, numberOfChunks)
        && ws.files == FilesAfter(old(ws.files), ws.readOnly, dst, Slots(numberOfChunks, arrivals))
        && ws.errs == old(ws.errs) + ErrorsAfter(old(ws.files), ws.readOnly, dst, Slots(numberOfChunks, arrivals))
    {
      var details := GetFileDetails(url, probe);
      if details.Failure? {
        ws.Send(details.error);
        return [];
      }
      var f := details.value;
      if f.name == "" {
        f := f.(name := generatedName);
      }
      if !f.acceptRanges {
        numberOfChunks := 1;
      }
      var chunkSize := GoDiv(f.size, numberOfChunks);
      var remainder := GoMod(f.size, numberOfChunks);
      requests := DownloadFile(chunkSize, remainder, f, arrivals);
    }
  }

  /** The destination is never one of the collected names, so the merge never copies it into itself. */
  lemma SlotsNotDestination(n: nat, arrivals: seq<Chunk>, dst: string)
    requires InRange(arrivals, n)
    requires forall c :: c in arrivals ==> c.tempFileName != dst
    ensures dst != "" ==> dst !in Slots(n, arrivals)
  {
    forall k | 0 <= k < n
      ensures Slots(n, arrivals)[k] == "" || Slots(n, arrivals)[k] != dst
    {
      PlacedNames(Blank(n), arrivals, k);
    }
  }

  /** Each temporary file belongs to one chunk index and each index has one temporary file. */
  predicate UniqueNames(arrivals: seq<Chunk>) {
    forall c, d :: c in arrivals && d in arrivals ==>
      (c.index == d.index <==> c.tempFileName == d.tempFileName)
  }

  /** Some chunk with index `k` arrived. */
  predicate Arrived(arrivals: seq<Chunk>, k: int) {
    exists c :: c in arrivals && c.index == k
  }

  /** Distinct chunks leave distinct names in the slots. */
  lemma SlotsDistinct(n: nat, arrivals: seq<Chunk>)
    requires InRange(arrivals, n) && UniqueNames(arrivals)
    ensures DistinctNames(Slots(n, arrivals))
  {
    var slots := Slots(n, arrivals);
    forall i, j | 0 <= i < j < n && slots[i] != ""
      ensures slots[i] != slots[j]
    {
      PlacedNames(Blank(n), arrivals, i);
      PlacedNames(Blank(n), arrivals, j);
    }
  }

  /**
   * Every request the plan issues carries exactly its chunk's window; with
   * PlanTiles these windows cover bytes 0 to size - 1 in order, without gaps
   * or overlaps.
   */
  lemma PlannedRangesRoundTrip(url: string, size: int, n: int)
    requires n >= 1
    ensures forall i :: 0 <= i < n ==>
      (PlannedRequests(url, size, n)[i].url == url &&
       Parse(PlannedRequests(url, size, n)[i].rangeHeader) ==
         Some((Plan(size, n)[i].start, Plan(size, n)[i].end)))
  {
    forall i | 0 <= i < n
      ensures Parse(PlannedRequests(url, size, n)[i].rangeHeader) ==
        Some((Plan(size, n)[i].start, Plan(size, n)[i].end))
    {
      RequestHeaderParses(url, GoDiv(size, n), GoMod(size, n), n, i);
    }
  }

  /**
   * A server without range support gets a single request for the whole
   * resource, whatever chunk count was asked for.
   */
  lemma NoRangeSupportMeansOneRequest(url: string, f: File, requested: int)
    requires !f.acceptRanges
    ensures EffectiveChunks(f, requested) == 1
    ensures PlannedRequests(url, f.size, EffectiveChunks(f, requested)) == [Request(url, Format(0, f.size - 1))]
  {
    assert GoDiv(f.size, 1) == f.size && GoMod(f.size, 1) == 0;
  }

  /** How the chunks that did arrive sit in the files before the merge. */
  predicate ChunksStored(files: Files, dst: string, arrivals: seq<Chunk>, parts: seq<seq<byte>>)
  {
    forall c :: c in arrivals ==>
      && 0 <= c.index < |parts|
      && c.tempFileName != "" && c.tempFileName != dst
      && c.tempFileName in files && files[c.tempFileName] == parts[c.index]
  }

  /**
   * When every chunk arrived, in whatever order, downloadFile leaves `dst`
   * beginning with the chunks' bytes in index order (exactly those bytes if
   * `dst` was new or empty), sends no error, and removes every temporary file.
   */
  lemma DownloadAssembles(files: Files, readOnly: set<string>, dst: string, n: nat,
                          arrivals: seq<Chunk>, parts: seq<seq<byte>>)
    requires "" !in files
    requires dst != "" && dst !in readOnly
    requires |parts| == n && InRange(arrivals, n) && UniqueNames(arrivals)
    requires ChunksStored(files, dst, arrivals, parts)
    requires forall k :: 0 <= k < n ==> Arrived(arrivals, k)
    ensures var after := FilesAfter(files, readOnly, dst, Slots(n, arrivals));
      && dst in after
      && after[dst] == Overlay(Existing(files, dst), Flatten(parts))
      && (forall c :: c in arrivals ==> c.tempFileName !in after)
    ensures ErrorsAfter(files, readOnly, dst, Slots(n, arrivals)) == []
  {
    var slots := Slots(n, arrivals);
    forall k | 0 <= k < n
      ensures slots[k] in files && files[slots[k]] == parts[k] && slots[k] != dst
    {
      assert Arrived(arrivals, k);
      var c :| c in arrivals && c.index == k;
      PlacedSlot(Blank(n), arrivals, k);
    }
    JoinedIsFlatten(files, slots, parts);
    MergeSucceeds(files, readOnly, dst, slots);
    var merged := MergedFiles(files, readOnly, dst, slots);
    assert dst !in NameSet(slots);
    SlotsDistinct(n, arrivals);
    CleanupAllPresent(merged.Keys, slots);
    forall c | c in arrivals
      ensures c.tempFileName in NameSet(slots)
    {
      PlacedSlot(Blank(n), arrivals, c.index);
    }
  }

  /**
   * When chunk `j` never arrived but all before it did, the merge still
   * runs: it creates `dst`, writes the chunks before `j` into it, and fails
   * opening the empty name in slot `j`. That open error is the first error
   * sent, and every temporary file that did arrive is removed.
   */
  lemma DownloadWithMissingChunk(files: Files, readOnly: set<string>, dst: string, n: nat,
                                 arrivals: seq<Chunk>, parts: seq<seq<byte>>, j: nat)
    requires "" !in files
    requires dst != "" && dst !in readOnly
    requires |parts| == n && InRange(arrivals, n) && UniqueNames(arrivals)
    requires ChunksStored(files, dst, arrivals, parts)
    requires j < n && forall c :: c in arrivals ==> c.index != j
    requires forall k :: 0 <= k < j ==> Arrived(arrivals, k)
    ensures var after := FilesAfter(files, readOnly, dst, Slots(n, arrivals));
      && dst in after
      && after[dst] == Overlay(Existing(files, dst), Flatten(parts[..j]))
      && (forall c :: c in arrivals ==> c.tempFileName !in after)
    ensures var errs := ErrorsAfter(files, readOnly, dst, Slots(n, arrivals));
      |errs| >= 1 && errs[0] == PathError(Open, "", NotExist)
  {
    var slots := Slots(n, arrivals);
    forall k | 0 <= k < j
      ensures slots[k] in files && files[slots[k]] == parts[k] && slots[k] != dst
    {
      assert Arrived(arrivals, k);
      var c :| c in arrivals && c.index == k;
      PlacedSlot(Blank(n), arrivals, k);
    }
    PlacedSlot(Blank(n), arrivals, j);
    assert slots[j] == "";
    forall k | 0 <= k < n
      ensures slots[k] != dst
    {
      PlacedNames(Blank(n), arrivals, k);
    }
    MergeStopsAtFirstMissing(files, readOnly, dst, slots, j);
    JoinedIsFlatten(files, slots[..j], parts[..j]);
    assert dst !in NameSet(slots);
    forall c | c in arrivals
      ensures c.tempFileName in NameSet(slots)
    {
      PlacedSlot(Blank(n), arrivals, c.index);
    }
  }

  /** The order in which chunks arrive changes nothing downloadFile does to files or errors. */
  lemma ArrivalOrderChangesNothing(files: Files, readOnly: set<string>, dst: string, n: nat,
                                   a1: seq<Chunk>, a2: seq<Chunk>)
    requires multiset(a1) == multiset(a2)
    requires InRange(a1, n) && Consistent(a1)
    ensures InRange(a2, n)
    ensures FilesAfter(files, readOnly, dst, Slots(n, a1)) == FilesAfter(files, readOnly, dst, Slots(n, a2))
    ensures ErrorsAfter(files, readOnly, dst, Slots(n, a1)) == ErrorsAfter(files, readOnly, dst, Slots(n, a2))
  {
    ArrivalOrderIrrelevant(Blank(n), a1, a2);
  }
}
