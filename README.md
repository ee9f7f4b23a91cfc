# multi-source-downloader, modelled in Dafny

multi-source-downloader fetches one HTTP resource in parallel. It sends a HEAD
probe to learn the size, name and range support. It splits the size into N byte
windows and downloads each window into a temporary file from its own goroutine.
It then merges the temporary files, in index order, into the destination, and
removes them. This project models that pipeline's sequential bookkeeping. The
HTTP traffic and the goroutines are replaced by their results: a probe outcome
record, and the list of chunks that arrived in arrival order.

Modules, leaf first:

- `Wrappers` (wrappers.dfy): `Option` and `Result`.
- `Errors` (errors.dfy): what the `errs` channel carries. It covers transport
  failure, bad status, a bad Content-Length, and Go `*os.PathError` for
  open/remove.
- `Decimal` (decimal.dfy): `%d` rendering of integers and `strconv.Atoi`. Atoi
  accepts an optional `+`/`-` and one or more digits. The value must fit the
  64-bit `int` range. Its range error takes precedence over a later bad
  character, as Go's digit loop does.
- `RangeHeader` (range_header.dfy): the `bytes=<start>-<end>` header of
  `downloadChunk`, with a parser and the round trip. This is the byte-range-spec
  of section 14.1.2 of RFC 9110.
- `ChunkPlan` (chunk_plan.dfy): Go's truncating `/` and `%` as used by `main`.
  It also has the per-goroutine window formula and the tiling properties of the
  resulting plan.
- `FileDetails` (file_details.dfy): `getFileDetails` as a pure function from the
  probe outcome to a `file` record or an error.
- `Collect` (collect.dfy): the collection loop that writes each arriving chunk's
  temporary name into `fileNames[index]`. It works on an `array<string>`.
- `Workspace` (workspace.dfy): a class holding the file system (`files`, a map
  from path to bytes), the set of paths that cannot be opened for writing, and
  the log of errors sent on `errs`. Its methods `MergeFiles` and `CleanupFiles`
  are loops over this state.
- `Pipeline` (pipeline.dfy): class `Downloader` holds the mutable `-chunks`
  global. `Run` is `main` from the probe on. `DownloadFile` is `downloadFile`
  without its goroutines. The end-to-end lemmas are stated over this class's
  specification functions.

Behaviour of the code worth knowing before reading the model:

- `mergeFiles` opens the destination with `O_CREATE|O_WRONLY` and no
  `O_TRUNC`. When an older destination is longer than the merged bytes, its
  bytes beyond the merged length survive. `Workspace.Overlay` and
  `Workspace.MergeSucceeds` state this.
- A failed download still creates the destination, because `downloadFile`
  calls `mergeFiles` after the channel closes whatever happened. A chunk that
  never arrived leaves `""` in its slot. The merge creates the destination,
  copies the chunks before that slot, and then fails to open `""`.
  `Pipeline.DownloadWithMissingChunk` states this.
- `cleanupFiles` sends one error on `errs` per failed `os.Remove`. Only empty
  slots are skipped.
- `strconv.Atoi` accepts a leading `-`, so a negative Content-Length gives a
  negative `size`. The model keeps such sizes. The window properties are
  proved for `size >= 0`.
- `strconv.Atoi` reports a range error for a long string whose digits pass the
  unsigned 64-bit maximum before a bad character appears, such as twenty nines
  followed by a letter. `Decimal.AtoiOverflowFirst` and
  `Decimal.AtoiRangeBeforeSyntax` state this.
- The download goroutines run in a plain `errgroup.Group` with no derived
  context, so one failing chunk does not cancel the others. This is
  concurrency and is left out of the model.

## Model

| member | source | states |
|---|---|---|
| `Decimal.IntToString` | file.go:132 | `%d` output is non-empty, starts with '-' exactly for negative numbers, and is otherwise all digits |
| `Decimal.Atoi` | file.go:97-100 | a value is returned exactly for an optional sign plus one or more digits whose value is within the 64-bit range, and it is that value; such a string out of range is a range error; any other string is an error |
| `Decimal.AtoiShortSyntaxError` | file.go:97-100 | a string shorter than 19 bytes that is not a sign plus digits is a syntax error, never a range error |
| `Decimal.AtoiOverflowFirst` | file.go:97-100 | once the leading digits exceed the unsigned 64-bit maximum the result is a range error, whatever follows them |
| `Decimal.AtoiRangeBeforeSyntax` | file.go:97-100 | any string starting with twenty nines is a range error, even one that continues with a letter |
| `Decimal.AtoiOfIntToString` | file.go:97 | Atoi reads back every 64-bit integer `%d` prints |
| `Decimal.IntToStringInjective` | file.go:132 | different 64-bit integers print differently |
| `Decimal.AtoiExamples` | file.go:97-100 | "100", "-5" and "+7" parse to 100, -5 and 7 |
| `Decimal.AtoiSyntaxExamples` | file.go:97-100 | "abc", "", "-", "12a" and "100 " are syntax errors |
| `RangeHeader.Format` | file.go:132 | the header starts with the unit `bytes=` |
| `RangeHeader.ParseFormat` | file.go:132 | parsing `bytes=<start>-<end>` gives back `(start, end)`, negative bounds included |
| `RangeHeader.FormatInjective` | file.go:132 | two different windows never share a header |
| `RangeHeader.FormatExamples` | file.go:132 | the first, last and an empty window of a plan render as `bytes=0-11`, `bytes=84-99`, `bytes=0--1` |
| `ChunkPlan.GoMod` | main.go:55-56 | `chunkSize * N + remainder == size`; the remainder is in `[0, N)` for a non-negative size and in `(-N, 0]` for a negative one |
| `ChunkPlan.Plan` | file.go:42-49 | one window per chunk index |
| `ChunkPlan.WindowShape` | file.go:45-49 | window i ends one byte before window i+1 starts; non-last windows are `chunkSize` long; the last is `chunkSize + remainder` long |
| `ChunkPlan.PlanTiles` | main.go:55-56 | for `size >= 0` the plan starts at 0, is contiguous, ends at `size - 1`, and only the last window's length differs, by `size % N` |
| `ChunkPlan.LastWindowEnd` | file.go:47-48 | the last window ends at `size - 1` |
| `ChunkPlan.WindowsOrdered` | file.go:45-49 | a window with a smaller index lies wholly before one with a larger index |
| `ChunkPlan.OffsetCovered` | file.go:45-49 | every byte offset of the resource lies in some window |
| `ChunkPlan.OffsetInOneWindow` | file.go:45-49 | every byte offset lies in exactly one window |
| `ChunkPlan.SmallResource` | main.go:55-56 | when `size < N` every non-last window is empty and the last is `[0, size - 1]` |
| `ChunkPlan.PlanOf100In8` | main.go:55-56 | 100 bytes in 8 chunks gives `[0,11],[12,23],…,[72,83],[84,99]` |
| `FileDetails.IndexFrom` | file.go:103 | returns the first occurrence of the pattern, or none when it does not occur |
| `FileDetails.GetFileDetails` | file.go:86-124 | a record only for a 200 response whose Content-Length is a sign plus digits, and then the size is a 64-bit integer |
| `FileDetails.FileNameIsSuffixAfterFirstKey` | file.go:102-107 | the name is the whole suffix after the first `filename=` |
| `FileDetails.FileNameAbsent` | file.go:102-107 | without `filename=` the name is "" |
| `FileDetails.ProbeFailures` | file.go:87-100 | no response, a non-200 status, or a Content-Length that is missing, not a sign plus digits, or out of range gives an error and no record; a refused length is reported with Atoi's error kind |
| `FileDetails.ProbeSuccess` | file.go:97-121 | a 200 response whose Content-Length is any sign plus digits within the 64-bit range gives that size, `acceptRanges` iff Accept-Ranges is exactly "bytes", and the entity tag (canonical key "Etag") and Content-Type copied verbatim |
| `FileDetails.ExampleFileName` | file.go:102-107 | "attachment; filename=test.txt" gives "test.txt" |
| `FileDetails.ExampleFileDetails` | file_test.go:28-53 | the test's HEAD response, with the entity tag stored under "Etag" as `Header.Set` does, gives name "test.txt", size 100, etag "123456789", ranges accepted |
| `FileDetails.ExampleNonIntegerLength` | file_test.go:70-87 | Content-Length "abc" is an error |
| `Collect.Placed` | file.go:74-77 | writing the arrivals keeps the slot count |
| `Collect.PlacedSlot` | file.go:74-77 | slot k holds the name of the chunk with index k; a slot no chunk named is unchanged |
| `Collect.PlacedNames` | file.go:74-77 | each slot keeps its old value or holds the name of a chunk with that index |
| `Collect.ArrivalOrderIrrelevant` | file.go:74-77 | any reordering of the same arrivals fills the slots identically |
| `Collect.CollectNames` | file.go:71-77 | the array, freshly made with n empty slots, ends equal to the arrivals placed by index |
| `Workspace.Overlay` | file.go:161 | writing without truncation: the new data comes first, and older bytes past its end survive |
| `Workspace.WriteAfterOverlay` | file.go:181 | copying sources one after another equals writing their concatenation once |
| `Workspace.FirstMissing` | file.go:174-178 | the position of the first source that cannot be opened; all before it exist |
| `Workspace.MergedFiles` | file.go:159-186 | the merge changes no file but the destination, and creates the destination when it can be opened |
| `Workspace.JoinedIsFlatten` | file.go:174-185 | the merged bytes are the sources' contents in list order |
| `Workspace.MergeSucceeds` | file.go:174-186 | with all sources present, no error, and the destination is the concatenation laid over its old bytes (exactly the concatenation if it was empty) |
| `Workspace.MergeStopsAtFirstMissing` | file.go:174-178 | the first source that fails to open is the returned error; the destination holds only the earlier sources |
| `Workspace.MergeCannotOpenDestination` | file.go:161-164 | an unopenable destination changes nothing and returns that open error |
| `Workspace.ExampleMergeOfElevenFiles` | file_test.go:227-267 | files "0" to "10" merged into an empty destination give "012345678910" |
| `Workspace.CleanupErrorsOfDistinct` | file.go:191-200 | without repeated names, exactly one error per non-empty name that did not exist, in list order |
| `Workspace.CleanupAllPresent` | file_test.go:154-188 | when every listed file exists, cleanup sends no error |
| `Workspace.CleanupOneMissing` | file_test.go:190-225 | one non-existent name after existing ones yields exactly one error |
| `Workspace.CleanupRepeatedName` | file.go:191-200 | a name listed twice is removed once; the second attempt is one error |
| `Workspace.Workspace.MergeFiles` | file.go:159-186 | returns the merge error and leaves the files as MergedFiles says; the error log is unchanged |
| `Workspace.Workspace.CleanupFiles` | file.go:189-201 | afterwards no listed file exists and the rest are untouched; the log grows by CleanupErrors |
| `Pipeline.RequestHeaderParses` | file.go:132 | each chunk's Range header parses back to its window |
| `Pipeline.IssueRequests` | file.go:42-50 | one request per chunk index, each for the resource's URL and carrying that chunk's window |
| `Pipeline.PlannedRangesRoundTrip` | file.go:45-50 | the planned requests carry exactly the windows of `Plan` |
| `Pipeline.NoRangeSupportMeansOneRequest` | main.go:50-56 | without range support a single request asks for `bytes=0-<size-1>` |
| `Pipeline.SlotsDistinct` | file.go:74-77 | distinct chunks leave distinct names in the slots |
| `Pipeline.DownloadAssembles` | file.go:71-83 | when all chunks arrived, in any order, the destination starts with their bytes in index order, no error is sent, and every temporary file is removed |
| `Pipeline.DownloadWithMissingChunk` | file.go:71-83 | when chunk j never arrived, the destination is still created with the chunks before j, the first error is opening "", and every temporary file that arrived is removed |
| `Pipeline.ArrivalOrderChangesNothing` | file.go:74-78 | reordering the arrivals changes neither the files nor the errors |
| `Pipeline.Downloader.constructor` | flags.go:39-42 | the chunk count starts at least 1 |
| `Pipeline.Downloader.DownloadFile` | file.go:36-84 | issues the planned requests; then files and errors become FilesAfter / ErrorsAfter of the collected slots |
| `Pipeline.Downloader.Run` | main.go:39-58 | a failed probe sends its error and plans nothing; otherwise the name becomes non-empty, the chunk count falls back to 1 without range support, and the download runs with Go's split of the size |

## Left out

- HTTP: `client.Head`, `client.Do` and `http.NewRequestWithContext` are network I/O. The probe is an input record (`FileDetails.Probe`), and the requests are returned as values rather than sent.
- `saveChunk` and `io.Copy` stream the response body into a temporary file. The temporary files' contents are inputs. When `io.Copy` fails in `saveChunk`, the partly written temporary file is never reported and never removed. This is not modelled.
- Concurrency: the `errgroup` fan-out, the channel sends, the `ctx.Done()` select, and the goroutine that closes `chunks` and forwards `eg.Wait()`'s error (file.go:40-69). The chunks that arrived are an input list in arrival order. The group's error, and where it falls among the other sends on `errs`, is not modelled.
- `generateRandomFileName` depends on the clock and Go's MIME table. It becomes the non-empty `generatedName` parameter of `Run`.
- Header name canonicalisation in `net/http`: the header map is assumed to hold canonical names, and each lookup uses the canonical form of the key the code passes (`ETag` becomes `Etag`). The canonicalisation function itself is not modelled.
- The chunk window arithmetic is on unbounded integers. For sizes that Atoi accepts, the window bounds stay within the size's magnitude. Only an end bound one below the 64-bit minimum could wrap, and that case is not modelled.
- `mergeFiles`' `closers` list and the deferred `Close` calls: handles have no visible effect on file contents.
- Failures of `io.Copy` during the merge, and `os.Remove` failures other than a missing file (for example, directory permissions).
- Workspace.Workspace.MergeFiles: requires that a non-empty destination is not among its own sources. Copying a file into itself is not modelled.
- Pipeline.Downloader.DownloadFile: requires that no arriving temporary name equals the destination. `os.CreateTemp` names live in the temporary directory, and the model does not cover a chunk overwriting the destination.
- Pipeline.Downloader.Run: the same requirement on the arrivals, and it takes the arrivals as given for the effective chunk count.
- flags.go (flag parsing, usage text, build version), signal wiring, `GOMAXPROCS`, elapsed-time printing, all `fmt.Print*` output, and dummy.go.
