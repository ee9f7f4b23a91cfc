/**
 * The files the downloader touches and the errors it reports, as one object:
 * `files` maps each existing path to its bytes, `readOnly` holds the paths
 * that cannot be opened for writing, and `errs` lists, in order, the errors
 * sent on the `errs` channel. mergeFiles (file.go:159-186) and cleanupFiles
 * (file.go:189-201) are its methods.
 */
module Workspace {
  import opened Wrappers
  import opened Errors

  newtype byte = x: int | 0 <= x < 256

  type Files = map<string, seq<byte>>

  /** The contents of the named files one after another, in list order. */
  function Joined(files: Files, names: seq<string>): seq<byte>
    requires forall n :: n in names ==> n in files
  {
    if names == [] then []
    else
      var earlier := names[..|names| - 1];
      assert forall n :: n in earlier ==> n in names;
      Joined(files, earlier) + files[names[|names| - 1]]
  }

  /**
   * What a file holds after `data` is written from offset 0 without
   * truncating it: `data` first, then whatever lay beyond it before.
   */
  function Overlay(existing: seq<byte>, data: seq<byte>): (r: seq<byte>)
    ensures |r| == if |data| < |existing| then |existing| else |data|
    ensures r[..|data|] == data
    ensures forall k :: |data| <= k < |existing| ==> r[k] == existing[k]
  {
    if |data| < |existing| then data + existing[|data|..] else data
  }

  /** A write of `data` at offset `pos`, overwriting and, past the end, extending. */
  function WriteAt(content: seq<byte>, pos: nat, data: seq<byte>): seq<byte>
    requires pos <= |content|
  {
    content[..pos] + data + (if pos + |data| < |content| then content[pos + |data|..] else [])
  }

  /** Writing the sources one after another is writing their concatenation once. */
  lemma WriteAfterOverlay(existing: seq<byte>, a: seq<byte>, b: seq<byte>)
    ensures |a| <= |Overlay(existing, a)|
    ensures WriteAt(Overlay(existing, a), |a|, b) == Overlay(existing, a + b)
  {
    var o := Overlay(existing, a);
    assert o[..|a|] == a;
    if |a| + |b| < |existing| {
      assert o[|a| + |b|..] == existing[|a| + |b|..];
    }
  }

  /** The position of the first name that is not an existing file, or |names|. */
  function FirstMissing(files: Files, names: seq<string>): (j: nat)
    ensures j <= |names|
    ensures forall k :: 0 <= k < j ==> names[k] in files
    ensures j < |names| ==> names[j] !in files
  {
    if names == [] then 0
    else if names[0] !in files then 0
    else 1 + FirstMissing(files, names[1..])
  }

  /** Why os.OpenFile(dst, O_CREATE|O_WRONLY, 0644) fails, if it does. */
  function OpenWriteError(readOnly: set<string>, dst: string): Option<Error>
  {
    if dst == "" then Some(PathError(Open, dst, NotExist))
    else if dst in readOnly then Some(PathError(Open, dst, Permission))
    else None
  }

  /** The bytes `dst` held before the merge; O_CREATE makes a missing file empty. */
  function Existing(files: Files, dst: string): seq<byte>
  {
    if dst in files then files[dst] else []
  }

  /**
   * The files after mergeFiles(dst, src): unchanged when dst cannot be
   * opened; otherwise dst holds the sources up to the first that cannot be
   * opened, laid over its old contents.
   */
  function MergedFiles(files: Files, readOnly: set<string>, dst: string, src: seq<string>): (r: Files)
    ensures forall n :: n != dst ==> (n in r <==> n in files)
    ensures forall n :: n != dst && n in r ==> r[n] == files[n]
    ensures OpenWriteError(readOnly, dst).None? ==> dst in r
  {
    if OpenWriteError(readOnly, dst).Some? then files
    else
      var j := FirstMissing(files, src);
      files[dst := Overlay(Existing(files, dst), Joined(files, src[..j]))]
  }

  /** The error mergeFiles(dst, src) returns: the first open that fails. */
  function MergeError(files: Files, readOnly: set<string>, dst: string, src: seq<string>): Option<Error>
  {
    if OpenWriteError(readOnly, dst).Some? then OpenWriteError(readOnly, dst)
    else
      var j := FirstMissing(files, src);
      if j < |src| then Some(PathError(Open, src[j], NotExist)) else None
  }

  function NameSet(names: seq<string>): set<string> {
    set n | n in names
  }

  /**
   * The errors cleanupFiles(names) sends: one per non-empty name that is no
   * longer there when its turn comes (never existed, or already removed by
   * an earlier entry of the list).
   */
  function CleanupErrors(present: set<string>, names: seq<string>): seq<Error>
  {
    if names == [] then []
    else
      var name := names[|names| - 1];
      var earlier := names[..|names| - 1];
      CleanupErrors(present, earlier) +
      if name == "" || (name in present && name !in earlier) then [] else [PathError(Remove, name, NotExist)]
  }

  /** The pieces one after another. */
  function Flatten(parts: seq<seq<byte>>): seq<byte>
  {
    if parts == [] then [] else Flatten(parts[..|parts| - 1]) + parts[|parts| - 1]
  }

  /** Joined reads each listed file in turn. */
  lemma {:induction false} JoinedIsFlatten(files: Files, names: seq<string>, parts: seq<seq<byte>>)
    requires |parts| == |names|
    requires forall k :: 0 <= k < |names| ==> names[k] in files && files[names[k]] == parts[k]
    ensures forall n :: n in names ==> n in files
    ensures Joined(files, names) == Flatten(parts)
  {
    if names != [] {
      JoinedIsFlatten(files, names[..|names| - 1], parts[..|parts| - 1]);
    }
  }

  /**
   * When dst can be opened and every source exists, mergeFiles succeeds and
   * dst begins with the sources' contents in list order; the bytes an older,
   * longer dst had past that point are still there, and a new or empty dst
   * holds exactly the concatenation.
   */
  lemma MergeSucceeds(files: Files, readOnly: set<string>, dst: string, src: seq<string>)
    requires OpenWriteError(readOnly, dst).None?
    requires forall n :: n in src ==> n in files
    ensures MergeError(files, readOnly, dst, src).None?
    ensures MergedFiles(files, readOnly, dst, src)[dst] == Overlay(Existing(files, dst), Joined(files, src))
    ensures Existing(files, dst) == [] ==> MergedFiles(files, readOnly, dst, src)[dst] == Joined(files, src)
  {
    assert forall k :: 0 <= k < |src| ==> src[k] in files;
    assert src[..|src|] == src;
  }

  /**
   * At the first source that cannot be opened mergeFiles returns that open
   * error; dst then holds only the sources before it, laid over its old bytes.
   */
  lemma MergeStopsAtFirstMissing(files: Files, readOnly: set<string>, dst: string, src: seq<string>, j: nat)
    requires OpenWriteError(readOnly, dst).None?
    requires j < |src| && src[j] !in files
    requires forall k :: 0 <= k < j ==> src[k] in files
    ensures MergeError(files, readOnly, dst, src) == Some(PathError(Open, src[j], NotExist))
    ensures MergedFiles(files, readOnly, dst, src)[dst] == Overlay(Existing(files, dst), Joined(files, src[..j]))
  {
  }

  /** When dst cannot be opened nothing is written and that open error is returned. */
  lemma MergeCannotOpenDestination(files: Files, readOnly: set<string>, dst: string, src: seq<string>)
    requires dst == "" || dst in readOnly
    ensures MergedFiles(files, readOnly, dst, src) == files
    ensures MergeError(files, readOnly, dst, src) ==
      Some(PathError(Open, dst, if dst == "" then NotExist else Permission))
  {
  }

  /** The ASCII digits "0" to "10", the contents TestMergeFiles writes. */
  const DigitFiles: seq<seq<byte>> := [[48], [49], [50], [51], [52], [53], [54], [55], [56], [57], [49, 48]]

  lemma FlattenDigitFiles()
    ensures Flatten(DigitFiles) == [48, 49, 50, 51, 52, 53, 54, 55, 56, 57, 49, 48]
  {
    var p := DigitFiles;
    assert p[..0] == [];
    assert Flatten(p[..1]) == [48] by { assert p[..1][..0] == p[..0]; }
    assert Flatten(p[..2]) == [48, 49] by { assert p[..2][..1] == p[..1]; }
    assert Flatten(p[..3]) == [48, 49, 50] by { assert p[..3][..2] == p[..2]; }
    assert Flatten(p[..4]) == [48, 49, 50, 51] by { assert p[..4][..3] == p[..3]; }
    assert Flatten(p[..5]) == [48, 49, 50, 51, 52] by { assert p[..5][..4] == p[..4]; }
    assert Flatten(p[..6]) == [48, 49, 50, 51, 52, 53] by { assert p[..6][..5] == p[..5]; }
    assert Flatten(p[..7]) == [48, 49, 50, 51, 52, 53, 54] by { assert p[..7][..6] == p[..6]; }
    assert Flatten(p[..8]) == [48, 49, 50, 51, 52, 53, 54, 55] by { assert p[..8][..7] == p[..7]; }
    assert Flatten(p[..9]) == [48, 49, 50, 51, 52, 53, 54, 55, 56] by { assert p[..9][..8] == p[..8]; }
    assert Flatten(p[..10]) == [48, 49, 50, 51, 52, 53, 54, 55, 56, 57] by { assert p[..10][..9] == p[..9]; }
    assert p[..11] == p;
    assert p[..11][..10] == p[..10];
  }

  /**
   * TestMergeFiles (file_test.go:227-267): eleven files holding "0" to "10",
   * merged into an existing empty destination, give "012345678910".
   */
  lemma ExampleMergeOfElevenFiles(files: Files, src: seq<string>, dst: string)
    requires |src| == 11 && dst != "" && dst !in src
    requires forall k :: 0 <= k < 11 ==> src[k] in files && files[src[k]] == DigitFiles[k]
    requires dst in files && files[dst] == []
    ensures MergeError(files, {}, dst, src).None?
    ensures MergedFiles(files, {}, dst, src)[dst] == [48, 49, 50, 51, 52, 53, 54, 55, 56, 57, 49, 48]
  {
    JoinedIsFlatten(files, src, DigitFiles);
    FlattenDigitFiles();
    MergeSucceeds(files, {}, dst, src);
  }

  /** No non-empty name occurs twice. */
  predicate DistinctNames(names: seq<string>) {
    forall i, j :: 0 <= i < j < |names| && names[i] != "" ==> names[i] != names[j]
  }

  /** One removal error per non-empty name that is not present, in list order. */
  function MissingErrors(present: set<string>, names: seq<string>): seq<Error>
  {
    if names == [] then []
    else
      var name := names[|names| - 1];
      MissingErrors(present, names[..|names| - 1]) +
      if name == "" || name in present then [] else [PathError(Remove, name, NotExist)]
  }

  /**
   * Without repeated names, cleanup reports exactly the names that did not
   * exist, each once, in order, and nothing for the ones it removed.
   */
  lemma {:induction false} CleanupErrorsOfDistinct(present: set<string>, names: seq<string>)
    requires DistinctNames(names)
    ensures CleanupErrors(present, names) == MissingErrors(present, names)
  {
    if names != [] {
      var earlier := names[..|names| - 1];
      var name := names[|names| - 1];
      assert DistinctNames(earlier);
      assert forall i :: 0 <= i < |earlier| ==> earlier[i] == names[i];
      assert name != "" ==> name !in earlier;
      CleanupErrorsOfDistinct(present, earlier);
    }
  }

  /** TestCleanupFilesSuccess (file_test.go:154-188): all files exist, no error is sent. */
  lemma {:induction false} CleanupAllPresent(present: set<string>, names: seq<string>)
    requires DistinctNames(names)
    requires forall n :: n in names && n != "" ==> n in present
    ensures CleanupErrors(present, names) == []
  {
    CleanupErrorsOfDistinct(present, names);
    MissingNone(present, names);
  }

  lemma {:induction false} MissingNone(present: set<string>, names: seq<string>)
    requires forall n :: n in names && n != "" ==> n in present
    ensures MissingErrors(present, names) == []
  {
    if names != [] {
      var earlier := names[..|names| - 1];
      assert forall n :: n in earlier ==> n in names;
      MissingNone(present, earlier);
    }
  }

  /**
   * TestCleanupFilesError (file_test.go:190-225): a name that does not exist,
   * after existing ones, yields exactly one error and does not stop the others.
   */
  lemma CleanupOneMissing(present: set<string>, names: seq<string>, missing: string)
    requires DistinctNames(names)
    requires forall n :: n in names && n != "" ==> n in present
    requires missing != "" && missing !in present
    ensures CleanupErrors(present, names + [missing]) == [PathError(Remove, missing, NotExist)]
  {
    assert (names + [missing])[..|names|] == names;
    CleanupAllPresent(present, names);
  }

  /** A name listed twice is removed once; the second attempt reports it missing. */
  lemma CleanupRepeatedName(present: set<string>, name: string)
    requires name != "" && name in present
    ensures CleanupErrors(present, [name, name]) == [PathError(Remove, name, NotExist)]
  {
    assert [name, name][..1] == [name];
    assert [name][..0] == [];
    assert CleanupErrors(present, [name]) == [];
  }

  class Workspace {
    var files: Files
    var readOnly: set<string>
    var errs: seq<Error>

    /** The empty path never names a file. */
    ghost predicate Valid()
      reads this
    {
      "" !in files
    }

    constructor (files: Files, readOnly: set<string>)
      requires "" !in files
      ensures Valid()
      ensures this.files == files && this.readOnly == readOnly && errs == []
    {
      this.files := files;
      this.readOnly := readOnly;
      errs := [];
    }

    /** `errs <- e`. */
    method Send(e: Error)
      modifies this
      ensures files == old(files) && readOnly == old(readOnly)
      ensures errs == old(errs) + [e]
    {
      errs := errs + [e];
    }

    /**
     * mergeFiles: opens dst for writing without truncation, then copies each
     * source into it in list order, returning at the first source that cannot
     * be opened. The sources are never modified.
     */
    method MergeFiles(dst: string, src: seq<string>) returns (err: Option<Error>)
      requires Valid()
      requires dst != "" ==> dst !in src
      modifies this
      ensures Valid()
      ensures readOnly == old(readOnly) && errs == old(errs)
      ensures err == MergeError(old(files), old(readOnly), dst, src)
      ensures files == MergedFiles(old(files), old(readOnly), dst, src)
    {
      var openErr := OpenWriteError(readOnly, dst);
      if openErr.Some? {
        return openErr;
      }
      var existing := Existing(files, dst);
      files := files[dst := existing];
      var pos := 0;
      var i := 0;
      while i < |src|
        invariant i <= |src|
        invariant forall k :: 0 <= k < i ==> src[k] in old(files)
        invariant files == old(files)[dst := Overlay(existing, Joined(old(files), src[..i]))]
        invariant pos == |Joined(old(files), src[..i])|
        invariant readOnly == old(readOnly) && errs == old(errs)
      {
        var name := src[i];
        if name !in files {
          assert FirstMissing(old(files), src) == i;
          return Some(PathError(Open, name, NotExist));
        }
        var data := files[name];
        WriteAfterOverlay(existing, Joined(old(files), src[..i]), data);
        files := files[dst := WriteAt(files[dst], pos, data)];
        pos := pos + |data|;
        i := i + 1;
        assert src[..i][..i - 1] == src[..i - 1];
      }
      assert src[..i] == src;
      err := None;
    }

    /**
     * cleanupFiles: skips empty names, tries to remove every other one in
     * order, and sends one error for each removal that fails, without
     * stopping.
     */
    method CleanupFiles(names: seq<string>)
      requires Valid()
      modifies this
      ensures Valid() && readOnly == old(readOnly)
      ensures files == old(files) - NameSet(names)
      ensures errs == old(errs) + CleanupErrors(old(files).Keys, names)
    {
      for i := 0 to |names|
        invariant Valid() && readOnly == old(readOnly)
        invariant files == old(files) - NameSet(names[..i])
        invariant errs == old(errs) + CleanupErrors(old(files).Keys, names[..i])
      {
        var name := names[i];
        assert names[..i + 1][..i] == names[..i];
        assert NameSet(names[..i + 1]) == NameSet(names[..i]) + {name};
        if name == "" {
          continue;
        }
        if name in files {
          files := files - {name};
        } else {
          errs := errs + [PathError(Remove, name, NotExist)];
        }
      }
      assert names[..|names|] == names;
    }
  }
}
