/**
 * Index-ordered collection (file.go:71-77): completed chunks arrive on the
 * `chunks` channel in whatever order their downloads finish, and each one is
 * written into the slot of `fileNames` named by its index.
 */
module Collect {

  /** `chunk`: what a download goroutine sends once its temporary file is written. */
  datatype Chunk = Chunk(index: int, tempFileName: string)

  /** Every arrival names one of the `n` slots (the goroutines only use indices 0..n-1). */
  predicate InRange(arrivals: seq<Chunk>, n: int) {
    forall c :: c in arrivals ==> 0 <= c.index < n
  }

  /** No index arrives with two different names (each goroutine sends at most once). */
  predicate Consistent(arrivals: seq<Chunk>) {
    forall c, d :: c in arrivals && d in arrivals && c.index == d.index ==> c.tempFileName == d.tempFileName
  }

  /** `make([]string, n)`: n empty names. */
  function Blank(n: nat): seq<string>
  {
    seq(n, _ => "")
  }

  /** The slots after writing each arrival's name at its index, first arrival first. */
  function Placed(slots: seq<string>, arrivals: seq<Chunk>): (r: seq<string>)
    requires InRange(arrivals, |slots|)
    ensures |r| == |slots|
  {
    if arrivals == [] then slots
    else
      var last := arrivals[|arrivals| - 1];
      var earlier := arrivals[..|arrivals| - 1];
      assert forall c :: c in earlier ==> c in arrivals;
      Placed(slots, earlier)[last.index := last.tempFileName]
  }

  /**
   * Slot `k` ends up holding the name of the chunk whose index is `k`, and a
   * slot no chunk named keeps what it held.
   */
  lemma {:induction false} PlacedSlot(slots: seq<string>, arrivals: seq<Chunk>, k: int)
    requires InRange(arrivals, |slots|) && Consistent(arrivals)
    requires 0 <= k < |slots|
    ensures forall c :: c in arrivals && c.index == k ==> Placed(slots, arrivals)[k] == c.tempFileName
    ensures (forall c :: c in arrivals ==> c.index != k) ==> Placed(slots, arrivals)[k] == slots[k]
  {
    if arrivals != [] {
      var last := arrivals[|arrivals| - 1];
      var earlier := arrivals[..|arrivals| - 1];
      assert arrivals == earlier + [last];
      assert forall c :: c in earlier ==> c in arrivals;
      PlacedSlot(slots, earlier, k);
    }
  }

  /** Whatever the arrivals, a slot keeps its old name or holds the name of a chunk with its index. */
  lemma {:induction false} PlacedNames(slots: seq<string>, arrivals: seq<Chunk>, k: int)
    requires InRange(arrivals, |slots|)
    requires 0 <= k < |slots|
    ensures Placed(slots, arrivals)[k] == slots[k] ||
      exists c :: c in arrivals && c.index == k && c.tempFileName == Placed(slots, arrivals)[k]
  {
    if arrivals != [] {
      var last := arrivals[|arrivals| - 1];
      var earlier := arrivals[..|arrivals| - 1];
      assert forall c :: c in earlier ==> c in arrivals;
      PlacedNames(slots, earlier, k);
    }
  }

  /**
   * The order in which chunks arrive does not matter: any rearrangement of
   * the same arrivals fills the slots identically.
   */
  lemma ArrivalOrderIrrelevant(slots: seq<string>, a1: seq<Chunk>, a2: seq<Chunk>)
    requires multiset(a1) == multiset(a2)
    requires InRange(a1, |slots|) && Consistent(a1)
    ensures InRange(a2, |slots|) && Consistent(a2)
    ensures Placed(slots, a1) == Placed(slots, a2)
  {
    assert forall c :: c in a1 <==> c in multiset(a1);
    assert forall c :: c in a2 <==> c in multiset(a2);
    forall k | 0 <= k < |slots|
      ensures Placed(slots, a1)[k] == Placed(slots, a2)[k]
    {
      PlacedSlot(slots, a1, k);
      PlacedSlot(slots, a2, k);
    }
  }

  /**
   * The collection loop: `fileNames` starts as n empty names and each arrival
   * overwrites the slot of its index.
   */
  method CollectNames(n: nat, arrivals: seq<Chunk>) returns (fileNames: array<string>)
    requires InRange(arrivals, n)
    ensures fresh(fileNames)
    ensures fileNames[..] == Placed(Blank(n), arrivals)
  {
    fileNames := new string[n](_ => "");
    assert fileNames[..] == Blank(n);
    for j := 0 to |arrivals|
      invariant fileNames[..] == Placed(Blank(n), arrivals[..j])
    {
      var chunk := arrivals[j];
      fileNames[chunk.index] := chunk.tempFileName;
      assert arrivals[..j + 1][..j] == arrivals[..j];
    }
    assert arrivals[..|arrivals|] == arrivals;
  }
}
