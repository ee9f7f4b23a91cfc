/**
 * Chunk planning: main.go:55-56 splits the resource size over the chunk count
 * with Go's truncating `/` and `%`, and each download goroutine
 * (file.go:45-49) turns its index into an inclusive byte window, the last
 * window absorbing the remainder.
 */
module ChunkPlan {

  /** Go's `a / b` on `int`: the quotient truncated toward zero. */
  function GoDiv(a: int, b: int): int
    requires b >= 1
  {
    if a >= 0 then a / b else -((-a) / b)
  }

  /** Go's `a % b` on `int`: the remainder left by GoDiv, with the sign of `a`. */
  function GoMod(a: int, b: int): (r: int)
    requires b >= 1
    ensures GoDiv(a, b) * b + r == a
    ensures a >= 0 ==> 0 <= r < b
    ensures a < 0 ==> -b < r <= 0
  {
    if a >= 0 then a % b else -((-a) % b)
  }

  /** An inclusive byte window `[start, end]`; it is empty when end < start. */
  datatype Window = Window(start: int, end: int) {
    function Length(): int {
      end - start + 1
    }
  }

  /** The window chunk `index` of `n` asks for (file.go:45-49). */
  function WindowAt(index: int, chunkSize: int, remainder: int, n: int): Window
  {
    var start := index * chunkSize;
    var end := start + chunkSize - 1;
    Window(start, if index == n - 1 then end + remainder else end)
  }

  /** The windows of all `n` chunks of a resource of `size` bytes, in index order. */
  function Plan(size: int, n: int): (p: seq<Window>)
    requires n >= 1
    ensures |p| == n
  {
    seq(n, i requires 0 <= i < n => WindowAt(i, GoDiv(size, n), GoMod(size, n), n))
  }

  lemma MulStep(i: int, c: int)
    ensures (i + 1) * c == i * c + c
  {
  }

  lemma MulMonotone(i: int, j: int, c: int)
    requires i <= j && c >= 0
    ensures i * c <= j * c
  {
  }

  /**
   * Each window ends just before the next one starts, every window but the
   * last is `chunkSize` long, and the last is `chunkSize + remainder` long.
   */
  lemma WindowShape(chunkSize: int, remainder: int, n: int, i: int)
    requires 0 <= i < n
    ensures i < n - 1 ==> WindowAt(i, chunkSize, remainder, n).end + 1 == WindowAt(i + 1, chunkSize, remainder, n).start
    ensures i < n - 1 ==> WindowAt(i, chunkSize, remainder, n).Length() == chunkSize
    ensures i == n - 1 ==> WindowAt(i, chunkSize, remainder, n).Length() == chunkSize + remainder
  {
    MulStep(i, chunkSize);
  }

  /**
   * For a non-negative size the plan tiles `[0, size - 1]`: it starts at 0,
   * consecutive windows touch, the last ends at `size - 1`, and only the last
   * window differs in length from `size / n`, by `size % n`.
   */
  lemma PlanTiles(size: int, n: int)
    requires size >= 0 && n >= 1
    ensures Plan(size, n)[0].start == 0
    ensures Plan(size, n)[n - 1].end == size - 1
    ensures forall i :: 0 <= i < n - 1 ==> Plan(size, n)[i].end + 1 == Plan(size, n)[i + 1].start
    ensures forall i :: 0 <= i < n - 1 ==> Plan(size, n)[i].Length() == size / n
    ensures Plan(size, n)[n - 1].Length() == size / n + size % n
  {
    var p, c, r := Plan(size, n), GoDiv(size, n), GoMod(size, n);
    forall i | 0 <= i < n - 1
      ensures p[i].end + 1 == p[i + 1].start && p[i].Length() == c
    {
      WindowShape(c, r, n, i);
    }
    WindowShape(c, r, n, n - 1);
    MulStep(n - 1, c);
  }

  /** Windows with smaller indices lie wholly before windows with larger ones. */
  lemma WindowsOrdered(size: int, n: int, i: int, j: int)
    requires size >= 0 && n >= 1
    requires 0 <= i < j < n
    ensures Plan(size, n)[i].end < Plan(size, n)[j].start
  {
    var c := GoDiv(size, n);
    MulStep(i, c);
    MulMonotone(i + 1, j, c);
  }

  predicate Covers(w: Window, o: int) {
    w.start <= o <= w.end
  }

  lemma DivBounds(o: int, c: int)
    requires o >= 0 && c > 0
    ensures (o / c) * c <= o < (o / c) * c + c
  {
  }

  /** The last window ends at `size - 1`. */
  lemma LastWindowEnd(size: int, n: int)
    requires n >= 1
    ensures Plan(size, n)[n - 1].end == size - 1
  {
    var c, r := GoDiv(size, n), GoMod(size, n);
    MulStep(n - 1, c);
    assert (n - 1 + 1) * c == n * c;
    assert c * n == n * c;
  }

  lemma CoveredByLast(size: int, n: int, o: int)
    requires size >= 0 && n >= 1
    requires 0 <= o < size
    requires GoDiv(size, n) == 0 || (GoDiv(size, n) > 0 && o / GoDiv(size, n) >= n - 1)
    ensures Covers(Plan(size, n)[n - 1], o)
  {
    var c := GoDiv(size, n);
    LastWindowEnd(size, n);
    assert Plan(size, n)[n - 1].start == (n - 1) * c;
    if c > 0 {
      DivBounds(o, c);
      MulMonotone(n - 1, o / c, c);
    }
  }

  lemma CoveredByInner(size: int, n: int, o: int)
    requires size >= 0 && n >= 1
    requires 0 <= o < size
    requires GoDiv(size, n) > 0 && o / GoDiv(size, n) < n - 1
    ensures Covers(Plan(size, n)[o / GoDiv(size, n)], o)
  {
    var c := GoDiv(size, n);
    var q := o / c;
    DivBounds(o, c);
    assert Plan(size, n)[q] == Window(q * c, q * c + c - 1);
  }

  /** Every byte of the resource lies in some window... */
  lemma OffsetCovered(size: int, n: int, o: int) returns (i: int)
    requires size >= 0 && n >= 1
    requires 0 <= o < size
    ensures 0 <= i < n && Covers(Plan(size, n)[i], o)
  {
    var c := GoDiv(size, n);
    if c > 0 && o / c < n - 1 {
      i := o / c;
      CoveredByInner(size, n, o);
    } else {
      i := n - 1;
      CoveredByLast(size, n, o);
    }
  }

  /** ...and in only one. */
  lemma OffsetInOneWindow(size: int, n: int, o: int)
    requires size >= 0 && n >= 1
    requires 0 <= o < size
    ensures exists i :: 0 <= i < n && Covers(Plan(size, n)[i], o)
    ensures forall i, j ::
      (0 <= i < n && 0 <= j < n && Covers(Plan(size, n)[i], o) && Covers(Plan(size, n)[j], o)) ==> i == j
  {
    var k := OffsetCovered(size, n, o);
    var p := Plan(size, n);
    forall i, j | 0 <= i < n && 0 <= j < n && Covers(p[i], o) && Covers(p[j], o)
      ensures i == j
    {
      if i < j {
        WindowsOrdered(size, n, i, j);
      } else if j < i {
        WindowsOrdered(size, n, j, i);
      }
    }
  }

  lemma ZeroSizeWindow(i: int, remainder: int, n: int)
    ensures WindowAt(i, 0, remainder, n) == if i == n - 1 then Window(0, remainder - 1) else Window(0, -1)
  {
    assert i * 0 == 0;
  }

  lemma SmallQuotient(size: int, n: int)
    requires 0 <= size < n
    ensures GoDiv(size, n) == 0 && GoMod(size, n) == size
  {
    assert size / n == 0;
  }

  lemma SmallWindow(size: int, n: int, i: int)
    requires 0 <= size < n && 0 <= i < n
    ensures Plan(size, n)[i] == if i == n - 1 then Window(0, size - 1) else Window(0, -1)
  {
    SmallQuotient(size, n);
    assert Plan(size, n)[i] == WindowAt(i, 0, size, n);
    ZeroSizeWindow(i, size, n);
  }

  /** A resource smaller than the chunk count: every window but the last is empty. */
  lemma SmallResource(size: int, n: int)
    requires 0 <= size < n
    ensures forall i :: 0 <= i < n - 1 ==> Plan(size, n)[i] == Window(0, -1)
    ensures Plan(size, n)[n - 1] == Window(0, size - 1)
  {
    forall i | 0 <= i < n - 1
      ensures Plan(size, n)[i] == Window(0, -1)
    {
      SmallWindow(size, n, i);
    }
    SmallWindow(size, n, n - 1);
  }

  /** 100 bytes in 8 chunks: seven 12-byte windows and a last one of 16. */
  lemma PlanOf100In8()
    ensures Plan(100, 8) == [Window(0, 11), Window(12, 23), Window(24, 35), Window(36, 47),
                             Window(48, 59), Window(60, 71), Window(72, 83), Window(84, 99)]
  {
    assert GoDiv(100, 8) == 12 && GoMod(100, 8) == 4;
  }
}
