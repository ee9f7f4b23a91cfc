/**
 * The `Range` request header each chunk download sends (file.go:132):
 * `bytes=<start>-<end>` with both bounds printed by `%d`. This is the
 * byte-range-spec of section 14.1.2 of RFC 9110 with a single range. The
 * downloader prints whatever integers it computed, so a chunk planned empty
 * (end = start - 1, possibly end = -1) yields a header such as `bytes=0--1`,
 * which the parser below reads back as well.
 */
module RangeHeader {
  import opened Wrappers
  import opened Decimal

  const Unit: string := "bytes="

  /** `fmt.Sprintf("bytes=%d-%d", start, end)`. */
  function Format(start: int, end: int): (h: string)
    ensures |h| > |Unit| && h[..|Unit|] == Unit
  {
    Unit + IntToString(start) + "-" + IntToString(end)
  }

  /** A bound as `%d` prints it: digits, optionally after a single '-'. */
  function ParseBound(s: string): (r: Option<int>)
    ensures r.Some? ==> |s| >= 1
  {
    if |s| >= 2 && s[0] == '-' && AllDigits(s[1..]) then Some(-(DigitsValue(s[1..]) as int))
    else if |s| >= 1 && AllDigits(s) then Some(DigitsValue(s))
    else None
  }

  /** Index of the first '-' in `s` at or after `k`, or |s| if there is none. */
  function DashFrom(s: string, k: nat): (j: nat)
    requires k <= |s|
    ensures k <= j <= |s|
    ensures j < |s| ==> s[j] == '-'
    ensures forall m :: k <= m < j ==> s[m] != '-'
    decreases |s| - k
  {
    if k == |s| then |s| else if s[k] == '-' then k else DashFrom(s, k + 1)
  }

  /**
   * Reads a header back into its two inclusive bounds. The separator is the
   * first '-' after the first bound's own sign.
   */
  function Parse(h: string): (r: Option<(int, int)>)
  {
    if |h| < |Unit| || h[..|Unit|] != Unit then None
    else
      var rangeSet := h[|Unit|..];
      var sign := if |rangeSet| > 0 && rangeSet[0] == '-' then 1 else 0;
      var j := DashFrom(rangeSet, sign);
      if j == |rangeSet| then None
      else
        match (ParseBound(rangeSet[..j]), ParseBound(rangeSet[j + 1..]))
        case (Some(start), Some(end)) => Some((start, end))
        case _ => None
  }

  lemma ParseBoundOfIntToString(i: int)
    ensures ParseBound(IntToString(i)) == Some(i)
  {
    var s := IntToString(i);
    if i < 0 {
      assert s[1..] == NatToString(-i);
      DigitsValueOfNatToString(-i);
    } else {
      DigitsValueOfNatToString(i);
    }
  }

  lemma {:induction false} DashFromSkipsBound(a: string, b: string, k: nat)
    requires k <= |a|
    requires forall m :: k <= m < |a| ==> a[m] != '-'
    ensures DashFrom(a + "-" + b, k) == |a|
    decreases |a| - k
  {
    var s := a + "-" + b;
    if k < |a| {
      assert s[k] == a[k];
      DashFromSkipsBound(a, b, k + 1);
    } else {
      assert s[k] == '-';
    }
  }

  /** The magnitude of a printed bound holds no '-'. */
  lemma NoDashAfterSign(i: int)
    ensures forall m :: (if i < 0 then 1 else 0) <= m < |IntToString(i)| ==> IntToString(i)[m] != '-'
  {
    var a := IntToString(i);
    if i < 0 {
      forall m | 1 <= m < |a| ensures a[m] != '-' {
        assert a[m] == a[1..][m - 1];
      }
    }
  }

  /** A header made of a unit, a bound, a '-' and a bound splits at that '-'. */
  lemma ParseParts(h: string, a: string, b: string, x: int, y: int)
    requires h == Unit + a + "-" + b
    requires forall m :: (if |a| > 0 && a[0] == '-' then 1 else 0) <= m < |a| ==> a[m] != '-'
    requires ParseBound(a) == Some(x) && ParseBound(b) == Some(y)
    ensures Parse(h) == Some((x, y))
  {
    var rest := h[|Unit|..];
    assert h[..|Unit|] == Unit;
    assert rest == a + "-" + b;
    var sign := if |a| > 0 && a[0] == '-' then 1 else 0;
    assert sign == if |rest| > 0 && rest[0] == '-' then 1 else 0;
    DashFromSkipsBound(a, b, sign);
    assert rest[..|a|] == a;
    assert rest[|a| + 1..] == b;
  }

  /** The header of every chunk window parses back to that window. */
  lemma ParseFormat(start: int, end: int)
    ensures Parse(Format(start, end)) == Some((start, end))
  {
    var a, b := IntToString(start), IntToString(end);
    NoDashAfterSign(start);
    ParseBoundOfIntToString(start);
    ParseBoundOfIntToString(end);
    ParseParts(Format(start, end), a, b, start, end);
  }

  /** Two different windows never produce the same header. */
  lemma FormatInjective(s1: int, e1: int, s2: int, e2: int)
    requires Format(s1, e1) == Format(s2, e2)
    ensures s1 == s2 && e1 == e2
  {
    ParseFormat(s1, e1);
    ParseFormat(s2, e2);
  }

  /** The headers of the plan `size = 100`, eight chunks: first, last, and an empty window. */
  lemma FormatExamples()
    ensures Format(0, 11) == "bytes=0-11"
    ensures Format(84, 99) == "bytes=84-99"
    ensures Format(0, -1) == "bytes=0--1"
  {
  }
}
