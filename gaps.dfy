/** The gap-size calculator `gaps` of src/lib.rs: how many spaces go after
    each word of a line so that the line is stretched towards the target
    width. */
module Gaps {

  /** `body` spaces follow every word but the last two, `tail` spaces follow
      the last-but-one word (or the only word of a one-word line). */
  datatype GapInfo = GapInfo(bodyGapsSize: nat, tailGapSize: nat)

  /** `gaps(n_tokens, total_len, line_width)`. The source subtracts
      `line_width - total_len` as unsigned numbers, so a line with words must
      not be longer than the width. */
  function Gaps(nTokens: nat, totalLen: nat, lineWidth: nat): (g: GapInfo)
    requires nTokens >= 1 ==> totalLen <= lineWidth
  {
    if nTokens == 0 then GapInfo(0, 0)
    else if nTokens == 1 then GapInfo(0, lineWidth - totalLen)
    else
      var nGaps := nTokens - 1;
      var freeSpace := lineWidth - totalLen;
      var remainder := freeSpace % nGaps;
      var div := if nGaps > 1 && remainder > 0 then nGaps - 1 else nGaps;
      var maxGap := (freeSpace - remainder) / div;
      var lastGap := if remainder > 0 then remainder else maxGap;
      GapInfo(maxGap, lastGap)
  }

  /** The number of spaces a line of `n` words receives when the rendering
      loop of `transform` places the gaps `g`. */
  function Padding(n: nat, g: GapInfo): nat
  {
    if n == 0 then 0
    else if n == 1 then g.tailGapSize
    else g.bodyGapsSize * (n - 2) + g.tailGapSize
  }

  /** When the gaps use up all the free space of a line of `n` words of
      total length `totalLen`: one or two words, a free space that the gaps
      divide evenly, or a surplus that leaves the rest divisible by the
      smaller divisor. */
  predicate FillsLine(n: nat, totalLen: nat, lineWidth: nat)
  {
    var freeSpace := lineWidth - totalLen;
    n <= 2
    || freeSpace % (n - 1) == 0
    || (freeSpace - freeSpace % (n - 1)) % (n - 2) == 0
  }

  /** The two edge cases: no words give no gaps, and a lone word is followed
      by all of the free space. */
  lemma GapsEdgeCases(totalLen: nat, lineWidth: nat)
    requires totalLen <= lineWidth
    ensures Gaps(0, totalLen, lineWidth) == GapInfo(0, 0)
    ensures Gaps(1, totalLen, lineWidth) == GapInfo(0, lineWidth - totalLen)
  {
  }

  /** The gaps never overflow the line, and they fill it exactly when
      FillsLine holds; with no remainder every gap is the same size. */
  lemma GapsTotal(n: nat, totalLen: nat, lineWidth: nat)
    requires n >= 1 && totalLen <= lineWidth
    ensures Padding(n, Gaps(n, totalLen, lineWidth)) <= lineWidth - totalLen
    ensures Padding(n, Gaps(n, totalLen, lineWidth)) == lineWidth - totalLen
            <==> FillsLine(n, totalLen, lineWidth)
    ensures n >= 2 && (lineWidth - totalLen) % (n - 1) == 0 ==>
              var g := Gaps(n, totalLen, lineWidth);
              g.bodyGapsSize == g.tailGapSize == (lineWidth - totalLen) / (n - 1)
  {
    if n >= 2 {
      var nGaps := n - 1;
      var freeSpace := lineWidth - totalLen;
      if freeSpace % nGaps > 0 {
        assert nGaps > 1;
        UnevenPadding(freeSpace, nGaps);
      } else {
        EvenPadding(freeSpace, nGaps);
      }
    }
  }

  /** With no remainder, `d` gaps of the quotient make up the free space. */
  lemma EvenPadding(f: nat, d: nat)
    requires d >= 1 && f % d == 0
    ensures (f / d) * (d - 1) + f / d == f
  {
    var q := f / d;
    assert f == d * q + f % d;
    assert q * (d - 1) + q == q * d;
  }

  /** With a remainder, `d - 1` gaps of the quotient by `d - 1` and a last
      gap of the remainder fall short of the free space by the second
      remainder. */
  lemma UnevenPadding(f: nat, d: nat)
    requires d >= 2 && f % d > 0
    ensures var r := f % d;
            r <= f && ((f - r) / (d - 1)) * (d - 1) + r == f - (f - r) % (d - 1)
  {
    var r := f % d;
    assert f == d * (f / d) + r;
    var x := f - r;
    var q := x / (d - 1);
    assert x == (d - 1) * q + x % (d - 1);
  }

  /** When the line holds at least one space per gap (as the fitter
      guarantees), no gap is empty, so the words stay apart. */
  lemma GapsAtLeastOne(n: nat, totalLen: nat, lineWidth: nat)
    requires n >= 2 && totalLen + (n - 1) <= lineWidth
    ensures Gaps(n, totalLen, lineWidth).bodyGapsSize >= 1
    ensures Gaps(n, totalLen, lineWidth).tailGapSize >= 1
  {
    var nGaps := n - 1;
    var freeSpace := lineWidth - totalLen;
    var remainder := freeSpace % nGaps;
    QuotientAtLeastOne(freeSpace, nGaps);
    if remainder > 0 {
      assert nGaps > 1;
      QuotientAtLeastOne(freeSpace - remainder, nGaps - 1);
    }
  }

  /** Dividing a number by a divisor no larger than it leaves at least one,
      and the number with its remainder taken away is still that large. */
  lemma QuotientAtLeastOne(x: nat, d: nat)
    requires 1 <= d <= x
    ensures x / d >= 1 && x - x % d >= d
  {
    var q := x / d;
    assert x == d * q + x % d;
    if q >= 1 {
      assert d * q >= d * 1;
    }
  }
}
