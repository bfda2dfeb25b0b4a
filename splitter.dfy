/** The hard splitter `split_manually` of src/lib.rs: a token longer than a
    line is cut into lines of `lineWidth` codepoints, the last one padded
    with spaces. */
module Splitter {
  import opened Text

  function Min(a: nat, b: nat): nat
  {
    if a < b then a else b
  }

  /** The lines the splitter makes of `t`: each takes the next `lineWidth`
      codepoints, and a last, shorter piece is padded with spaces to the
      width. */
  function Chunks(t: seq<char>, lineWidth: nat): (cs: seq<seq<char>>)
    requires lineWidth >= 1 || t == []
    ensures cs == [] <==> t == []
    decreases |t|
  {
    if t == [] then []
    else if |t| <= lineWidth then [t + Spaces(lineWidth - |t|)]
    else [t[..lineWidth]] + Chunks(t[lineWidth..], lineWidth)
  }

  /** One round of the splitter: the first chunk is the next
      min(|t|, lineWidth) codepoints, padded when short. */
  lemma ChunksCons(t: seq<char>, lineWidth: nat)
    requires lineWidth >= 1 && t != []
    ensures var available := Min(|t|, lineWidth);
            Chunks(t, lineWidth)
            == [t[..available] + Spaces(lineWidth - available)] + Chunks(t[available..], lineWidth)
  {
    if |t| <= lineWidth {
      assert t[..|t|] == t;
      assert t[|t|..] == [];
    } else {
      assert Spaces(0) == [];
      assert t[..lineWidth] + Spaces(0) == t[..lineWidth];
    }
  }

  /** Every chunk is exactly one line wide. */
  lemma {:induction false} ChunksWidth(t: seq<char>, lineWidth: nat)
    requires lineWidth >= 1
    ensures forall i :: 0 <= i < |Chunks(t, lineWidth)| ==> |Chunks(t, lineWidth)[i]| == lineWidth
    decreases |t|
  {
    if |t| > lineWidth {
      var cs := Chunks(t, lineWidth);
      ChunksWidth(t[lineWidth..], lineWidth);
      assert forall i :: 1 <= i < |cs| ==> cs[i] == Chunks(t[lineWidth..], lineWidth)[i - 1];
    }
  }

  /** There are just enough chunks to hold `t`. */
  lemma {:induction false} ChunksBounds(t: seq<char>, lineWidth: nat)
    requires lineWidth >= 1
    ensures (|Chunks(t, lineWidth)| - 1) * lineWidth < |t| <= |Chunks(t, lineWidth)| * lineWidth
    decreases |t|
  {
    if |t| > lineWidth {
      var n := |Chunks(t[lineWidth..], lineWidth)|;
      ChunksBounds(t[lineWidth..], lineWidth);
      assert |Chunks(t, lineWidth)| == n + 1;
      MulSucc(n, lineWidth);
      MulSucc(n - 1, lineWidth);
    }
  }

  /** Together the chunks are `t` followed by the padding. */
  lemma {:induction false} ChunksConcat(t: seq<char>, lineWidth: nat)
    requires lineWidth >= 1
    ensures |t| <= |Chunks(t, lineWidth)| * lineWidth
    ensures Concat(Chunks(t, lineWidth)) == t + Spaces(|Chunks(t, lineWidth)| * lineWidth - |t|)
    decreases |t|
  {
    ChunksBounds(t, lineWidth);
    var cs := Chunks(t, lineWidth);
    if t == [] {
    } else if |t| <= lineWidth {
      assert cs[1..] == [];
      assert Concat(cs) == t + Spaces(lineWidth - |t|) + Concat([]);
    } else {
      var rest := Chunks(t[lineWidth..], lineWidth);
      ChunksConcat(t[lineWidth..], lineWidth);
      MulSucc(|rest|, lineWidth);
      assert cs[1..] == rest;
      var pad := Spaces(|cs| * lineWidth - |t|);
      assert Concat(cs) == t[..lineWidth] + (t[lineWidth..] + pad);
      AppendAssoc(t[..lineWidth], t[lineWidth..], pad);
      assert t == t[..lineWidth] + t[lineWidth..];
    }
  }

  /** Every chunk is exactly one line wide, there are ceil(|t| / lineWidth)
      of them, and together they are `t` followed by the padding. */
  lemma ChunksShape(t: seq<char>, lineWidth: nat)
    requires lineWidth >= 1
    ensures var cs := Chunks(t, lineWidth);
            && (forall i :: 0 <= i < |cs| ==> |cs[i]| == lineWidth)
            && (|cs| - 1) * lineWidth < |t| <= |cs| * lineWidth
            && Concat(cs) == t + Spaces(|cs| * lineWidth - |t|)
  {
    ChunksWidth(t, lineWidth);
    ChunksBounds(t, lineWidth);
    ChunksConcat(t, lineWidth);
  }

  lemma MulSucc(n: nat, d: nat)
    ensures (n + 1) * d == n * d + d
  {
  }

  /** Only the last chunk carries padding: the others are consecutive
      slices of `t`, and the last is the rest of `t` followed by spaces. */
  lemma {:induction false} ChunksLast(t: seq<char>, lineWidth: nat)
    requires lineWidth >= 1 && t != []
    ensures var cs := Chunks(t, lineWidth);
            && |cs| >= 1
            && (|cs| - 1) * lineWidth < |t| <= |cs| * lineWidth
            && Concat(cs[..|cs| - 1]) == t[..(|cs| - 1) * lineWidth]
            && cs[|cs| - 1] == t[(|cs| - 1) * lineWidth..] + Spaces(|cs| * lineWidth - |t|)
    decreases |t|
  {
    var cs := Chunks(t, lineWidth);
    if |t| <= lineWidth {
      assert cs[..0] == [];
    } else {
      var rest := Chunks(t[lineWidth..], lineWidth);
      ChunksLast(t[lineWidth..], lineWidth);
      var n := |rest|;
      assert (n + 1) * lineWidth == n * lineWidth + lineWidth;
      assert n * lineWidth == (n - 1) * lineWidth + lineWidth;
      assert cs[..|cs| - 1] == [t[..lineWidth]] + rest[..n - 1];
      ConcatAppend([t[..lineWidth]], rest[..n - 1]);
      assert Concat([t[..lineWidth]]) == t[..lineWidth] + Concat([]);
      assert t[..lineWidth] + t[lineWidth..][..(n - 1) * lineWidth] == t[..n * lineWidth];
      assert t[lineWidth..][(n - 1) * lineWidth..] == t[n * lineWidth..];
    }
  }

  /** A positive multiple of `d` is at least `d`. */
  lemma {:induction false} MulAtLeast(k: int, d: nat)
    requires k >= 1
    ensures k * d >= d
    decreases k
  {
    if k > 1 {
      MulAtLeast(k - 1, d);
      assert k * d == (k - 1) * d + d;
    }
  }

  /** Division with remainder has one answer. */
  lemma DivModUnique(x: int, d: int, q: int, r: int)
    requires d > 0 && 0 <= r < d && x == q * d + r
    ensures x / d == q && x % d == r
  {
    var q', r' := x / d, x % d;
    assert x == q' * d + r';
    if q > q' {
      MulAtLeast(q - q', d);
    } else if q < q' {
      MulAtLeast(q' - q, d);
    }
  }

  /** The chunk count is ceil(|t| / lineWidth), and the last chunk is padded
      by lineWidth - |t| % lineWidth spaces unless |t| is a multiple of the
      width. */
  lemma ChunksCount(t: seq<char>, lineWidth: nat)
    requires lineWidth >= 1
    ensures |Chunks(t, lineWidth)| == (|t| + lineWidth - 1) / lineWidth
    ensures |Chunks(t, lineWidth)| * lineWidth - |t|
            == if |t| % lineWidth == 0 then 0 else lineWidth - |t| % lineWidth
  {
    ChunksShape(t, lineWidth);
    var n := |Chunks(t, lineWidth)|;
    var pad := n * lineWidth - |t|;
    assert (n - 1) * lineWidth == n * lineWidth - lineWidth;
    assert 0 <= pad < lineWidth;
    DivModUnique(|t| + lineWidth - 1, lineWidth, n, lineWidth - 1 - pad);
    if pad == 0 {
      DivModUnique(|t|, lineWidth, n, 0);
    } else {
      DivModUnique(|t|, lineWidth, n - 1, lineWidth - pad);
    }
  }

  /** One round of the splitter at offset `elapsed` moves the next piece
      from the pieces still to come to the pieces emitted. */
  lemma SplitStep(t: seq<char>, elapsed: nat, lineWidth: nat, done: seq<seq<char>>)
    requires lineWidth >= 1 && elapsed < |t|
    requires Chunks(t, lineWidth) == done + Chunks(t[elapsed..], lineWidth)
    ensures var available := Min(|t| - elapsed, lineWidth);
            Chunks(t, lineWidth)
            == (done + [t[elapsed..][..available] + Spaces(lineWidth - available)])
               + Chunks(t[elapsed + available..], lineWidth)
  {
    var tail := t[elapsed..];
    var available := Min(|tail|, lineWidth);
    ChunksCons(tail, lineWidth);
    assert tail[available..] == t[elapsed + available..];
    AppendAssoc(done, [tail[..available] + Spaces(lineWidth - available)], Chunks(t[elapsed + available..], lineWidth));
  }

  /** `split_manually(unfitted_str, line_width)`. The source walks the
      token's UTF-8 bytes; on codepoints, each round appends the next
      min(remaining, lineWidth) characters and pads a short piece. The
      source panics on a non-empty token when the width is 0. */
  method SplitManually(unfittedStr: seq<char>, lineWidth: nat) returns (result: seq<char>)
    requires lineWidth >= 1 || unfittedStr == []
    ensures result == JoinLines(Chunks(unfittedStr, lineWidth))
  {
    result := [];
    var strLen := |unfittedStr|;
    var elapsed := 0;
    var needNewline := false;
    ghost var done: seq<seq<char>> := [];
    while elapsed != strLen
      invariant 0 <= elapsed <= strLen
      invariant needNewline == (elapsed > 0) == (done != [])
      invariant Chunks(unfittedStr, lineWidth) == done + Chunks(unfittedStr[elapsed..], lineWidth)
      invariant result == JoinLines(done)
      decreases strLen - elapsed
    {
      var tail := unfittedStr[elapsed..];
      var availableChars := Min(|tail|, lineWidth);
      var toAppendLen := availableChars;
      ghost var piece := tail[..toAppendLen] + Spaces(lineWidth - availableChars);
      SplitStep(unfittedStr, elapsed, lineWidth, done);
      JoinLinesSnoc(done, piece);
      if needNewline {
        result := result + ['\n'];
      }
      ghost var lineStart := result;
      result := result + tail[..toAppendLen];
      if availableChars < lineWidth {
        result := result + Spaces(lineWidth - availableChars);
      } else {
        assert Spaces(lineWidth - availableChars) == [];
      }
      AppendAssoc(lineStart, tail[..toAppendLen], Spaces(lineWidth - availableChars));
      assert result == lineStart + piece;
      done := done + [piece];
      elapsed := elapsed + toAppendLen;
      needNewline := true;
    }
    assert unfittedStr[strLen..] == [];
    assert done + [] == done;
  }
}
