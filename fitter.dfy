/** The greedy line fitter `fit_strs` of src/lib.rs, over the token sequence
    and an index standing for the peekable iterator's position. */
module Fitter {

  /** Sum of the tokens' lengths in codepoints. */
  function SumLen(ts: seq<seq<char>>): nat
    decreases |ts|
  {
    if ts == [] then 0 else SumLen(ts[..|ts| - 1]) + |ts[|ts| - 1]|
  }

  /** The words fit on a line of `max` codepoints with one space between
      each pair of them. */
  predicate Fits(ws: seq<seq<char>>, max: nat)
  {
    ws == [] || SumLen(ws) + |ws| - 1 <= max
  }

  lemma SumLenSnoc(ws: seq<seq<char>>, t: seq<char>)
    ensures SumLen(ws + [t]) == SumLen(ws) + |t|
  {
    assert (ws + [t])[..|ws|] == ws;
  }

  /** A shorter prefix of words fits whenever a longer one does. */
  lemma {:induction false} FitsPrefixClosed(ts: seq<seq<char>>, j: nat, k: nat, max: nat)
    requires j <= k <= |ts|
    requires Fits(ts[..k], max)
    ensures Fits(ts[..j], max)
    decreases k
  {
    if j < k {
      assert ts[..k][..k - 1] == ts[..k - 1];
      assert SumLen(ts[..k]) == SumLen(ts[..k - 1]) + |ts[k - 1]|;
      FitsPrefixClosed(ts, j, k - 1, max);
    }
  }

  /** The length of the longest prefix of `ts[..k]` that fits. */
  function LongestFit(ts: seq<seq<char>>, max: nat, k: nat): (c: nat)
    requires k <= |ts|
    ensures c <= k && Fits(ts[..c], max)
    ensures forall j :: c < j <= k ==> !Fits(ts[..j], max)
    decreases k
  {
    if k == 0 || Fits(ts[..k], max) then k else LongestFit(ts, max, k - 1)
  }

  /** How many of the tokens `ts` a line of `max` codepoints takes: the
      longest prefix that fits. */
  function FitCount(ts: seq<seq<char>>, max: nat): nat
  {
    LongestFit(ts, max, |ts|)
  }

  /** Greedy stops at the longest fitting prefix: a prefix that fits and
      cannot be extended by one more token is the longest one there is. */
  lemma GreedyIsLongest(ts: seq<seq<char>>, k: nat, max: nat)
    requires k <= |ts| && Fits(ts[..k], max)
    requires k < |ts| ==> !Fits(ts[..k + 1], max)
    ensures FitCount(ts, max) == k
  {
    var c := FitCount(ts, max);
    if c > k {
      FitsPrefixClosed(ts, k + 1, c, max);
    }
  }

  /** `fit_strs(tokens, max_line_width)` with the iterator at `pos`: takes
      tokens while the running length, which reserves one space after each
      word taken, leaves room for the next one. Returns the words taken,
      their total length and the new position. */
  method FitStrs(tokens: seq<seq<char>>, pos: nat, maxLineWidth: nat)
    returns (list: seq<seq<char>>, totalLen: nat, next: nat)
    requires pos <= |tokens|
    ensures pos <= next <= |tokens| && list == tokens[pos..next]
    ensures totalLen == SumLen(list)
    ensures Fits(list, maxLineWidth)
    ensures next < |tokens| ==> totalLen + |list| + |tokens[next]| > maxLineWidth
    ensures list == [] <==> pos == |tokens| || |tokens[pos]| > maxLineWidth
    ensures next - pos == FitCount(tokens[pos..], maxLineWidth)
  {
    list := [];
    totalLen := 0;
    var chkLen := 0;
    next := pos;
    while next < |tokens| && chkLen + |tokens[next]| <= maxLineWidth
      invariant pos <= next <= |tokens|
      invariant list == tokens[pos..next]
      invariant totalLen == SumLen(list)
      invariant chkLen == totalLen + |list|
      invariant Fits(list, maxLineWidth)
      invariant list != [] ==> |tokens[pos]| <= maxLineWidth
      decreases |tokens| - next
    {
      var s := tokens[next];
      next := next + 1;
      var charsCount := |s|;
      SumLenSnoc(list, s);
      totalLen := totalLen + charsCount;
      chkLen := chkLen + charsCount + 1;
      list := list + [s];
    }
    var rest := tokens[pos..];
    assert rest[..next - pos] == list;
    if next < |tokens| {
      assert rest[..next - pos + 1] == list + [tokens[next]];
      SumLenSnoc(list, tokens[next]);
    }
    GreedyIsLongest(rest, next - pos, maxLineWidth);
  }
}
