/** The driver `transform` of src/lib.rs and what it promises about its
    output: the words come back in order, lines are joined by single '\n'
    characters, and no line is wider than the target width. */
module LineAdjustment {
  import opened Text
  import opened Tokenizer
  import opened Gaps
  import opened Fitter
  import opened Splitter

  /** Spaces the rendering loop places after word `idx` of a line of `n`
      words: the body gap after all but the last two words, the tail gap
      after the last-but-one word or after a lone word, none after the last
      word of a longer line. */
  function GapAfter(idx: nat, n: nat, g: GapInfo): nat
  {
    if idx + 1 < n - 1 then g.bodyGapsSize
    else if idx + 1 == n - 1 || n == 1 then g.tailGapSize
    else 0
  }

  /** The first `k` words of a line, each followed by its gap. */
  function RenderPrefix(ws: seq<seq<char>>, k: nat, g: GapInfo): seq<char>
    requires k <= |ws|
    decreases k
  {
    if k == 0 then [] else RenderPrefix(ws, k - 1, g) + ws[k - 1] + Spaces(GapAfter(k - 1, |ws|, g))
  }

  /** The text of one justified line. */
  function RenderLine(ws: seq<seq<char>>, g: GapInfo): seq<char>
  {
    RenderPrefix(ws, |ws|, g)
  }

  /** The line `transform` writes for words that fit together. */
  function FittedLine(ws: seq<seq<char>>, lineWidth: nat): seq<char>
    requires Fits(ws, lineWidth)
  {
    RenderLine(ws, Gaps.Gaps(|ws|, SumLen(ws), lineWidth))
  }

  /** Total of the gaps after the first `k` words. */
  function GapSum(k: nat, n: nat, g: GapInfo): nat
  {
    if k == 0 then 0 else GapSum(k - 1, n, g) + GapAfter(k - 1, n, g)
  }

  lemma {:induction false} GapSumClosed(k: nat, n: nat, g: GapInfo)
    requires 2 <= n && k <= n
    ensures GapSum(k, n, g)
            == if k <= n - 2 then g.bodyGapsSize * k else g.bodyGapsSize * (n - 2) + g.tailGapSize
  {
    if k > 0 {
      GapSumClosed(k - 1, n, g);
      if k <= n - 2 {
        assert g.bodyGapsSize * k == g.bodyGapsSize * (k - 1) + g.bodyGapsSize;
      }
    }
  }

  /** The placed gaps add up to Padding. */
  lemma GapSumIsPadding(n: nat, g: GapInfo)
    ensures GapSum(n, n, g) == Padding(n, g)
  {
    if n == 1 {
      assert GapSum(1, 1, g) == GapSum(0, 1, g) + GapAfter(0, 1, g);
    } else if n >= 2 {
      GapSumClosed(n, n, g);
    }
  }

  lemma {:induction false} RenderPrefixLength(ws: seq<seq<char>>, k: nat, g: GapInfo)
    requires k <= |ws|
    ensures |RenderPrefix(ws, k, g)| == SumLen(ws[..k]) + GapSum(k, |ws|, g)
  {
    if k > 0 {
      RenderPrefixLength(ws, k - 1, g);
      assert ws[..k][..k - 1] == ws[..k - 1];
    }
  }

  /** A line is as long as its words plus the padding the gaps give. */
  lemma RenderLineLength(ws: seq<seq<char>>, g: GapInfo)
    ensures |RenderLine(ws, g)| == SumLen(ws) + Padding(|ws|, g)
  {
    RenderPrefixLength(ws, |ws|, g);
    GapSumIsPadding(|ws|, g);
    assert ws[..|ws|] == ws;
  }

  predicate WordNoLayout(t: seq<char>)
  {
    forall i :: 0 <= i < |t| ==> !IsLayout(t[i])
  }

  lemma WordHasNoLayout(t: seq<char>)
    requires IsWord(t)
    ensures WordNoLayout(t) && NoNewline(t)
  {
  }

  lemma {:induction false} RenderPrefixText(ws: seq<seq<char>>, k: nat, g: GapInfo)
    requires k <= |ws| && AllWords(ws)
    ensures DropLayout(RenderPrefix(ws, k, g)) == Concat(ws[..k])
    ensures NoNewline(RenderPrefix(ws, k, g))
  {
    if k > 0 {
      var p := RenderPrefix(ws, k - 1, g);
      var n := GapAfter(k - 1, |ws|, g);
      RenderPrefixText(ws, k - 1, g);
      WordHasNoLayout(ws[k - 1]);
      calc {
        DropLayout(RenderPrefix(ws, k, g));
        DropLayout(p + ws[k - 1] + Spaces(n));
        { DropLayoutAppend(p + ws[k - 1], Spaces(n)); DropLayoutSpaces(n); }
        DropLayout(p + ws[k - 1]) + [];
        { DropLayoutAppend(p, ws[k - 1]); DropLayoutPlain(ws[k - 1]); }
        Concat(ws[..k - 1]) + ws[k - 1];
        { ConcatSnoc(ws, k); }
        Concat(ws[..k]);
      }
      SpacesNoNewline(n);
      NoNewlineAppend(p, ws[k - 1]);
      NoNewlineAppend(p + ws[k - 1], Spaces(n));
    }
  }

  /** Rendering only adds spaces: deleting them gives the words back, and
      the line holds no '\n'. */
  lemma RenderLineText(ws: seq<seq<char>>, g: GapInfo)
    requires AllWords(ws)
    ensures DropLayout(RenderLine(ws, g)) == Concat(ws)
    ensures NoNewline(RenderLine(ws, g))
  {
    RenderPrefixText(ws, |ws|, g);
    assert ws[..|ws|] == ws;
  }

  /** The words are at least as long as there are words. */
  lemma {:induction false} SumLenOfWords(ws: seq<seq<char>>)
    requires AllWords(ws)
    ensures SumLen(ws) >= |ws|
    decreases |ws|
  {
    if ws != [] {
      SumLenOfWords(ws[..|ws| - 1]);
    }
  }

  /** A line of words that fit is never wider than the width, and it is
      exactly the width when the gaps fill it (FillsLine). */
  lemma FittedLineWidth(ws: seq<seq<char>>, lineWidth: nat)
    requires ws != [] && Fits(ws, lineWidth)
    ensures |FittedLine(ws, lineWidth)| <= lineWidth
    ensures |FittedLine(ws, lineWidth)| == lineWidth <==> FillsLine(|ws|, SumLen(ws), lineWidth)
  {
    RenderLineLength(ws, Gaps.Gaps(|ws|, SumLen(ws), lineWidth));
    GapsTotal(|ws|, SumLen(ws), lineWidth);
  }

  /** A group of the schedule: the words of one justified line, or one word
      too long for any line, which the splitter cuts up. */
  datatype Group = Fitted(words: seq<seq<char>>) | Oversized(word: seq<char>)

  predicate GroupFits(g: Group, lineWidth: nat)
  {
    match g
    case Fitted(ws) => ws != [] && Fits(ws, lineWidth)
    case Oversized(t) => |t| > lineWidth
  }

  function GroupWords(g: Group): seq<seq<char>>
  {
    match g
    case Fitted(ws) => ws
    case Oversized(t) => [t]
  }

  /** The words of the groups, in order. */
  function Regroup(gs: seq<Group>): seq<seq<char>>
  {
    if gs == [] then [] else GroupWords(gs[0]) + Regroup(gs[1..])
  }

  predicate AllGroupsFit(gs: seq<Group>, lineWidth: nat)
  {
    forall i :: 0 <= i < |gs| ==> GroupFits(gs[i], lineWidth)
  }

  /** How many tokens one round of the driving loop consumes: the words
      `fit_strs` takes, or the single token handed to the splitter when
      not even one fits. */
  function Take(ts: seq<seq<char>>, lineWidth: nat): (k: nat)
    requires ts != []
    ensures 1 <= k <= |ts|
  {
    var c := FitCount(ts, lineWidth);
    if c == 0 then 1 else c
  }

  /** The group one round of the driving loop makes from the tokens `ts`:
      the longest prefix that fits, or else the first token on its own,
      which is then too long for any line. */
  function FirstGroup(ts: seq<seq<char>>, lineWidth: nat): (g: Group)
    requires ts != []
    ensures GroupFits(g, lineWidth)
    ensures GroupWords(g) == ts[..Take(ts, lineWidth)]
  {
    var c := FitCount(ts, lineWidth);
    if c == 0 then
      assert ts[..1] == [ts[0]] && ts[..1][..0] == [];
      assert !Fits(ts[..1], lineWidth);
      assert SumLen(ts[..1]) == |ts[0]|;
      Oversized(ts[0])
    else Fitted(ts[..c])
  }

  lemma ConsGroupsFit(g: Group, gs: seq<Group>, lineWidth: nat)
    requires GroupFits(g, lineWidth) && AllGroupsFit(gs, lineWidth)
    ensures AllGroupsFit([g] + gs, lineWidth)
  {
    forall i | 0 <= i < |gs| + 1 ensures GroupFits(([g] + gs)[i], lineWidth) {
      if i > 0 {
        assert ([g] + gs)[i] == gs[i - 1];
      }
    }
  }

  /** The decisions of the driving loop, round after round. Every group is
      of the kind the loop makes, the groups hold every token once and in
      order, and there are groups exactly when there are tokens. */
  function Schedule(ts: seq<seq<char>>, lineWidth: nat): (gs: seq<Group>)
    ensures AllGroupsFit(gs, lineWidth)
    ensures Regroup(gs) == ts
    ensures gs == [] <==> ts == []
    decreases |ts|
  {
    if ts == [] then []
    else
      var k := Take(ts, lineWidth);
      var first := FirstGroup(ts, lineWidth);
      var rest := Schedule(ts[k..], lineWidth);
      ConsGroupsFit(first, rest, lineWidth);
      assert ([first] + rest)[1..] == rest;
      assert ts == ts[..k] + ts[k..];
      [first] + rest
  }

  /** The lines one group becomes: one justified line, or the splitter's
      pieces of an oversized token. */
  function GroupLines(g: Group, lineWidth: nat): seq<seq<char>>
    requires lineWidth >= 1 && GroupFits(g, lineWidth)
  {
    match g
    case Fitted(ws) => [FittedLine(ws, lineWidth)]
    case Oversized(t) => Chunks(t, lineWidth)
  }

  function FlatLines(gs: seq<Group>, lineWidth: nat): seq<seq<char>>
    requires lineWidth >= 1 || gs == []
    requires AllGroupsFit(gs, lineWidth)
  {
    if gs == [] then [] else GroupLines(gs[0], lineWidth) + FlatLines(gs[1..], lineWidth)
  }

  /** The output lines for the tokens `ts`: the lines of the first group,
      then those of the tokens after it. */
  function OutputLines(ts: seq<seq<char>>, lineWidth: nat): seq<seq<char>>
    requires lineWidth >= 1 || ts == []
    decreases |ts|
  {
    if ts == [] then []
    else GroupLines(FirstGroup(ts, lineWidth), lineWidth) + OutputLines(ts[Take(ts, lineWidth)..], lineWidth)
  }

  /** The output lines are the lines of the schedule's groups, in order. */
  lemma {:induction false} OutputLinesFlat(ts: seq<seq<char>>, lineWidth: nat)
    requires lineWidth >= 1 || ts == []
    ensures OutputLines(ts, lineWidth) == FlatLines(Schedule(ts, lineWidth), lineWidth)
    decreases |ts|
  {
    if ts != [] {
      var gs := Schedule(ts, lineWidth);
      OutputLinesFlat(ts[Take(ts, lineWidth)..], lineWidth);
      assert gs[1..] == Schedule(ts[Take(ts, lineWidth)..], lineWidth);
    }
  }

  /** What `transform(input, line_width)` returns. */
  function Justified(input: seq<char>, lineWidth: nat): seq<char>
    requires lineWidth >= 1 || Tokens(input) == []
  {
    if |input| == 0 then [] else JoinLines(OutputLines(Tokens(input), lineWidth))
  }

  lemma AllWordsSplit(ts: seq<seq<char>>, k: nat)
    requires AllWords(ts) && k <= |ts|
    ensures AllWords(ts[..k]) && AllWords(ts[k..])
  {
    assert forall i :: 0 <= i < |ts| - k ==> ts[k..][i] == ts[k + i];
  }

  /** Each line is between one codepoint and the width wide and holds no
      '\n'. */
  predicate LinesWithin(ls: seq<seq<char>>, lineWidth: nat)
  {
    forall i :: 0 <= i < |ls| ==> 1 <= |ls[i]| <= lineWidth && NoNewline(ls[i])
  }

  /** Each line is exactly the width wide. */
  predicate LinesExact(ls: seq<seq<char>>, lineWidth: nat)
  {
    forall i :: 0 <= i < |ls| ==> |ls[i]| == lineWidth
  }

  lemma LinesAppend(a: seq<seq<char>>, b: seq<seq<char>>, lineWidth: nat)
    ensures LinesWithin(a + b, lineWidth) <==> LinesWithin(a, lineWidth) && LinesWithin(b, lineWidth)
    ensures LinesExact(a + b, lineWidth) <==> LinesExact(a, lineWidth) && LinesExact(b, lineWidth)
  {
    var ab := a + b;
    forall i | 0 <= i < |ab| ensures ab[i] == if i < |a| then a[i] else b[i - |a|] { }
    forall i | 0 <= i < |b| ensures ab[|a| + i] == b[i] { }
  }

  lemma {:induction false} ChunksNoNewline(t: seq<char>, lineWidth: nat)
    requires lineWidth >= 1 && NoNewline(t)
    ensures forall i :: 0 <= i < |Chunks(t, lineWidth)| ==> NoNewline(Chunks(t, lineWidth)[i])
    decreases |t|
  {
    if t != [] {
      var cs := Chunks(t, lineWidth);
      if |t| <= lineWidth {
        SpacesNoNewline(lineWidth - |t|);
      } else {
        ChunksNoNewline(t[lineWidth..], lineWidth);
        assert forall i :: 1 <= i < |cs| ==> cs[i] == Chunks(t[lineWidth..], lineWidth)[i - 1];
      }
    }
  }

  /** The line of a justified group: between one codepoint and the width
      wide, without '\n', the words with spaces added, and exactly the width
      wide when FillsLine holds. */
  lemma FittedLinesShape(ws: seq<seq<char>>, lineWidth: nat)
    requires lineWidth >= 1 && ws != [] && Fits(ws, lineWidth) && AllWords(ws)
    ensures LinesWithin(GroupLines(Fitted(ws), lineWidth), lineWidth)
    ensures DropLayout(Concat(GroupLines(Fitted(ws), lineWidth))) == Concat(ws)
    ensures LinesExact(GroupLines(Fitted(ws), lineWidth), lineWidth) <==> FillsLine(|ws|, SumLen(ws), lineWidth)
  {
    assert GroupLines(Fitted(ws), lineWidth) == [FittedLine(ws, lineWidth)];
    FittedLineFacts(ws, lineWidth);
    SingleLine(FittedLine(ws, lineWidth), lineWidth);
  }

  /** What the justified line of fitting words is like on its own. */
  lemma FittedLineFacts(ws: seq<seq<char>>, lineWidth: nat)
    requires lineWidth >= 1 && ws != [] && Fits(ws, lineWidth) && AllWords(ws)
    ensures 1 <= |FittedLine(ws, lineWidth)| <= lineWidth
    ensures |FittedLine(ws, lineWidth)| == lineWidth <==> FillsLine(|ws|, SumLen(ws), lineWidth)
    ensures DropLayout(FittedLine(ws, lineWidth)) == Concat(ws) && NoNewline(FittedLine(ws, lineWidth))
  {
    FittedLineWidth(ws, lineWidth);
    RenderLineLength(ws, Gaps.Gaps(|ws|, SumLen(ws), lineWidth));
    SumLenOfWords(ws);
    RenderLineText(ws, Gaps.Gaps(|ws|, SumLen(ws), lineWidth));
  }

  /** A single line, seen as a list of lines. */
  lemma SingleLine(line: seq<char>, lineWidth: nat)
    ensures Concat([line]) == line
    ensures LinesWithin([line], lineWidth) <==> 1 <= |line| <= lineWidth && NoNewline(line)
    ensures LinesExact([line], lineWidth) <==> |line| == lineWidth
  {
    assert [line][1..] == [];
    assert Concat([line]) == line + [];
  }

  /** The splitter's lines for an oversized token: each exactly the width
      wide, without '\n', and the token with its padding added. */
  lemma OversizedLinesShape(t: seq<char>, lineWidth: nat)
    requires lineWidth >= 1 && |t| > lineWidth && IsWord(t)
    ensures LinesWithin(GroupLines(Oversized(t), lineWidth), lineWidth)
    ensures LinesExact(GroupLines(Oversized(t), lineWidth), lineWidth)
    ensures DropLayout(Concat(GroupLines(Oversized(t), lineWidth))) == t
  {
    var cs := Chunks(t, lineWidth);
    ChunksShape(t, lineWidth);
    WordHasNoLayout(t);
    DropLayoutAppend(t, Spaces(|cs| * lineWidth - |t|));
    DropLayoutSpaces(|cs| * lineWidth - |t|);
    DropLayoutPlain(t);
    ChunksNoNewline(t, lineWidth);
  }

  /** The group is of the kind every line of which is exactly the width
      wide: an oversized token, or a justified line that FillsLine. */
  predicate GroupFills(g: Group, lineWidth: nat)
  {
    g.Oversized? || FillsLine(|g.words|, SumLen(g.words), lineWidth)
  }

  /** The lines of one group: at least one; each between one codepoint and
      the width wide, without '\n'; deleting the padding gives the group's
      words back; and all of them are exactly the width if and only if the
      group fills its lines. */
  lemma GroupLinesShape(g: Group, lineWidth: nat)
    requires lineWidth >= 1 && GroupFits(g, lineWidth) && AllWords(GroupWords(g))
    ensures GroupLines(g, lineWidth) != []
    ensures LinesWithin(GroupLines(g, lineWidth), lineWidth)
    ensures DropLayout(Concat(GroupLines(g, lineWidth))) == Concat(GroupWords(g))
    ensures LinesExact(GroupLines(g, lineWidth), lineWidth) <==> GroupFills(g, lineWidth)
  {
    match g
    case Fitted(ws) =>
      FittedLinesShape(ws, lineWidth);
    case Oversized(t) =>
      assert IsWord([t][0]);
      OversizedLinesShape(t, lineWidth);
      assert Concat([t]) == t + Concat([]);
  }

  /** Every output line is between one codepoint and the width wide and
      holds no '\n'; there are lines exactly when there are tokens. */
  lemma {:induction false} OutputLinesShape(ts: seq<seq<char>>, lineWidth: nat)
    requires lineWidth >= 1 && AllWords(ts)
    ensures OutputLines(ts, lineWidth) == [] <==> ts == []
    ensures LinesWithin(OutputLines(ts, lineWidth), lineWidth)
    decreases |ts|
  {
    if ts != [] {
      var k := Take(ts, lineWidth);
      var first := FirstGroup(ts, lineWidth);
      AllWordsSplit(ts, k);
      GroupLinesShape(first, lineWidth);
      OutputLinesShape(ts[k..], lineWidth);
      LinesAppend(GroupLines(first, lineWidth), OutputLines(ts[k..], lineWidth), lineWidth);
    }
  }

  /** Deleting the inserted spaces and newlines from the output lines gives
      the tokens back, concatenated in order. */
  lemma {:induction false} OutputLinesWords(ts: seq<seq<char>>, lineWidth: nat)
    requires lineWidth >= 1 && AllWords(ts)
    ensures DropLayout(Concat(OutputLines(ts, lineWidth))) == Concat(ts)
    decreases |ts|
  {
    if ts != [] {
      var k := Take(ts, lineWidth);
      var first := FirstGroup(ts, lineWidth);
      var here := GroupLines(first, lineWidth);
      var later := OutputLines(ts[k..], lineWidth);
      AllWordsSplit(ts, k);
      calc {
        DropLayout(Concat(OutputLines(ts, lineWidth)));
        DropLayout(Concat(here + later));
        { ConcatAppend(here, later); }
        DropLayout(Concat(here) + Concat(later));
        { DropLayoutAppend(Concat(here), Concat(later)); }
        DropLayout(Concat(here)) + DropLayout(Concat(later));
        { GroupLinesShape(first, lineWidth); OutputLinesWords(ts[k..], lineWidth); }
        Concat(ts[..k]) + Concat(ts[k..]);
        { ConcatSplit(ts, k); }
        Concat(ts);
      }
    }
  }

  /** Every group of the schedule fills its lines. */
  predicate AllFill(gs: seq<Group>, lineWidth: nat)
  {
    forall i :: 0 <= i < |gs| ==> GroupFills(gs[i], lineWidth)
  }

  lemma AllFillCons(g: Group, gs: seq<Group>, lineWidth: nat)
    ensures AllFill([g] + gs, lineWidth) <==> GroupFills(g, lineWidth) && AllFill(gs, lineWidth)
  {
    var all := [g] + gs;
    if AllFill(all, lineWidth) {
      assert all[0] == g;
      forall i | 0 <= i < |gs| ensures GroupFills(gs[i], lineWidth) {
        assert all[i + 1] == gs[i];
      }
    }
    if GroupFills(g, lineWidth) && AllFill(gs, lineWidth) {
      forall i | 0 <= i < |all| ensures GroupFills(all[i], lineWidth) {
        if i > 0 {
          assert all[i] == gs[i - 1];
        }
      }
    }
  }

  /** Every output line is exactly the width wide if and only if every
      group of the schedule fills its lines. */
  lemma {:induction false} OutputLinesExact(ts: seq<seq<char>>, lineWidth: nat)
    requires lineWidth >= 1 && AllWords(ts)
    ensures LinesExact(OutputLines(ts, lineWidth), lineWidth) <==> AllFill(Schedule(ts, lineWidth), lineWidth)
    decreases |ts|
  {
    if ts != [] {
      var k := Take(ts, lineWidth);
      var first := FirstGroup(ts, lineWidth);
      AllWordsSplit(ts, k);
      GroupLinesShape(first, lineWidth);
      OutputLinesExact(ts[k..], lineWidth);
      LinesAppend(GroupLines(first, lineWidth), OutputLines(ts[k..], lineWidth), lineWidth);
      assert Schedule(ts, lineWidth) == [first] + Schedule(ts[k..], lineWidth);
      AllFillCons(first, Schedule(ts[k..], lineWidth), lineWidth);
    }
  }

  /** Empty or whitespace-only input gives the empty string, and any other
      input gives a non-empty one. */
  lemma JustifiedEmpty(input: seq<char>, lineWidth: nat)
    requires lineWidth >= 1 || forall i :: 0 <= i < |input| ==> IsWhitespace(input[i])
    ensures lineWidth >= 1 || Tokens(input) == []
    ensures Justified(input, lineWidth) == [] <==> forall i :: 0 <= i < |input| ==> IsWhitespace(input[i])
  {
    TokensEmptyIff(input);
    var ts := Tokens(input);
    if ts != [] {
      TokensAreWords(input);
      OutputLinesShape(ts, lineWidth);
      var ls := OutputLines(ts, lineWidth);
      assert |ls[0]| >= 1;
      if |ls| > 1 {
        assert JoinLines(ls) == ls[0] + ['\n'] + JoinLines(ls[1..]);
      }
    } else if |input| > 0 {
      assert Schedule(ts, lineWidth) == [];
    }
  }

  /** Word preservation: deleting every ' ' and '\n' from the output gives
      the tokens of the input concatenated in order, that is, the input
      without its whitespace. */
  lemma JustifiedKeepsWords(input: seq<char>, lineWidth: nat)
    requires lineWidth >= 1 || Tokens(input) == []
    ensures DropLayout(Justified(input, lineWidth)) == Concat(Tokens(input))
    ensures DropLayout(Justified(input, lineWidth)) == NonWhitespace(input)
  {
    TokensConcat(input);
    var ts := Tokens(input);
    if |input| > 0 && ts != [] {
      TokensAreWords(input);
      DropLayoutJoin(OutputLines(ts, lineWidth));
      OutputLinesWords(ts, lineWidth);
    } else if |input| > 0 {
      assert Schedule(ts, lineWidth) == [];
    }
  }

  /** Line shape: `str::lines()` of the output gives back the output lines,
      and every line is between one codepoint and the width wide. (That the
      lines are joined by single '\n' characters with none before the first
      or after the last is the definition of Justified, as JoinLines.) */
  lemma JustifiedLines(input: seq<char>, lineWidth: nat)
    requires lineWidth >= 1
    ensures TextLines(Justified(input, lineWidth)) == OutputLines(Tokens(input), lineWidth)
    ensures forall i :: 0 <= i < |TextLines(Justified(input, lineWidth))| ==>
              1 <= |TextLines(Justified(input, lineWidth))[i]| <= lineWidth
  {
    var ts := Tokens(input);
    TokensAreWords(input);
    OutputLinesShape(ts, lineWidth);
    var ls := OutputLines(ts, lineWidth);
    if |input| == 0 {
      assert ts == [];
    } else if ls != [] {
      TextLinesJoin(ls);
    }
  }

  /** Exact width: every line of the output is exactly the width wide if
      and only if every justified line of the schedule fills its line
      (always so for lines of one or two words, and for lines whose free
      space the gaps divide evenly). This is what the equal-length test of
      src/lib.rs checks. */
  lemma JustifiedExactWidth(input: seq<char>, lineWidth: nat)
    requires lineWidth >= 1
    ensures (forall i :: 0 <= i < |TextLines(Justified(input, lineWidth))| ==>
               |TextLines(Justified(input, lineWidth))[i]| == lineWidth)
            <==> AllFill(Schedule(Tokens(input), lineWidth), lineWidth)
  {
    JustifiedLines(input, lineWidth);
    TokensAreWords(input);
    OutputLinesExact(Tokens(input), lineWidth);
  }

  /** On a line at most four codepoints wide no more than two words fit,
      so every group of the schedule fills its lines. */
  lemma {:induction false} NarrowScheduleFills(ts: seq<seq<char>>, lineWidth: nat)
    requires 1 <= lineWidth <= 4 && AllWords(ts)
    ensures AllFill(Schedule(ts, lineWidth), lineWidth)
    decreases |ts|
  {
    if ts != [] {
      var k := Take(ts, lineWidth);
      var first := FirstGroup(ts, lineWidth);
      AllWordsSplit(ts, k);
      if first.Fitted? {
        SumLenOfWords(first.words);
      }
      NarrowScheduleFills(ts[k..], lineWidth);
      assert Schedule(ts, lineWidth) == [first] + Schedule(ts[k..], lineWidth);
      AllFillCons(first, Schedule(ts[k..], lineWidth), lineWidth);
    }
  }

  /** Every line of the output is exactly the width wide when the width is
      at most four codepoints, whatever the input. */
  lemma JustifiedNarrowExact(input: seq<char>, lineWidth: nat)
    requires 1 <= lineWidth <= 4
    ensures forall i :: 0 <= i < |TextLines(Justified(input, lineWidth))| ==>
              |TextLines(Justified(input, lineWidth))[i]| == lineWidth
  {
    TokensAreWords(input);
    NarrowScheduleFills(Tokens(input), lineWidth);
    JustifiedExactWidth(input, lineWidth);
  }

  /** The emitted text grows by a '\n' (when something was emitted already)
      and the next group's lines. */
  lemma JoinLinesAppendOrFirst(done: seq<seq<char>>, lines: seq<seq<char>>)
    requires lines != []
    ensures JoinLines(done + lines) == JoinLines(done) + (if done == [] then [] else ['\n']) + JoinLines(lines)
  {
    if done == [] {
      assert done + lines == lines;
    } else {
      JoinLinesAppend(done, lines);
    }
  }

  /** One round of `transform` moves the lines of the next group from the
      lines still to come to the lines emitted. */
  lemma RoundInvariant(tokens: seq<seq<char>>, pos: nat, list: seq<seq<char>>, next: nat,
                       done: seq<seq<char>>, lineWidth: nat)
    requires lineWidth >= 1 && pos < |tokens| && pos <= next <= |tokens|
    requires list == tokens[pos..next] && next - pos == FitCount(tokens[pos..], lineWidth)
    requires Fits(list, lineWidth) && (list == [] ==> |tokens[pos]| > lineWidth)
    requires OutputLines(tokens, lineWidth) == done + OutputLines(tokens[pos..], lineWidth)
    ensures list != [] ==>
              OutputLines(tokens, lineWidth) == (done + [FittedLine(list, lineWidth)]) + OutputLines(tokens[next..], lineWidth)
    ensures list == [] ==>
              OutputLines(tokens, lineWidth) == (done + Chunks(tokens[pos], lineWidth)) + OutputLines(tokens[pos + 1..], lineWidth)
  {
    var rest := tokens[pos..];
    assert rest[..next - pos] == list;
    if list == [] {
      assert FirstGroup(rest, lineWidth) == Oversized(tokens[pos]);
      RoundLines(tokens, pos, pos + 1, lineWidth);
      AppendAssoc(done, Chunks(tokens[pos], lineWidth), OutputLines(tokens[pos + 1..], lineWidth));
    } else {
      assert FirstGroup(rest, lineWidth) == Fitted(list);
      RoundLines(tokens, pos, next, lineWidth);
      AppendAssoc(done, [FittedLine(list, lineWidth)], OutputLines(tokens[next..], lineWidth));
    }
  }

  /** The lines of the tokens from `pos` on are those of the first group
      followed by those of the tokens from `after` on, the position the
      round moves to. */
  lemma RoundLines(tokens: seq<seq<char>>, pos: nat, after: nat, lineWidth: nat)
    requires lineWidth >= 1 && pos < |tokens| && after == pos + Take(tokens[pos..], lineWidth)
    ensures OutputLines(tokens[pos..], lineWidth)
            == GroupLines(FirstGroup(tokens[pos..], lineWidth), lineWidth) + OutputLines(tokens[after..], lineWidth)
  {
    DropDrop(tokens, pos, Take(tokens[pos..], lineWidth));
    assert tokens[pos..][Take(tokens[pos..], lineWidth)..] == tokens[after..];
  }

  /** Appending one word and its gap to a rendered prefix. */
  lemma RenderStep(lineStart: seq<char>, ws: seq<seq<char>>, idx: nat, g: GapInfo)
    requires idx < |ws|
    ensures lineStart + RenderPrefix(ws, idx + 1, g)
            == lineStart + RenderPrefix(ws, idx, g) + ws[idx] + Spaces(GapAfter(idx, |ws|, g))
  {
    AppendAssoc(lineStart, RenderPrefix(ws, idx, g), ws[idx]);
    AppendAssoc(lineStart, RenderPrefix(ws, idx, g) + ws[idx], Spaces(GapAfter(idx, |ws|, g)));
  }

  /** The rendering loop of `transform`: appends the fitted words to
      `start`, each followed by the gap `gaps` assigns to it, so that the text
      grows by exactly one justified line. */
  method AppendFittedLine(start: seq<char>, list: seq<seq<char>>, totalLen: nat, lineWidth: nat)
    returns (result: seq<char>)
    requires list != [] && Fits(list, lineWidth) && totalLen == SumLen(list)
    ensures result == start + FittedLine(list, lineWidth)
  {
    result := start;
    var gapsInfo := Gaps.Gaps(|list|, totalLen, lineWidth);
    var nGaps := |list| - 1;
    var idx := 0;
    while idx < |list|
      invariant 0 <= idx <= |list|
      invariant result == start + RenderPrefix(list, idx, gapsInfo)
      decreases |list| - idx
    {
      RenderStep(start, list, idx, gapsInfo);
      result := result + list[idx];
      var nextIdx := idx + 1;
      if nextIdx < nGaps {
        assert GapAfter(idx, |list|, gapsInfo) == gapsInfo.bodyGapsSize;
        result := result + Spaces(gapsInfo.bodyGapsSize);
      } else if nextIdx == nGaps || |list| == 1 {
        assert GapAfter(idx, |list|, gapsInfo) == gapsInfo.tailGapSize;
        result := result + Spaces(gapsInfo.tailGapSize);
      } else {
        assert GapAfter(idx, |list|, gapsInfo) == 0;
        assert result + Spaces(0) == result;
      }
      idx := idx + 1;
    }
  }

  /** The branch of one round of `transform` after `fit_strs`: renders the
      fitted words as one justified line, or, when none fitted, hands the
      next token to the splitter and steps past it. Appends the lines of the
      round's group to `start`. */
  method EmitGroup(tokens: seq<seq<char>>, pos: nat, lineWidth: nat, start: seq<char>,
                   list: seq<seq<char>>, totalLen: nat, next: nat)
    returns (result: seq<char>, pos': nat)
    requires lineWidth >= 1 && pos <= next <= |tokens| && pos < |tokens|
    requires list == tokens[pos..next] && totalLen == SumLen(list) && Fits(list, lineWidth)
    requires next - pos == FitCount(tokens[pos..], lineWidth)
    requires list == [] ==> |tokens[pos]| > lineWidth
    ensures pos' == pos + Take(tokens[pos..], lineWidth)
    ensures result == start + JoinLines(GroupLines(FirstGroup(tokens[pos..], lineWidth), lineWidth))
  {
    assert tokens[pos..][..next - pos] == list;
    if |list| != 0 {
      assert FirstGroup(tokens[pos..], lineWidth) == Fitted(list);
      result := AppendFittedLine(start, list, totalLen, lineWidth);
      pos' := next;
    } else {
      assert FirstGroup(tokens[pos..], lineWidth) == Oversized(tokens[pos]);
      var piece := SplitManually(tokens[pos], lineWidth);
      result := start + piece;
      pos' := pos + 1;
    }
  }

  /** One round of the loop of `transform` at token `pos`: the fitted words
      become one justified line, or else the next token goes to the
      splitter; either way a '\n' goes first unless nothing was emitted yet.
      `done` holds the lines emitted so far. */
  method JustifyRound(tokens: seq<seq<char>>, pos: nat, lineWidth: nat, needNewline: bool,
                      result: seq<char>, ghost done: seq<seq<char>>)
    returns (result': seq<char>, pos': nat, ghost done': seq<seq<char>>)
    requires lineWidth >= 1 && pos < |tokens|
    requires needNewline == (done != [])
    requires OutputLines(tokens, lineWidth) == done + OutputLines(tokens[pos..], lineWidth)
    requires result == JoinLines(done)
    ensures pos < pos' <= |tokens| && done' != []
    ensures pos' == pos + Take(tokens[pos..], lineWidth)
    ensures done' == done + GroupLines(FirstGroup(tokens[pos..], lineWidth), lineWidth)
    ensures result' == result + (if needNewline then ['\n'] else [])
                       + JoinLines(GroupLines(FirstGroup(tokens[pos..], lineWidth), lineWidth))
    ensures OutputLines(tokens, lineWidth) == done' + OutputLines(tokens[pos'..], lineWidth)
    ensures result' == JoinLines(done')
  {
    var list, totalLen, next := FitStrs(tokens, pos, lineWidth);
    ghost var lines := GroupLines(FirstGroup(tokens[pos..], lineWidth), lineWidth);
    result' := result;
    if needNewline {
      result' := result' + ['\n'];
    }
    result', pos' := EmitGroup(tokens, pos, lineWidth, result', list, totalLen, next);
    done' := done + lines;
    RoundLines(tokens, pos, pos', lineWidth);
    AppendAssoc(done, lines, OutputLines(tokens[pos'..], lineWidth));
    JoinLinesAppendOrFirst(done, lines);
  }

  /** `transform(input, line_width)`. The iterator over the tokens is the
      index `pos`; each round either renders one justified line from the
      fitted words or hands the next token to the splitter and steps past
      it, so every round consumes at least one token. The source panics when
      a token meets a width of 0. */
  method Transform(input: seq<char>, lineWidth: nat) returns (result: seq<char>)
    requires lineWidth >= 1 || Tokens(input) == []
    ensures result == Justified(input, lineWidth)
  {
    if |input| == 0 {
      return [];
    }
    result := [];
    var tokens := Tokens(input);
    var needNewline := false;
    var pos := 0;
    ghost var done: seq<seq<char>> := [];
    while pos < |tokens|
      invariant 0 <= pos <= |tokens|
      invariant needNewline == (pos > 0) == (done != [])
      invariant lineWidth >= 1 || pos == |tokens|
      invariant OutputLines(tokens, lineWidth) == done + OutputLines(tokens[pos..], lineWidth)
      invariant result == JoinLines(done)
      decreases |tokens| - pos
    {
      result, pos, done := JustifyRound(tokens, pos, lineWidth, needNewline, result, done);
      needNewline := true;
    }
    assert tokens[pos..] == [];
    assert done + [] == done;
  }
}
