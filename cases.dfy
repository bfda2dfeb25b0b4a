/** Inputs and outputs from the tests of src/lib.rs, checked against the
    model. Each is derived round by round with the general lemmas below. */
module ReferenceCases {
  import opened Text
  import opened Tokenizer
  import opened Gaps
  import opened Fitter
  import opened Splitter
  import opened LineAdjustment

  /** A round in which `fit_strs` takes the first `k` tokens: the greedy
      prefix fits and one more token would not. */
  lemma FittedRound(ts: seq<seq<char>>, k: nat, lineWidth: nat)
    requires lineWidth >= 1 && 1 <= k <= |ts|
    requires Fits(ts[..k], lineWidth)
    requires k < |ts| ==> !Fits(ts[..k + 1], lineWidth)
    ensures OutputLines(ts, lineWidth) == [FittedLine(ts[..k], lineWidth)] + OutputLines(ts[k..], lineWidth)
  {
    GreedyIsLongest(ts, k, lineWidth);
  }

  /** A round in which the next token is longer than the line and goes to
      the splitter. */
  lemma OversizedRound(ts: seq<seq<char>>, lineWidth: nat)
    requires lineWidth >= 1 && ts != [] && |ts[0]| > lineWidth
    ensures OutputLines(ts, lineWidth) == Chunks(ts[0], lineWidth) + OutputLines(ts[1..], lineWidth)
  {
    assert ts[..1] == [ts[0]] && ts[..1][..0] == [];
    assert SumLen(ts[..1]) == |ts[0]|;
    GreedyIsLongest(ts, 0, lineWidth);
  }

  /** A round that puts the words `line` on one line, when the next token
      would not fit beside them. */
  lemma FittedRoundAt(line: seq<seq<char>>, rest: seq<seq<char>>, lineWidth: nat)
    requires lineWidth >= 1 && line != [] && Fits(line, lineWidth)
    requires rest != [] ==> !Fits(line + [rest[0]], lineWidth)
    ensures OutputLines(line + rest, lineWidth) == [FittedLine(line, lineWidth)] + OutputLines(rest, lineWidth)
  {
    var ts := line + rest;
    var k := |line|;
    assert ts[..k] == line && ts[k..] == rest;
    if rest != [] {
      assert ts[..k + 1] == line + [rest[0]];
    }
    FittedRound(ts, k, lineWidth);
  }

  /** A round that hands the token `t`, too long for a line, to the
      splitter. */
  lemma OversizedRoundAt(t: seq<char>, rest: seq<seq<char>>, lineWidth: nat)
    requires lineWidth >= 1 && |t| > lineWidth
    ensures OutputLines([t] + rest, lineWidth) == Chunks(t, lineWidth) + OutputLines(rest, lineWidth)
  {
    OversizedRound([t] + rest, lineWidth);
    assert ([t] + rest)[1..] == rest;
  }

  /** A lone word is followed by all of the free space. */
  lemma OneWordLine(a: seq<char>, lineWidth: nat)
    requires |a| <= lineWidth
    ensures Fits([a], lineWidth)
    ensures FittedLine([a], lineWidth) == a + Spaces(lineWidth - |a|)
  {
    assert [a][..0] == [];
    assert SumLen([a]) == |a|;
    assert [] + a == a;
  }

  /** Two words are pushed to the two ends of the line. */
  lemma TwoWordLine(a: seq<char>, b: seq<char>, lineWidth: nat)
    requires |a| + |b| + 1 <= lineWidth
    ensures Fits([a, b], lineWidth)
    ensures FittedLine([a, b], lineWidth) == a + Spaces(lineWidth - |a| - |b|) + b
  {
    OneWordLine(a, lineWidth);
    SumLenSnoc([a], b);
    assert [a] + [b] == [a, b];
    var g := Gaps.Gaps(2, |a| + |b|, lineWidth);
    assert g.tailGapSize == lineWidth - |a| - |b|;
    assert [a, b][..1] == [a];
    assert RenderPrefix([a, b], 1, g) == [] + a + Spaces(g.tailGapSize);
    assert [] + a == a;
    assert Spaces(0) == [];
  }

  /** A full piece of the splitter. */
  lemma ChunksFull(p: seq<char>, rest: seq<char>, lineWidth: nat)
    requires |p| == lineWidth >= 1 && rest != []
    ensures Chunks(p + rest, lineWidth) == [p] + Chunks(rest, lineWidth)
  {
    assert (p + rest)[..lineWidth] == p && (p + rest)[lineWidth..] == rest;
  }

  /** The last, padded piece of the splitter. */
  lemma ChunksShort(p: seq<char>, lineWidth: nat)
    requires 1 <= |p| <= lineWidth
    ensures Chunks(p, lineWidth) == [p + Spaces(lineWidth - |p|)]
  {
  }

  /** A leading space separates nothing. */
  lemma TokensSkipSpace(s: seq<char>)
    ensures Tokens([' '] + s) == Tokens(s)
  {
    assert ([' '] + s)[1..] == s;
  }

  /** A text that is one word is its only token. */
  lemma WordTokens(t: seq<char>)
    requires IsWord(t)
    ensures Tokens(t) == [t]
  {
    TokensOfWordThen(t, []);
    assert t + [] == t;
  }

  /** The next token does not fit beside the words `line`. */
  lemma Overflows(line: seq<seq<char>>, t: seq<char>, lineWidth: nat)
    requires SumLen(line) + |t| + |line| > lineWidth
    ensures !Fits(line + [t], lineWidth)
  {
    SumLenSnoc(line, t);
  }

  /** A round that puts one word on a line of its own. */
  lemma OneWordRound(a: seq<char>, rest: seq<seq<char>>, lineWidth: nat)
    requires 1 <= |a| <= lineWidth
    requires rest != [] ==> |a| + 1 + |rest[0]| > lineWidth
    ensures OutputLines([a] + rest, lineWidth) == [a + Spaces(lineWidth - |a|)] + OutputLines(rest, lineWidth)
  {
    OneWordLine(a, lineWidth);
    if rest != [] {
      Overflows([a], rest[0], lineWidth);
    }
    FittedRoundAt([a], rest, lineWidth);
  }

  /** A round that puts two words on a line. */
  lemma TwoWordRound(a: seq<char>, b: seq<char>, rest: seq<seq<char>>, lineWidth: nat)
    requires |a| + |b| + 1 <= lineWidth
    requires rest != [] ==> |a| + |b| + 2 + |rest[0]| > lineWidth
    ensures OutputLines([a, b] + rest, lineWidth)
            == [a + Spaces(lineWidth - |a| - |b|) + b] + OutputLines(rest, lineWidth)
  {
    TwoWordLine(a, b, lineWidth);
    if rest != [] {
      Overflows([a, b], rest[0], lineWidth);
    }
    FittedRoundAt([a, b], rest, lineWidth);
  }

  // src/lib.rs:179, a token longer than the line is cut into pieces of the
  // line width, the last one padded.

  lemma ConsecteturIsWord()
    ensures IsWord("consectetur")
  {
  }

  lemma ConsecteturChunks()
    ensures Chunks("consectetur", 4) == ["cons", "ecte", "tur "]
  {
    ChunksFull("cons", "ectetur", 4);
    assert "cons" + "ectetur" == "consectetur";
    ChunksFull("ecte", "tur", 4);
    assert "ecte" + "tur" == "ectetur";
    ChunksShort("tur", 4);
    assert "tur" + Spaces(1) == "tur ";
  }

  lemma ConsecteturLines()
    ensures OutputLines(["consectetur"], 4) == ["cons", "ecte", "tur "]
  {
    OversizedRoundAt("consectetur", [], 4);
    ConsecteturChunks();
  }

  lemma Consectetur()
    ensures Justified("consectetur", 4) == "cons\necte\ntur "
  {
    calc {
      Justified("consectetur", 4);
      { ConsecteturIsWord(); WordTokens("consectetur"); }
      JoinLines(OutputLines(["consectetur"], 4));
      { ConsecteturLines(); }
      JoinLines(["cons", "ecte", "tur "]);
      "cons\necte\ntur ";
    }
  }

  // src/lib.rs:180, a lone word is followed by all of the free space.

  lemma PrivetIsWord()
    ensures IsWord("Привет")
  {
  }

  lemma PrivetLines()
    ensures OutputLines(["Привет"], 12) == ["Привет      "]
  {
    OneWordRound("Привет", [], 12);
    assert "Привет" + Spaces(6) == "Привет      ";
  }

  lemma Privet()
    ensures Justified("Привет", 12) == "Привет      "
  {
    calc {
      Justified("Привет", 12);
      { PrivetIsWord(); WordTokens("Привет"); }
      JoinLines(OutputLines(["Привет"], 12));
      { PrivetLines(); }
      JoinLines(["Привет      "]);
      "Привет      ";
    }
  }

  // src/lib.rs:181, oversized tokens between justified lines; the input is
  // the words joined by single spaces, the expected string its lines joined
  // by '\n'.

  lemma EncodingWords()
    ensures AllWords(["Поддержка", "кодировки", "utf-8", "в", "коде"])
  {
  }

  /** The rounds of the driving loop for words of the lengths in this
      test. */
  lemma EncodingLayout(t1: seq<char>, t2: seq<char>, t3: seq<char>, t4: seq<char>, t5: seq<char>)
    requires |t1| == 9 && |t2| == 9 && |t3| == 5 && |t4| == 1 && |t5| == 4
    ensures OutputLines([t1, t2, t3, t4, t5], 8)
            == Chunks(t1, 8) + (Chunks(t2, 8) + ([t3 + Spaces(2) + t4] + ([t5 + Spaces(4)] + [])))
  {
    assert [t1, t2, t3, t4, t5] == [t1] + ([t2] + ([t3, t4] + ([t5] + [])));
    OversizedRoundAt(t1, [t2] + ([t3, t4] + ([t5] + [])), 8);
    OversizedRoundAt(t2, [t3, t4] + ([t5] + []), 8);
    TwoWordRound(t3, t4, [t5] + [], 8);
    OneWordRound(t5, [], 8);
  }

  /** A token at most two lines long is cut into one full piece and one
      padded piece. */
  lemma TwoChunks(p: seq<char>, q: seq<char>, lineWidth: nat)
    requires |p| == lineWidth && 1 <= |q| <= lineWidth
    ensures Chunks(p + q, lineWidth) == [p, q + Spaces(lineWidth - |q|)]
  {
    ChunksFull(p, q, lineWidth);
    ChunksShort(q, lineWidth);
  }

  lemma EncodingFlat()
    ensures Chunks("Поддержка", 8) + (Chunks("кодировки", 8) + (["utf-8" + Spaces(2) + "в"] + (["коде" + Spaces(4)] + [])))
            == ["Поддержк", "а       ", "кодировк", "и       ", "utf-8  в", "коде    "]
  {
    assert "Поддержк" + "а" == "Поддержка";
    TwoChunks("Поддержк", "а", 8);
    assert "а" + Spaces(7) == "а       ";
    assert "кодировк" + "и" == "кодировки";
    TwoChunks("кодировк", "и", 8);
    assert "и" + Spaces(7) == "и       ";
    assert "utf-8" + Spaces(2) + "в" == "utf-8  в";
    assert "коде" + Spaces(4) == "коде    ";
  }

  lemma Encoding()
    ensures Justified(Spaced(["Поддержка", "кодировки", "utf-8", "в", "коде"]), 8)
            == JoinLines(["Поддержк", "а       ", "кодировк", "и       ", "utf-8  в", "коде    "])
  {
    calc {
      Justified(Spaced(["Поддержка", "кодировки", "utf-8", "в", "коде"]), 8);
      { EncodingWords(); TokensOfSpaced(["Поддержка", "кодировки", "utf-8", "в", "коде"]); }
      JoinLines(OutputLines(["Поддержка", "кодировки", "utf-8", "в", "коде"], 8));
      { EncodingLayout("Поддержка", "кодировки", "utf-8", "в", "коде"); }
      JoinLines(Chunks("Поддержка", 8) + (Chunks("кодировки", 8) + (["utf-8" + Spaces(2) + "в"] + (["коде" + Spaces(4)] + []))));
      { EncodingFlat(); }
      JoinLines(["Поддержк", "а       ", "кодировк", "и       ", "utf-8  в", "коде    "]);
    }
  }
  // src/lib.rs:182, two words to a line pushed to its edges.

  lemma PangramWords()
    ensures AllWords(["Съешь", "ещё", "этих", "мягких", "французских", "булок,", "да", "выпей", "чаю"])
  {
  }

  /** The rounds of the driving loop for words of the lengths in this
      test. */
  lemma PangramLayout(t1: seq<char>, t2: seq<char>, t3: seq<char>, t4: seq<char>, t5: seq<char>, t6: seq<char>, t7: seq<char>, t8: seq<char>, t9: seq<char>)
    requires |t1| == 5 && |t2| == 3 && |t3| == 4 && |t4| == 6 && |t5| == 11 && |t6| == 6 && |t7| == 2 && |t8| == 5 && |t9| == 3
    ensures OutputLines([t1, t2, t3, t4, t5, t6, t7, t8, t9], 12)
            == [t1 + Spaces(4) + t2] + ([t3 + Spaces(2) + t4] + ([t5 + Spaces(1)] + ([t6 + Spaces(4) + t7] + ([t8 + Spaces(4) + t9] + []))))
  {
    assert [t1, t2, t3, t4, t5, t6, t7, t8, t9] == [t1, t2] + ([t3, t4] + ([t5] + ([t6, t7] + ([t8, t9] + []))));
    TwoWordRound(t1, t2, [t3, t4] + ([t5] + ([t6, t7] + ([t8, t9] + []))), 12);
    TwoWordRound(t3, t4, [t5] + ([t6, t7] + ([t8, t9] + [])), 12);
    OneWordRound(t5, [t6, t7] + ([t8, t9] + []), 12);
    TwoWordRound(t6, t7, [t8, t9] + [], 12);
    TwoWordRound(t8, t9, [], 12);
  }

  lemma PangramFlat()
    ensures ["Съешь" + Spaces(4) + "ещё"] + (["этих" + Spaces(2) + "мягких"] + (["французских" + Spaces(1)] + (["булок," + Spaces(4) + "да"] + (["выпей" + Spaces(4) + "чаю"] + []))))
            == ["Съешь    ещё", "этих  мягких", "французских ", "булок,    да", "выпей    чаю"]
  {
    assert "Съешь" + Spaces(4) + "ещё" == "Съешь    ещё";
    assert "этих" + Spaces(2) + "мягких" == "этих  мягких";
    assert "французских" + Spaces(1) == "французских ";
    assert "булок," + Spaces(4) + "да" == "булок,    да";
    assert "выпей" + Spaces(4) + "чаю" == "выпей    чаю";
  }

  lemma Pangram()
    ensures Justified(Spaced(["Съешь", "ещё", "этих", "мягких", "французских", "булок,", "да", "выпей", "чаю"]), 12)
            == JoinLines(["Съешь    ещё", "этих  мягких", "французских ", "булок,    да", "выпей    чаю"])
  {
    calc {
      Justified(Spaced(["Съешь", "ещё", "этих", "мягких", "французских", "булок,", "да", "выпей", "чаю"]), 12);
      { PangramWords(); TokensOfSpaced(["Съешь", "ещё", "этих", "мягких", "французских", "булок,", "да", "выпей", "чаю"]); }
      JoinLines(OutputLines(["Съешь", "ещё", "этих", "мягких", "французских", "булок,", "да", "выпей", "чаю"], 12));
      { PangramLayout("Съешь", "ещё", "этих", "мягких", "французских", "булок,", "да", "выпей", "чаю"); }
      JoinLines(["Съешь" + Spaces(4) + "ещё"] + (["этих" + Spaces(2) + "мягких"] + (["французских" + Spaces(1)] + (["булок," + Spaces(4) + "да"] + (["выпей" + Spaces(4) + "чаю"] + [])))));
      { PangramFlat(); }
      JoinLines(["Съешь    ещё", "этих  мягких", "французских ", "булок,    да", "выпей    чаю"]);
    }
  }
  // src/lib.rs:183-184, emoji and a run of two spaces, at widths 1 and 3.

  lemma EmojiWords()
    ensures AllWords(["🤩", "привет"]) && AllWords(["💨", "hello"])
  {
  }

  lemma EmojiSpaced()
    ensures Spaced(["🤩", "привет"]) == "🤩 привет"
    ensures Spaced(["💨", "hello"]) == "💨 hello"
  {
  }

  lemma EmojiFirstTokens()
    ensures Tokens("🤩 привет") == ["🤩", "привет"]
  {
    EmojiWords();
    EmojiSpaced();
    TokensOfSpaced(["🤩", "привет"]);
  }

  lemma EmojiLastTokens()
    ensures Tokens("  💨 hello") == ["💨", "hello"]
  {
    EmojiWords();
    EmojiSpaced();
    TokensOfSpaced(["💨", "hello"]);
    TokensSkipSpace(" 💨 hello");
    TokensSkipSpace("💨 hello");
  }

  /** A run of several spaces separates tokens like one space does. */
  lemma EmojiTokens()
    ensures Tokens("🤩 привет  💨 hello") == ["🤩", "привет", "💨", "hello"]
  {
    calc {
      Tokens("🤩 привет  💨 hello");
      { assert "🤩 привет  💨 hello" == "🤩 привет" + "  💨 hello"; }
      Tokens("🤩 привет" + "  💨 hello");
      { TokensAppend("🤩 привет", "  💨 hello"); }
      Tokens("🤩 привет") + Tokens("  💨 hello");
      { EmojiFirstTokens(); EmojiLastTokens(); }
      ["🤩", "привет"] + ["💨", "hello"];
      ["🤩", "привет", "💨", "hello"];
    }
  }

  /** The rounds of the driving loop for words of the lengths in this
      test. */
  lemma EmojiAt1Layout(t1: seq<char>, t2: seq<char>, t3: seq<char>, t4: seq<char>)
    requires |t1| == 1 && |t2| == 6 && |t3| == 1 && |t4| == 5
    ensures OutputLines([t1, t2, t3, t4], 1)
            == [t1 + Spaces(0)] + (Chunks(t2, 1) + ([t3 + Spaces(0)] + (Chunks(t4, 1) + [])))
  {
    assert [t1, t2, t3, t4] == [t1] + ([t2] + ([t3] + ([t4] + [])));
    OneWordRound(t1, [t2] + ([t3] + ([t4] + [])), 1);
    OversizedRoundAt(t2, [t3] + ([t4] + []), 1);
    OneWordRound(t3, [t4] + [], 1);
    OversizedRoundAt(t4, [], 1);
  }

  lemma EmojiAt1Chunks0()
    ensures Chunks("привет", 1) == ["п", "р", "и", "в", "е", "т"]
  {
    ChunksFull("п", "ривет", 1);
    assert "п" + "ривет" == "привет";
    ChunksFull("р", "ивет", 1);
    assert "р" + "ивет" == "ривет";
    ChunksFull("и", "вет", 1);
    assert "и" + "вет" == "ивет";
    ChunksFull("в", "ет", 1);
    assert "в" + "ет" == "вет";
    ChunksFull("е", "т", 1);
    assert "е" + "т" == "ет";
    ChunksShort("т", 1);
    assert "т" + Spaces(0) == "т";
  }

  lemma EmojiAt1Chunks1()
    ensures Chunks("hello", 1) == ["h", "e", "l", "l", "o"]
  {
    ChunksFull("h", "ello", 1);
    assert "h" + "ello" == "hello";
    ChunksFull("e", "llo", 1);
    assert "e" + "llo" == "ello";
    ChunksFull("l", "lo", 1);
    assert "l" + "lo" == "llo";
    ChunksFull("l", "o", 1);
    assert "l" + "o" == "lo";
    ChunksShort("o", 1);
    assert "o" + Spaces(0) == "o";
  }

  lemma EmojiAt1Flat()
    ensures ["🤩" + Spaces(0)] + (Chunks("привет", 1) + (["💨" + Spaces(0)] + (Chunks("hello", 1) + [])))
            == ["🤩", "п", "р", "и", "в", "е", "т", "💨", "h", "e", "l", "l", "o"]
  {
    EmojiAt1Chunks0();
    EmojiAt1Chunks1();
    assert "🤩" + Spaces(0) == "🤩";
    assert "💨" + Spaces(0) == "💨";
  }

  lemma EmojiAt1()
    ensures Justified("🤩 привет  💨 hello", 1)
            == JoinLines(["🤩", "п", "р", "и", "в", "е", "т", "💨", "h", "e", "l", "l", "o"])
  {
    calc {
      Justified("🤩 привет  💨 hello", 1);
      { EmojiTokens(); }
      JoinLines(OutputLines(["🤩", "привет", "💨", "hello"], 1));
      { EmojiAt1Layout("🤩", "привет", "💨", "hello"); }
      JoinLines(["🤩" + Spaces(0)] + (Chunks("привет", 1) + (["💨" + Spaces(0)] + (Chunks("hello", 1) + []))));
      { EmojiAt1Flat(); }
      JoinLines(["🤩", "п", "р", "и", "в", "е", "т", "💨", "h", "e", "l", "l", "o"]);
    }
  }
  /** The rounds of the driving loop for words of the lengths in this
      test. */
  lemma EmojiAt3Layout(t1: seq<char>, t2: seq<char>, t3: seq<char>, t4: seq<char>)
    requires |t1| == 1 && |t2| == 6 && |t3| == 1 && |t4| == 5
    ensures OutputLines([t1, t2, t3, t4], 3)
            == [t1 + Spaces(2)] + (Chunks(t2, 3) + ([t3 + Spaces(2)] + (Chunks(t4, 3) + [])))
  {
    assert [t1, t2, t3, t4] == [t1] + ([t2] + ([t3] + ([t4] + [])));
    OneWordRound(t1, [t2] + ([t3] + ([t4] + [])), 3);
    OversizedRoundAt(t2, [t3] + ([t4] + []), 3);
    OneWordRound(t3, [t4] + [], 3);
    OversizedRoundAt(t4, [], 3);
  }

  lemma EmojiAt3Chunks0()
    ensures Chunks("привет", 3) == ["при", "вет"]
  {
    ChunksFull("при", "вет", 3);
    assert "при" + "вет" == "привет";
    ChunksShort("вет", 3);
    assert "вет" + Spaces(0) == "вет";
  }

  lemma EmojiAt3Chunks1()
    ensures Chunks("hello", 3) == ["hel", "lo "]
  {
    ChunksFull("hel", "lo", 3);
    assert "hel" + "lo" == "hello";
    ChunksShort("lo", 3);
    assert "lo" + Spaces(1) == "lo ";
  }

  lemma EmojiAt3Flat()
    ensures ["🤩" + Spaces(2)] + (Chunks("привет", 3) + (["💨" + Spaces(2)] + (Chunks("hello", 3) + [])))
            == ["🤩  ", "при", "вет", "💨  ", "hel", "lo "]
  {
    EmojiAt3Chunks0();
    EmojiAt3Chunks1();
    assert "🤩" + Spaces(2) == "🤩  ";
    assert "💨" + Spaces(2) == "💨  ";
  }

  lemma EmojiAt3()
    ensures Justified("🤩 привет  💨 hello", 3)
            == JoinLines(["🤩  ", "при", "вет", "💨  ", "hel", "lo "])
  {
    calc {
      Justified("🤩 привет  💨 hello", 3);
      { EmojiTokens(); }
      JoinLines(OutputLines(["🤩", "привет", "💨", "hello"], 3));
      { EmojiAt3Layout("🤩", "привет", "💨", "hello"); }
      JoinLines(["🤩" + Spaces(2)] + (Chunks("привет", 3) + (["💨" + Spaces(2)] + (Chunks("hello", 3) + []))));
      { EmojiAt3Flat(); }
      JoinLines(["🤩  ", "при", "вет", "💨  ", "hel", "lo "]);
    }
  }
  // The gaps do not always fill the line: four one-codepoint words on a line
  // of 8 leave a remainder of 1 over 3 gaps, and the gaps come to 1, 1 and 1.

  lemma FourSumLen(a: seq<char>, b: seq<char>, c: seq<char>, d: seq<char>)
    ensures SumLen([a, b, c, d]) == |a| + |b| + |c| + |d|
  {
    SumLenSnoc([a], b);
    SumLenSnoc([a, b], c);
    SumLenSnoc([a, b, c], d);
    assert [a] + [b] == [a, b] && [a, b] + [c] == [a, b, c] && [a, b, c] + [d] == [a, b, c, d];
    assert [a][..0] == [];
  }

  /** Four one-codepoint words are rendered with single spaces, 7 wide. */
  lemma ShortLineText(a: seq<char>, b: seq<char>, c: seq<char>, d: seq<char>)
    requires |a| == 1 && |b| == 1 && |c| == 1 && |d| == 1
    ensures Fits([a, b, c, d], 8)
    ensures FittedLine([a, b, c, d], 8) == a + Spaces(1) + b + Spaces(1) + c + Spaces(1) + d
  {
    FourSumLen(a, b, c, d);
    var ws := [a, b, c, d];
    var g := GapInfo(1, 1);
    assert Gaps.Gaps(4, 4, 8) == g;
    assert RenderPrefix(ws, 1, g) == a + Spaces(1) by {
      assert RenderPrefix(ws, 1, g) == [] + a + Spaces(1);
      assert [] + a == a;
    }
    assert RenderPrefix(ws, 4, g) == a + Spaces(1) + b + Spaces(1) + c + Spaces(1) + d by {
      assert RenderPrefix(ws, 4, g) == RenderPrefix(ws, 1, g) + b + Spaces(1) + c + Spaces(1) + d + Spaces(0);
      assert d + Spaces(0) == d;
    }
  }

  lemma ShortLineLayout(a: seq<char>, b: seq<char>, c: seq<char>, d: seq<char>)
    requires |a| == 1 && |b| == 1 && |c| == 1 && |d| == 1
    ensures OutputLines([a, b, c, d], 8) == [a + Spaces(1) + b + Spaces(1) + c + Spaces(1) + d]
  {
    ShortLineText(a, b, c, d);
    FittedRoundAt([a, b, c, d], [], 8);
    assert [a, b, c, d] + [] == [a, b, c, d];
  }

  lemma ShortLineWords()
    ensures AllWords(["a", "b", "c", "d"]) && Spaced(["a", "b", "c", "d"]) == "a b c d"
  {
  }

  /** The line falls one codepoint short of the width. */
  lemma ShortLine()
    ensures Justified("a b c d", 8) == "a b c d"
    ensures |Justified("a b c d", 8)| == 7
  {
    calc {
      Justified("a b c d", 8);
      { ShortLineWords(); TokensOfSpaced(["a", "b", "c", "d"]); }
      JoinLines(OutputLines(["a", "b", "c", "d"], 8));
      { ShortLineLayout("a", "b", "c", "d"); }
      JoinLines(["a" + Spaces(1) + "b" + Spaces(1) + "c" + Spaces(1) + "d"]);
      { assert "a" + Spaces(1) + "b" + Spaces(1) + "c" + Spaces(1) + "d" == "a b c d"; }
      JoinLines(["a b c d"]);
      "a b c d";
    }
  }

  // The equal-length tests of src/lib.rs check that every line of
  // `result.lines()` is exactly the width. Each round below keeps that for
  // the lines after it.

  lemma OversizedExact(t: seq<char>, rest: seq<seq<char>>, lineWidth: nat)
    requires lineWidth >= 1 && |t| > lineWidth
    requires LinesExact(OutputLines(rest, lineWidth), lineWidth)
    ensures LinesExact(OutputLines([t] + rest, lineWidth), lineWidth)
  {
    OversizedRoundAt(t, rest, lineWidth);
    ChunksWidth(t, lineWidth);
    LinesAppend(Chunks(t, lineWidth), OutputLines(rest, lineWidth), lineWidth);
  }

  lemma OneWordExact(a: seq<char>, rest: seq<seq<char>>, lineWidth: nat)
    requires 1 <= |a| <= lineWidth
    requires rest != [] ==> |a| + 1 + |rest[0]| > lineWidth
    requires LinesExact(OutputLines(rest, lineWidth), lineWidth)
    ensures LinesExact(OutputLines([a] + rest, lineWidth), lineWidth)
  {
    OneWordRound(a, rest, lineWidth);
    LinesAppend([a + Spaces(lineWidth - |a|)], OutputLines(rest, lineWidth), lineWidth);
  }

  lemma TwoWordExact(a: seq<char>, b: seq<char>, rest: seq<seq<char>>, lineWidth: nat)
    requires |a| + |b| + 1 <= lineWidth
    requires rest != [] ==> |a| + |b| + 2 + |rest[0]| > lineWidth
    requires LinesExact(OutputLines(rest, lineWidth), lineWidth)
    ensures LinesExact(OutputLines([a, b] + rest, lineWidth), lineWidth)
  {
    TwoWordRound(a, b, rest, lineWidth);
    LinesAppend([a + Spaces(lineWidth - |a| - |b|) + b], OutputLines(rest, lineWidth), lineWidth);
  }

  /** Three words fill the line when their free space splits evenly over
      the two gaps. */
  lemma ThreeWordExact(a: seq<char>, b: seq<char>, c: seq<char>, rest: seq<seq<char>>, lineWidth: nat)
    requires |a| + |b| + |c| + 2 <= lineWidth && (lineWidth - |a| - |b| - |c|) % 2 == 0
    requires rest != [] ==> |a| + |b| + |c| + 3 + |rest[0]| > lineWidth
    requires LinesExact(OutputLines(rest, lineWidth), lineWidth)
    ensures LinesExact(OutputLines([a, b, c] + rest, lineWidth), lineWidth)
  {
    OneWordLine(a, lineWidth);
    SumLenSnoc([a], b);
    assert [a] + [b] == [a, b];
    SumLenSnoc([a, b], c);
    assert [a, b] + [c] == [a, b, c];
    if rest != [] {
      Overflows([a, b, c], rest[0], lineWidth);
    }
    FittedRoundAt([a, b, c], rest, lineWidth);
    FittedLineWidth([a, b, c], lineWidth);
    LinesAppend([FittedLine([a, b, c], lineWidth)], OutputLines(rest, lineWidth), lineWidth);
  }


  // src/lib.rs:196, the first equal-length test, at width 5: one word to a
  // line or a token cut by the splitter.

  lemma BullWords()
    ensures AllWords(["Бык", "тупогуб,", "тупогубенький", "бычок,", "у", "быка", "губа", "тупа."])
  {
  }

  /** Every output line is exactly the width for words of the lengths in
      this test. */
  lemma BullAt5Layout(t1: seq<char>, t2: seq<char>, t3: seq<char>, t4: seq<char>, t5: seq<char>, t6: seq<char>, t7: seq<char>, t8: seq<char>)
    requires |t1| == 3 && |t2| == 8 && |t3| == 13 && |t4| == 6 && |t5| == 1 && |t6| == 4 && |t7| == 4 && |t8| == 5
    ensures LinesExact(OutputLines([t1, t2, t3, t4, t5, t6, t7, t8], 5), 5)
  {
    assert [t1, t2, t3, t4, t5, t6, t7, t8] == [t1] + ([t2] + ([t3] + ([t4] + ([t5] + ([t6] + ([t7] + ([t8] + [])))))));
    OneWordExact(t8, [], 5);
    OneWordExact(t7, [t8] + [], 5);
    OneWordExact(t6, [t7] + ([t8] + []), 5);
    OneWordExact(t5, [t6] + ([t7] + ([t8] + [])), 5);
    OversizedExact(t4, [t5] + ([t6] + ([t7] + ([t8] + []))), 5);
    OversizedExact(t3, [t4] + ([t5] + ([t6] + ([t7] + ([t8] + [])))), 5);
    OversizedExact(t2, [t3] + ([t4] + ([t5] + ([t6] + ([t7] + ([t8] + []))))), 5);
    OneWordExact(t1, [t2] + ([t3] + ([t4] + ([t5] + ([t6] + ([t7] + ([t8] + [])))))), 5);
  }

  lemma BullAt5()
    ensures var lines := TextLines(Justified(Spaced(["Бык", "тупогуб,", "тупогубенький", "бычок,", "у", "быка", "губа", "тупа."]), 5));
            forall i :: 0 <= i < |lines| ==> |lines[i]| == 5
  {
    BullWords();
    TokensOfSpaced(["Бык", "тупогуб,", "тупогубенький", "бычок,", "у", "быка", "губа", "тупа."]);
    BullAt5Layout("Бык", "тупогуб,", "тупогубенький", "бычок,", "у", "быка", "губа", "тупа.");
    JustifiedLines(Spaced(["Бык", "тупогуб,", "тупогубенький", "бычок,", "у", "быка", "губа", "тупа."]), 5);
  }

  // src/lib.rs:197-198, the second and third equal-length tests, at widths
  // 18 and 6: at 18 three-word lines whose free space splits evenly.

  lemma CaramelWords()
    ensures AllWords(["Вез", "корабль", "карамель,", "наскочил", "корабль", "на", "мель,", "матросы", "две", "недели", "карамель", "на", "мели", "ели."])
  {
  }

  /** Every output line is exactly the width for words of the lengths in
      this test. */
  lemma CaramelAt18Layout(t1: seq<char>, t2: seq<char>, t3: seq<char>, t4: seq<char>, t5: seq<char>, t6: seq<char>, t7: seq<char>, t8: seq<char>, t9: seq<char>, t10: seq<char>, t11: seq<char>, t12: seq<char>, t13: seq<char>, t14: seq<char>)
    requires |t1| == 3 && |t2| == 7 && |t3| == 9 && |t4| == 8 && |t5| == 7 && |t6| == 2 && |t7| == 5 && |t8| == 7 && |t9| == 3 && |t10| == 6 && |t11| == 8 && |t12| == 2 && |t13| == 4 && |t14| == 4
    ensures LinesExact(OutputLines([t1, t2, t3, t4, t5, t6, t7, t8, t9, t10, t11, t12, t13, t14], 18), 18)
  {
    assert [t1, t2, t3, t4, t5, t6, t7, t8, t9, t10, t11, t12, t13, t14] == [t1, t2] + ([t3, t4] + ([t5, t6, t7] + ([t8, t9, t10] + ([t11, t12, t13] + ([t14] + [])))));
    OneWordExact(t14, [], 18);
    ThreeWordExact(t11, t12, t13, [t14] + [], 18);
    ThreeWordExact(t8, t9, t10, [t11, t12, t13] + ([t14] + []), 18);
    ThreeWordExact(t5, t6, t7, [t8, t9, t10] + ([t11, t12, t13] + ([t14] + [])), 18);
    TwoWordExact(t3, t4, [t5, t6, t7] + ([t8, t9, t10] + ([t11, t12, t13] + ([t14] + []))), 18);
    TwoWordExact(t1, t2, [t3, t4] + ([t5, t6, t7] + ([t8, t9, t10] + ([t11, t12, t13] + ([t14] + [])))), 18);
  }

  lemma CaramelAt18()
    ensures var lines := TextLines(Justified(Spaced(["Вез", "корабль", "карамель,", "наскочил", "корабль", "на", "мель,", "матросы", "две", "недели", "карамель", "на", "мели", "ели."]), 18));
            forall i :: 0 <= i < |lines| ==> |lines[i]| == 18
  {
    CaramelWords();
    TokensOfSpaced(["Вез", "корабль", "карамель,", "наскочил", "корабль", "на", "мель,", "матросы", "две", "недели", "карамель", "на", "мели", "ели."]);
    CaramelAt18Layout("Вез", "корабль", "карамель,", "наскочил", "корабль", "на", "мель,", "матросы", "две", "недели", "карамель", "на", "мели", "ели.");
    JustifiedLines(Spaced(["Вез", "корабль", "карамель,", "наскочил", "корабль", "на", "мель,", "матросы", "две", "недели", "карамель", "на", "мели", "ели."]), 18);
  }

  /** Every output line is exactly the width for words of the lengths in
      this test. */
  lemma CaramelAt6Layout(t1: seq<char>, t2: seq<char>, t3: seq<char>, t4: seq<char>, t5: seq<char>, t6: seq<char>, t7: seq<char>, t8: seq<char>, t9: seq<char>, t10: seq<char>, t11: seq<char>, t12: seq<char>, t13: seq<char>, t14: seq<char>)
    requires |t1| == 3 && |t2| == 7 && |t3| == 9 && |t4| == 8 && |t5| == 7 && |t6| == 2 && |t7| == 5 && |t8| == 7 && |t9| == 3 && |t10| == 6 && |t11| == 8 && |t12| == 2 && |t13| == 4 && |t14| == 4
    ensures LinesExact(OutputLines([t1, t2, t3, t4, t5, t6, t7, t8, t9, t10, t11, t12, t13, t14], 6), 6)
  {
    assert [t1, t2, t3, t4, t5, t6, t7, t8, t9, t10, t11, t12, t13, t14] == [t1] + ([t2] + ([t3] + ([t4] + ([t5] + ([t6] + ([t7] + ([t8] + ([t9] + ([t10] + ([t11] + ([t12] + ([t13] + ([t14] + [])))))))))))));
    OneWordExact(t14, [], 6);
    OneWordExact(t13, [t14] + [], 6);
    OneWordExact(t12, [t13] + ([t14] + []), 6);
    OversizedExact(t11, [t12] + ([t13] + ([t14] + [])), 6);
    OneWordExact(t10, [t11] + ([t12] + ([t13] + ([t14] + []))), 6);
    OneWordExact(t9, [t10] + ([t11] + ([t12] + ([t13] + ([t14] + [])))), 6);
    OversizedExact(t8, [t9] + ([t10] + ([t11] + ([t12] + ([t13] + ([t14] + []))))), 6);
    OneWordExact(t7, [t8] + ([t9] + ([t10] + ([t11] + ([t12] + ([t13] + ([t14] + [])))))), 6);
    OneWordExact(t6, [t7] + ([t8] + ([t9] + ([t10] + ([t11] + ([t12] + ([t13] + ([t14] + []))))))), 6);
    OversizedExact(t5, [t6] + ([t7] + ([t8] + ([t9] + ([t10] + ([t11] + ([t12] + ([t13] + ([t14] + [])))))))), 6);
    OversizedExact(t4, [t5] + ([t6] + ([t7] + ([t8] + ([t9] + ([t10] + ([t11] + ([t12] + ([t13] + ([t14] + []))))))))), 6);
    OversizedExact(t3, [t4] + ([t5] + ([t6] + ([t7] + ([t8] + ([t9] + ([t10] + ([t11] + ([t12] + ([t13] + ([t14] + [])))))))))), 6);
    OversizedExact(t2, [t3] + ([t4] + ([t5] + ([t6] + ([t7] + ([t8] + ([t9] + ([t10] + ([t11] + ([t12] + ([t13] + ([t14] + []))))))))))), 6);
    OneWordExact(t1, [t2] + ([t3] + ([t4] + ([t5] + ([t6] + ([t7] + ([t8] + ([t9] + ([t10] + ([t11] + ([t12] + ([t13] + ([t14] + [])))))))))))), 6);
  }

  lemma CaramelAt6()
    ensures var lines := TextLines(Justified(Spaced(["Вез", "корабль", "карамель,", "наскочил", "корабль", "на", "мель,", "матросы", "две", "недели", "карамель", "на", "мели", "ели."]), 6));
            forall i :: 0 <= i < |lines| ==> |lines[i]| == 6
  {
    CaramelWords();
    TokensOfSpaced(["Вез", "корабль", "карамель,", "наскочил", "корабль", "на", "мель,", "матросы", "две", "недели", "карамель", "на", "мели", "ели."]);
    CaramelAt6Layout("Вез", "корабль", "карамель,", "наскочил", "корабль", "на", "мель,", "матросы", "две", "недели", "карамель", "на", "мели", "ели.");
    JustifiedLines(Spaced(["Вез", "корабль", "карамель,", "наскочил", "корабль", "на", "мель,", "матросы", "две", "недели", "карамель", "на", "мели", "ели."]), 6);
  }
}
