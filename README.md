# line_adjustment in Dafny

A model of `transform(input, line_width)` from the Rust crate
`line_adjustment`. It is a text justifier:

- It splits the input into words: maximal runs of non-whitespace, as
  `str::split_whitespace` yields them.
- It packs the words greedily onto lines of `line_width` codepoints, reserving
  one space between each pair of words.
- It spreads the free space of each line over the gaps between its words.
- A word too long for any line is cut into pieces of `line_width` codepoints.
  The last piece is padded with spaces.
- Lines are joined by single `'\n'` characters.

Files and modules follow the functions of `src/lib.rs`:

- `text.dfy` (`Text`): strings as `seq<char>` (one element per codepoint). It
  defines `Concat`, `JoinLines` (lines joined by `'\n'`), `TextLines` (what
  `str::lines()` yields) and `DropLayout` (deletes every `' '` and `'\n'`).
- `tokenizer.dfy` (`Tokenizer`): `Tokens`, the words of a text. It has lemmas
  on what tokenizing keeps and drops.
- `gaps.dfy` (`Gaps`): `gaps` and `GapInfo`, and how much padding they give.
- `fitter.dfy` (`Fitter`): `fit_strs` as a method, proved to take the longest
  prefix of the remaining tokens that fits.
- `splitter.dfy` (`Splitter`): `split_manually` as a method, proved to emit the
  `Chunks` of a token.
- `transform.dfy` (`LineAdjustment`): the driving loop as a method, proved to
  return `Justified(input, line_width)`. It also proves what that output is
  like:
  - the words are kept in order;
  - no line is wider than the width;
  - the exact condition under which every line is exactly the width.
- `cases.dfy` (`ReferenceCases`): the expected outputs from the crate's unit
  tests, proved about `Justified`.

The peekable token iterator is modelled as an index `pos` into the token
sequence. `fit_strs` returns the words it took and the new index.
`Schedule(tokens, w)` lists the decisions of the driving loop. Each decision
is either a group of fitted words rendered as one justified line, or one
oversized token handed to the splitter. `OutputLines` gives the resulting
lines.

The crate's `equal_length_lines` test (src/lib.rs:193-211) checks that every
line of `result.lines()` is exactly `line_width` codepoints. Its doc comment
(src/lib.rs:12-13) says the last piece of a split word is padded to fill the
whole line. The code does not keep every line at the full width, and the model
follows the code. Take a line of `n >= 3` words whose free space leaves a remainder `r`
modulo `n - 1`:

- `gaps` makes the body gaps `(free - r) / (n - 2)` spaces each, and the tail
  gap `r`;
- that falls short of the free space unless `n - 2` divides `free - r`.

`Gaps.FillsLine` is the exact condition under which the line is filled.
`ReferenceCases.ShortLine` shows that `transform("a b c d", 8)` is the
7-codepoint line `"a b c d"`. What the model proves instead:

- every line is at most the width (`JustifiedLines`);
- every line is exactly the width if and only if every group of the schedule
  fills its line (`JustifiedExactWidth`);
- lines of one or two words, and lines whose free space the gaps divide evenly,
  always fill;
- at widths of at most 4 every line is exactly the width, for any input
  (`JustifiedNarrowExact`);
- the equal-length tests at widths 5, 18 and 6 hold on their inputs
  (`BullAt5`, `CaramelAt18`, `CaramelAt6`).

## Model

| member | source | states |
|---|---|---|
| Gaps.GapsEdgeCases | src/lib.rs:134-145 | no words give gaps (0, 0); a single word gets body 0 and a tail of all the free space `line_width - total_len` |
| Gaps.GapsTotal | src/lib.rs:147-164 | for n ≥ 1 words, the padding the gaps place (body gaps for all but the last two words, then the tail gap) never exceeds the free space; it equals the free space exactly when FillsLine holds (at most two words, a zero remainder, or a surplus that leaves the rest divisible by n - 2); with a zero remainder body and tail are both free / (n - 1) |
| Gaps.GapsAtLeastOne | src/lib.rs:147-164 | when the line reserves at least one space per gap, which the fitter guarantees, both gap sizes are at least 1, so words never touch |
| Fitter.LongestFit | src/lib.rs:116 | the longest prefix of the first k tokens that fits (total length plus one space per gap at most the width): it fits, and no longer prefix up to k does |
| Fitter.GreedyIsLongest | src/lib.rs:116-124 | a fitting prefix that cannot be extended by the next token is the longest fitting prefix of all |
| Fitter.FitStrs | src/lib.rs:106-127 | takes the tokens from `pos` to `next`; `total_len` is their total length; they fit the line; the next token would overflow it; the result is empty exactly when no token is left or the next one is longer than the line; the count taken is FitCount, the longest fitting prefix |
| Splitter.ChunksCons | src/lib.rs:78-99 | one round of the splitter takes the next min(remaining, line_width) codepoints and pads a short piece with line_width - available spaces |
| Splitter.ChunksShape | src/lib.rs:77-101 | every piece a token is cut into is exactly line_width codepoints; there are just enough pieces ((n-1)·w < L ≤ n·w); together they are the token followed by spaces |
| Splitter.ChunksLast | src/lib.rs:87-97 | only the last piece is padded: the others are consecutive slices of the token, and the last is its remaining codepoints followed by spaces |
| Splitter.ChunksCount | src/lib.rs:77-101 | there are ceil(L / w) pieces, and the padding is w - L mod w spaces, or none when w divides L |
| Splitter.SplitStep | src/lib.rs:78-100 | one round of the splitter at offset `elapsed` moves the next piece, min(remaining, line_width) codepoints padded to the width, from the pieces still to come to those emitted, and advances the offset by that many codepoints |
| Splitter.SplitManually | src/lib.rs:67-104 | the text emitted is the pieces of the token joined by '\n', with no newline before the first; a width of 0 is allowed only for the empty token |
| LineAdjustment.FittedLineWidth | src/lib.rs:34-46 | a justified line of words that fit is at most the width, and exactly the width iff Gaps.FillsLine holds for its word count and length |
| LineAdjustment.AppendFittedLine | src/lib.rs:35-46 | the rendering loop appends each word followed by its gap (body gaps before index n-2, the tail gap after word n-2 or after a lone word, none after the last) and so adds exactly the justified line FittedLine |
| LineAdjustment.FirstGroup | src/lib.rs:28-58 | one round's decision: the longest fitting prefix when it is non-empty, otherwise the first token alone, which is then longer than the line |
| LineAdjustment.Take | src/lib.rs:28-58 | every round consumes at least one token and no more than remain, so the loop terminates |
| LineAdjustment.Schedule | src/lib.rs:27-62 | the groups the loop makes, in order: each is of the kind the loop makes, together they hold every token exactly once in order, and there are groups exactly when there are tokens |
| LineAdjustment.OutputLinesFlat | src/lib.rs:27-62 | the output lines are the lines of the schedule's groups, one justified line per fitted group and the splitter's pieces per oversized token |
| LineAdjustment.OutputLinesShape | src/lib.rs:27-62 | every output line is between 1 and line_width codepoints and contains no '\n'; there are lines exactly when there are tokens |
| LineAdjustment.OutputLinesWords | src/lib.rs:27-62 | deleting the inserted spaces and newlines from the output lines gives back the tokens concatenated in order |
| LineAdjustment.OutputLinesExact | src/lib.rs:27-62 | every output line is exactly line_width wide iff every group of the schedule fills its lines |
| LineAdjustment.GroupLinesShape | src/lib.rs:34-59 | each round emits at least one line; its lines are within the width, hold the round's words in order, and are all exactly the width iff the group fills them |
| LineAdjustment.RoundInvariant | src/lib.rs:28-58 | after fit_strs at `pos`, the lines still to emit are those of the group it chose, then the lines of the tokens after it |
| LineAdjustment.EmitGroup | src/lib.rs:34-59 | after fit_strs, appends exactly the lines of the round's group (the justified line of the fitted words, or the splitter's pieces of the next token) and steps past the tokens that group holds |
| LineAdjustment.JustifyRound | src/lib.rs:28-61 | one loop iteration: moves the position past exactly the tokens of the next group, adds that group's lines to the emitted lines, and extends the text by a '\n' (unless it is the first round) followed by those lines joined by '\n'; so the text emitted is always the lines so far joined by '\n' |
| LineAdjustment.Transform | src/lib.rs:14-65 | returns Justified(input, line_width): "" for empty input, otherwise the output lines of the tokens joined by single '\n'; a width of 0 is allowed only when there is no token |
| LineAdjustment.JustifiedEmpty | src/lib.rs:15-17 | the result is "" exactly when the input is empty or all whitespace |
| LineAdjustment.JustifiedKeepsWords | src/lib.rs:22-62 | deleting every ' ' and '\n' from the result gives the tokens concatenated in order, which is the input with its whitespace deleted |
| LineAdjustment.JustifiedLines | src/lib.rs:14-65 | `str::lines()` of the result gives back exactly the output lines, and each is between 1 and line_width codepoints |
| LineAdjustment.JustifiedExactWidth | src/lib.rs:204-209 | every line of the result is exactly line_width codepoints iff every group of the schedule fills its lines |
| LineAdjustment.NarrowScheduleFills | src/lib.rs:199-201 | at widths 1..4 at most two words fit on a line, so every group of the schedule fills its lines |
| LineAdjustment.JustifiedNarrowExact | src/lib.rs:199-201 | at widths 1..4, for any input, every line of the result is exactly the width, as the equal-length tests check at widths 1, 4 and 3 |
| Tokenizer.TokensAreWords | src/lib.rs:22 | every token is non-empty and contains no whitespace |
| Tokenizer.TokensConcat | src/lib.rs:22 | the tokens of a text, concatenated, are its non-whitespace characters in order |
| Tokenizer.TokensEmptyIff | src/lib.rs:22 | there are no tokens exactly when every character is whitespace |
| Tokenizer.TokensAppend | src/lib.rs:22 | where the second part starts with whitespace (or is empty), the tokens of a concatenation are the tokens of the parts |
| Tokenizer.TokensOfSpaced | src/lib.rs:22 | words joined by single spaces tokenize back to the same words |
| Text.TextLinesJoin | src/lib.rs:207 | `str::lines()` of non-empty lines without '\n', joined by '\n', gives those lines back |
| ReferenceCases.Consectetur | src/lib.rs:179 | transform("consectetur", 4) == "cons\necte\ntur " |
| ReferenceCases.Privet | src/lib.rs:180 | transform("Привет", 12) == "Привет      " |
| ReferenceCases.Encoding | src/lib.rs:181 | transform of "Поддержка кодировки utf-8 в коде" at width 8 is the six lines "Поддержк", "а       ", "кодировк", "и       ", "utf-8  в", "коде    " joined by '\n' |
| ReferenceCases.Pangram | src/lib.rs:182 | transform of the pangram at width 12 is the five lines "Съешь    ещё", "этих  мягких", "французских ", "булок,    да", "выпей    чаю" joined by '\n' |
| ReferenceCases.EmojiAt1 | src/lib.rs:183 | transform("🤩 привет  💨 hello", 1) is its thirteen non-whitespace codepoints, one per line |
| ReferenceCases.EmojiAt3 | src/lib.rs:184 | transform("🤩 привет  💨 hello", 3) is "🤩  ", "при", "вет", "💨  ", "hel", "lo " joined by '\n' |
| ReferenceCases.BullAt5 | src/lib.rs:196 | every line of `transform("Бык тупогуб, тупогубенький бычок, у быка губа тупа.", 5).lines()` is exactly 5 codepoints |
| ReferenceCases.CaramelAt18 | src/lib.rs:197 | every line of the output for "Вез корабль карамель, …" at width 18 is exactly 18 codepoints; its three-word lines have free space 4, 2 and 4, which the two gaps divide evenly |
| ReferenceCases.CaramelAt6 | src/lib.rs:198 | every line of the output for the same input at width 6 is exactly 6 codepoints |
| ReferenceCases.ShortLine | src/lib.rs:151-159 | transform("a b c d", 8) == "a b c d", 7 codepoints wide: the 4 free spaces leave remainder 1 modulo 3 gaps, gaps gives body (4 - 1) / 2 = 1 and tail 1, and the line receives only 1 + 1 + 1 of them |

## Left out

- Whitespace: `Tokenizer.IsWhitespace` is the ASCII part of Unicode's
  White_Space property (tab, line feed, vertical tab, form feed, carriage
  return, space). The other Unicode whitespace codepoints, such as U+00A0 and
  U+3000, are not modelled as separators.
- UTF-8: strings are sequences of codepoints. `split_manually` walks byte
  offsets with `char_indices` and `len_utf8`. The model takes the same
  min(remaining, line_width) codepoints per round directly, and does not model
  the byte arithmetic.
- Width 0: `Transform` and `SplitManually` require `line_width >= 1` unless
  there is no token. The source panics in that case, at the `nth(available_chars
  - 1)` of src/lib.rs:84.
- Integer widths: the `u32` to `usize` cast and `usize` overflow are not modelled
  (`nat` is unbounded). The unsigned subtraction `line_width - total_len` in
  `gaps` is a precondition of `Gaps.Gaps`, which the fitter always meets.
- `Gaps.Gaps`: the function itself has no contract. Its properties are the
  lemmas `GapsEdgeCases`, `GapsTotal` and `GapsAtLeastOne`.
- Containers: the `LinkedList` of `FitResult` and the `Peekable` iterator are a
  `seq` and an index. `String::repeat` is `Text.Spaces`.
- Test output: the `println!` calls in the tests are not modelled.
- Equal-length tests: the cases at widths 1, 4 and 3 (src/lib.rs:199-201)
  are not stated on their own strings. They follow, for any input, from
  `JustifiedNarrowExact`.
- ReferenceCases.Encoding, ReferenceCases.Pangram, ReferenceCases.BullAt5,
  ReferenceCases.CaramelAt18, ReferenceCases.CaramelAt6: the inputs are written
  as their words joined by single spaces (`Spaced`), which is exactly the test
  strings. A single string literal of that length is too costly for the
  verifier to compare.
- ReferenceCases.Encoding, ReferenceCases.Pangram, ReferenceCases.EmojiAt1,
  ReferenceCases.EmojiAt3: the expected outputs are written as their lines
  joined by `'\n'` (`JoinLines`), not as one string literal.
