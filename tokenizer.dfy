/** The words of a text, as Rust's `str::split_whitespace` yields them: the
    maximal runs of non-whitespace characters, in order. */
module Tokenizer {
  import opened Text

  /** The ASCII members of Unicode's White_Space property: tab, line feed,
      vertical tab, form feed, carriage return and space. */
  predicate IsWhitespace(c: char)
  {
    c == '\t' || c == '\n' || c == '\U{000B}' || c == '\U{000C}' || c == '\r' || c == ' '
  }

  /** A token: non-empty and free of whitespace. */
  predicate IsWord(t: seq<char>)
  {
    t != [] && forall i :: 0 <= i < |t| ==> !IsWhitespace(t[i])
  }

  predicate AllWords(ts: seq<seq<char>>)
  {
    forall i :: 0 <= i < |ts| ==> IsWord(ts[i])
  }

  /** Length of the run of non-whitespace characters that starts `s`. */
  function WordLength(s: seq<char>): (k: nat)
    ensures k <= |s|
    ensures forall i :: 0 <= i < k ==> !IsWhitespace(s[i])
    ensures k < |s| ==> IsWhitespace(s[k])
  {
    if s == [] || IsWhitespace(s[0]) then 0 else 1 + WordLength(s[1..])
  }

  /** The tokens of `s`. */
  function Tokens(s: seq<char>): seq<seq<char>>
    decreases |s|
  {
    if s == [] then []
    else if IsWhitespace(s[0]) then Tokens(s[1..])
    else
      var k := WordLength(s);
      [s[..k]] + Tokens(s[k..])
  }

  /** `s` with every whitespace character deleted. */
  function NonWhitespace(s: seq<char>): seq<char>
  {
    if s == [] then []
    else (if IsWhitespace(s[0]) then [] else [s[0]]) + NonWhitespace(s[1..])
  }

  /** The words joined by single spaces. */
  function Spaced(ts: seq<seq<char>>): seq<char>
  {
    if ts == [] then []
    else if |ts| == 1 then ts[0]
    else ts[0] + [' '] + Spaced(ts[1..])
  }

  lemma {:induction false} TokensAreWords(s: seq<char>)
    ensures AllWords(Tokens(s))
    decreases |s|
  {
    if s != [] {
      if IsWhitespace(s[0]) {
        TokensAreWords(s[1..]);
      } else {
        var k := WordLength(s);
        TokensAreWords(s[k..]);
      }
    }
  }

  lemma {:induction false} NonWhitespaceAppend(a: seq<char>, b: seq<char>)
    ensures NonWhitespace(a + b) == NonWhitespace(a) + NonWhitespace(b)
  {
    if a == [] {
      assert a + b == b;
    } else {
      assert (a + b)[1..] == a[1..] + b;
      NonWhitespaceAppend(a[1..], b);
    }
  }

  lemma {:induction false} NonWhitespaceOfWord(t: seq<char>)
    requires forall i :: 0 <= i < |t| ==> !IsWhitespace(t[i])
    ensures NonWhitespace(t) == t
  {
    if t != [] {
      NonWhitespaceOfWord(t[1..]);
    }
  }

  /** Tokenizing loses exactly the whitespace: the tokens, concatenated, are
      the non-whitespace characters of the text in their order. */
  lemma {:induction false} TokensConcat(s: seq<char>)
    ensures Concat(Tokens(s)) == NonWhitespace(s)
    decreases |s|
  {
    if s != [] {
      if IsWhitespace(s[0]) {
        TokensConcat(s[1..]);
      } else {
        var k := WordLength(s);
        TokensConcat(s[k..]);
        assert s == s[..k] + s[k..];
        NonWhitespaceAppend(s[..k], s[k..]);
        NonWhitespaceOfWord(s[..k]);
        assert ([s[..k]] + Tokens(s[k..]))[1..] == Tokens(s[k..]);
      }
    }
  }

  /** There are no tokens exactly when the text is all whitespace. */
  lemma {:induction false} TokensEmptyIff(s: seq<char>)
    ensures Tokens(s) == [] <==> forall i :: 0 <= i < |s| ==> IsWhitespace(s[i])
    decreases |s|
  {
    if s != [] && IsWhitespace(s[0]) {
      TokensEmptyIff(s[1..]);
      if forall i :: 0 <= i < |s[1..]| ==> IsWhitespace(s[1..][i]) {
        forall i | 0 <= i < |s| ensures IsWhitespace(s[i]) {
          if i > 0 { assert s[i] == s[1..][i - 1]; }
        }
      }
    }
  }

  lemma {:induction false} WordLengthOf(a: seq<char>, b: seq<char>)
    requires forall i :: 0 <= i < |a| ==> !IsWhitespace(a[i])
    requires b == [] || IsWhitespace(b[0])
    ensures WordLength(a + b) == |a|
  {
    if a == [] {
      assert a + b == b;
    } else {
      assert (a + b)[1..] == a[1..] + b;
      WordLengthOf(a[1..], b);
    }
  }

  lemma TokensOfWordThen(t: seq<char>, rest: seq<char>)
    requires IsWord(t)
    requires rest == [] || IsWhitespace(rest[0])
    ensures Tokens(t + rest) == [t] + Tokens(rest)
  {
    WordLengthOf(t, rest);
    assert (t + rest)[..|t|] == t;
    assert (t + rest)[|t|..] == rest;
  }

  /** Tokenizing splits at whitespace: where the second part starts with
      whitespace, the tokens of the whole are those of the parts. */
  lemma {:induction false} TokensAppend(a: seq<char>, b: seq<char>)
    requires b == [] || IsWhitespace(b[0])
    ensures Tokens(a + b) == Tokens(a) + Tokens(b)
    decreases |a|
  {
    if a == [] {
      assert a + b == b;
    } else if IsWhitespace(a[0]) {
      assert (a + b)[1..] == a[1..] + b;
      TokensAppend(a[1..], b);
    } else {
      var k := WordLength(a);
      if k == |a| {
        TokensOfWordThen(a, b);
        TokensOfWordThen(a, []);
        assert a + [] == a;
      } else {
        TokensAppendWord(a, b, k);
      }
    }
  }

  /** The step of TokensAppend where the first word of `a` ends inside `a`. */
  lemma {:induction false} TokensAppendWord(a: seq<char>, b: seq<char>, k: nat)
    requires b == [] || IsWhitespace(b[0])
    requires a != [] && !IsWhitespace(a[0]) && k == WordLength(a) < |a|
    ensures Tokens(a + b) == Tokens(a) + Tokens(b)
    decreases |a|, 0
  {
    var w, r := a[..k], a[k..];
    assert w + r == a;
    assert w + (r + b) == a + b;
    TokensOfWordThen(w, r + b);
    TokensOfWordThen(w, r);
    TokensAppend(r, b);
    AppendAssoc([w], Tokens(r), Tokens(b));
  }

  /** Tokens are maximal: joining words with single spaces and tokenizing
      again gives back the same words. */
  lemma {:induction false} TokensOfSpaced(ts: seq<seq<char>>)
    requires AllWords(ts)
    ensures Tokens(Spaced(ts)) == ts
  {
    if |ts| == 1 {
      TokensOfWordThen(ts[0], []);
      assert ts[0] + [] == ts[0];
    } else if |ts| > 1 {
      var rest := [' '] + Spaced(ts[1..]);
      assert Spaced(ts) == ts[0] + rest;
      TokensOfWordThen(ts[0], rest);
      assert rest[1..] == Spaced(ts[1..]);
      TokensOfSpaced(ts[1..]);
      assert ts == [ts[0]] + ts[1..];
    }
  }
}
