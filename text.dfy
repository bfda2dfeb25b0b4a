/** Character sequences: runs of spaces, concatenation, joining and splitting
    lines on '\n', and removing the layout characters (' ' and '\n') that the
    justifier inserts. */
module Text {

  /** `n` spaces; the model of `String::repeat` on a one-space string. */
  function Spaces(n: nat): (s: seq<char>)
    ensures |s| == n
  {
    if n == 0 then [] else Spaces(n - 1) + [' ']
  }

  lemma AppendAssoc<T>(a: seq<T>, b: seq<T>, c: seq<T>)
    ensures (a + b) + c == a + (b + c)
  {
  }

  lemma DropDrop<T>(s: seq<T>, i: nat, j: nat)
    requires i + j <= |s|
    ensures s[i..][j..] == s[i + j..]
  {
  }

  /** All pieces, one after the other. */
  function Concat(ls: seq<seq<char>>): seq<char>
  {
    if ls == [] then [] else ls[0] + Concat(ls[1..])
  }

  lemma {:induction false} ConcatAppend(a: seq<seq<char>>, b: seq<seq<char>>)
    ensures Concat(a + b) == Concat(a) + Concat(b)
  {
    if a == [] {
      assert a + b == b;
    } else {
      assert (a + b)[1..] == a[1..] + b;
      ConcatAppend(a[1..], b);
    }
  }

  lemma ConcatSplit(ls: seq<seq<char>>, k: nat)
    requires k <= |ls|
    ensures Concat(ls[..k]) + Concat(ls[k..]) == Concat(ls)
  {
    calc {
      Concat(ls);
      { assert ls == ls[..k] + ls[k..]; }
      Concat(ls[..k] + ls[k..]);
      { ConcatAppend(ls[..k], ls[k..]); }
      Concat(ls[..k]) + Concat(ls[k..]);
    }
  }

  lemma ConcatSnoc(ls: seq<seq<char>>, k: nat)
    requires 1 <= k <= |ls|
    ensures Concat(ls[..k]) == Concat(ls[..k - 1]) + ls[k - 1]
  {
    assert ls[..k] == ls[..k - 1] + [ls[k - 1]];
    ConcatAppend(ls[..k - 1], [ls[k - 1]]);
    assert Concat([ls[k - 1]]) == ls[k - 1] + Concat([]);
  }

  /** The lines joined by single '\n' characters, with none before the first
      line or after the last. */
  function JoinLines(ls: seq<seq<char>>): seq<char>
  {
    if ls == [] then []
    else if |ls| == 1 then ls[0]
    else ls[0] + ['\n'] + JoinLines(ls[1..])
  }

  lemma {:induction false} JoinLinesAppend(a: seq<seq<char>>, b: seq<seq<char>>)
    requires a != [] && b != []
    ensures JoinLines(a + b) == JoinLines(a) + ['\n'] + JoinLines(b)
  {
    if |a| == 1 {
      assert (a + b)[1..] == b;
    } else {
      assert (a + b)[1..] == a[1..] + b;
      JoinLinesAppend(a[1..], b);
    }
  }

  lemma JoinLinesCons(x: seq<char>, rest: seq<seq<char>>)
    ensures JoinLines([x] + rest) == x + (if rest == [] then [] else ['\n'] + JoinLines(rest))
  {
    assert ([x] + rest)[1..] == rest;
  }

  lemma JoinLinesSnoc(ls: seq<seq<char>>, x: seq<char>)
    ensures JoinLines(ls + [x]) == JoinLines(ls) + (if ls == [] then [] else ['\n']) + x
  {
    if ls == [] {
      assert ls + [x] == [x];
    } else {
      JoinLinesAppend(ls, [x]);
    }
  }

  predicate IsLayout(c: char)
  {
    c == ' ' || c == '\n'
  }

  /** The text with every ' ' and '\n' deleted. */
  function DropLayout(s: seq<char>): (r: seq<char>)
    ensures forall i :: 0 <= i < |r| ==> !IsLayout(r[i])
  {
    if s == [] then []
    else (if IsLayout(s[0]) then [] else [s[0]]) + DropLayout(s[1..])
  }

  lemma {:induction false} DropLayoutAppend(a: seq<char>, b: seq<char>)
    ensures DropLayout(a + b) == DropLayout(a) + DropLayout(b)
  {
    if a != [] {
      assert (a + b)[1..] == a[1..] + b;
      DropLayoutAppend(a[1..], b);
    } else {
      assert a + b == b;
    }
  }

  lemma {:induction false} DropLayoutSpaces(n: nat)
    ensures DropLayout(Spaces(n)) == []
  {
    if n > 0 {
      DropLayoutSpaces(n - 1);
      DropLayoutAppend(Spaces(n - 1), [' ']);
    }
  }

  lemma {:induction false} DropLayoutPlain(s: seq<char>)
    requires forall i :: 0 <= i < |s| ==> !IsLayout(s[i])
    ensures DropLayout(s) == s
  {
    if s != [] {
      DropLayoutPlain(s[1..]);
    }
  }

  /** Joining lines only adds '\n' characters, which DropLayout deletes. */
  lemma {:induction false} DropLayoutJoin(ls: seq<seq<char>>)
    ensures DropLayout(JoinLines(ls)) == DropLayout(Concat(ls))
  {
    if |ls| == 1 {
      assert ls[1..] == [];
      assert Concat(ls) == ls[0] + [] == ls[0];
    } else if |ls| > 1 {
      DropLayoutJoin(ls[1..]);
      DropLayoutAppend(ls[0] + ['\n'], JoinLines(ls[1..]));
      DropLayoutAppend(ls[0], ['\n']);
      DropLayoutAppend(ls[0], Concat(ls[1..]));
    }
  }

  /** `s` holds no '\n'. */
  predicate NoNewline(s: seq<char>)
  {
    forall i :: 0 <= i < |s| ==> s[i] != '\n'
  }

  lemma NoNewlineAppend(a: seq<char>, b: seq<char>)
    requires NoNewline(a) && NoNewline(b)
    ensures NoNewline(a + b)
  {
    assert forall i :: 0 <= i < |b| ==> (a + b)[|a| + i] == b[i];
  }

  lemma SpacesNoNewline(n: nat)
    ensures NoNewline(Spaces(n))
  {
    if n > 0 {
      SpacesNoNewline(n - 1);
    }
  }

  /** Length of the first line of `s`: the index of its first '\n', or |s|. */
  function LineLength(s: seq<char>): (k: nat)
    ensures k <= |s|
    ensures forall i :: 0 <= i < k ==> s[i] != '\n'
    ensures k < |s| ==> s[k] == '\n'
  {
    if s == [] || s[0] == '\n' then 0 else 1 + LineLength(s[1..])
  }

  /** The pieces of `s` between '\n' characters (Rust's `str::split('\n')`). */
  function SplitLines(s: seq<char>): (ps: seq<seq<char>>)
    ensures |ps| >= 1
    decreases |s|
  {
    var k := LineLength(s);
    if k == |s| then [s] else [s[..k]] + SplitLines(s[k + 1..])
  }

  /** Rust's `str::lines()` on text without '\r': no lines for the empty
      text, and a final empty piece after a trailing '\n' is not a line. */
  function TextLines(s: seq<char>): seq<seq<char>>
  {
    if s == [] then []
    else
      var ps := SplitLines(s);
      if ps[|ps| - 1] == [] then ps[..|ps| - 1] else ps
  }

  lemma {:induction false} LineLengthAfter(a: seq<char>, b: seq<char>)
    requires NoNewline(a)
    ensures LineLength(a + b) == |a| + LineLength(b)
  {
    if a == [] {
      assert a + b == b;
    } else {
      assert (a + b)[1..] == a[1..] + b;
      LineLengthAfter(a[1..], b);
    }
  }

  /** Splitting at the first '\n' of a text whose first line is `x`. */
  lemma SplitCons(x: seq<char>, rest: seq<char>)
    requires NoNewline(x)
    ensures SplitLines(x + ['\n'] + rest) == [x] + SplitLines(rest)
  {
    var s := x + ['\n'] + rest;
    assert s == x + (['\n'] + rest);
    LineLengthAfter(x, ['\n'] + rest);
    assert s[..|x|] == x;
    assert s[|x| + 1..] == rest;
  }

  /** Splitting undoes joining when no line contains a '\n'. */
  lemma {:induction false} SplitJoin(ls: seq<seq<char>>)
    requires ls != []
    requires forall i :: 0 <= i < |ls| ==> NoNewline(ls[i])
    ensures SplitLines(JoinLines(ls)) == ls
  {
    if |ls| == 1 {
      LineLengthAfter(ls[0], []);
      assert ls[0] + [] == ls[0];
    } else {
      assert NoNewline(ls[0]);
      SplitCons(ls[0], JoinLines(ls[1..]));
      assert forall i :: 0 <= i < |ls[1..]| ==> NoNewline(ls[1..][i]) by {
        forall i | 0 <= i < |ls[1..]| ensures NoNewline(ls[1..][i]) {
          assert ls[1..][i] == ls[i + 1];
        }
      }
      SplitJoin(ls[1..]);
      assert ls == [ls[0]] + ls[1..];
    }
  }

  /** `str::lines()` gives back the joined lines when none contains a '\n'
      and the last one is not empty. */
  lemma TextLinesJoin(ls: seq<seq<char>>)
    requires ls != []
    requires forall i :: 0 <= i < |ls| ==> NoNewline(ls[i])
    requires ls[|ls| - 1] != []
    ensures TextLines(JoinLines(ls)) == ls
  {
    SplitJoin(ls);
    if |ls| > 1 {
      assert JoinLines(ls)[|ls[0]|] == '\n';
    }
  }
}
