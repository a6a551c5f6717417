/**
  The string primitives the control panel borrows from Rust's standard
  library: `char::is_whitespace`, `str::split_whitespace`, `str::trim` and the
  lower-casing used on the exit confirmation. Strings are sequences of Unicode
  scalar values, as Rust's `str` is.
 */
module Text {

  /** Unicode White_Space, the class `char::is_whitespace` accepts. */
  predicate IsWhitespace(c: char) {
    || ('\t' <= c <= '\r')
    || c == ' '
    || c == '\U{85}'
    || c == '\U{A0}'
    || c == '\U{1680}'
    || ('\U{2000}' <= c <= '\U{200A}')
    || c == '\U{2028}'
    || c == '\U{2029}'
    || c == '\U{202F}'
    || c == '\U{205F}'
    || c == '\U{3000}'
  }

  /** The 25 code points Unicode lists under White_Space, one by one. */
  const WhiteSpaceList: seq<char> := [
    '\t', '\n', '\U{B}', '\U{C}', '\r', ' ', '\U{85}', '\U{A0}', '\U{1680}',
    '\U{2000}', '\U{2001}', '\U{2002}', '\U{2003}', '\U{2004}', '\U{2005}',
    '\U{2006}', '\U{2007}', '\U{2008}', '\U{2009}', '\U{200A}',
    '\U{2028}', '\U{2029}', '\U{202F}', '\U{205F}', '\U{3000}'
  ]

  /** `IsWhitespace` accepts exactly the listed White_Space code points. */
  lemma WhitespaceListed(c: char)
    ensures IsWhitespace(c) <==> c in WhiteSpaceList
  {
  }

  /** No character of `s` is whitespace. */
  predicate NoWhitespace(s: string) {
    forall i :: 0 <= i < |s| ==> !IsWhitespace(s[i])
  }

  /** Every character of `s` is whitespace. */
  predicate AllWhitespace(s: string) {
    forall i :: 0 <= i < |s| ==> IsWhitespace(s[i])
  }

  /** A token as `split_whitespace` yields it: non-empty, whitespace-free. */
  predicate IsWord(w: string) {
    |w| > 0 && NoWhitespace(w)
  }

  /** The characters of `s` that are not whitespace, in order. */
  function Visible(s: string): string {
    if |s| == 0 then []
    else if IsWhitespace(s[0]) then Visible(s[1..])
    else [s[0]] + Visible(s[1..])
  }

  /** The pending token, if any, as a sequence of zero or one tokens. */
  function Flush(word: string): seq<string> {
    if |word| == 0 then [] else [word]
  }

  /**
    Scans `s` from left to right; `word` holds the characters of the token
    being read. A whitespace character ends the pending token, a run of them
    yields nothing.
   */
  function SplitFrom(s: string, word: string): (r: seq<string>)
    requires NoWhitespace(word)
    ensures forall i :: 0 <= i < |r| ==> IsWord(r[i])
    decreases |s|
  {
    if |s| == 0 then Flush(word)
    else if IsWhitespace(s[0]) then Flush(word) + SplitFrom(s[1..], [])
    else SplitFrom(s[1..], word + [s[0]])
  }

  /** `str::split_whitespace`, collected into a sequence. */
  function Tokens(s: string): (r: seq<string>)
    ensures forall i :: 0 <= i < |r| ==> IsWord(r[i])
  {
    SplitFrom(s, [])
  }

  /** Concatenation of a sequence of strings. */
  function Concat(ts: seq<string>): string {
    if |ts| == 0 then [] else ts[0] + Concat(ts[1..])
  }

  /** The strings of `ts` with `sep` between neighbours. */
  function Join(ts: seq<string>, sep: string): string {
    if |ts| == 0 then []
    else if |ts| == 1 then ts[0]
    else ts[0] + sep + Join(ts[1..], sep)
  }

  lemma {:induction false} ConcatAppend(a: seq<string>, b: seq<string>)
    ensures Concat(a + b) == Concat(a) + Concat(b)
    decreases |a|
  {
    if |a| == 0 {
      assert a + b == b;
    } else {
      assert (a + b)[1..] == a[1..] + b;
      ConcatAppend(a[1..], b);
    }
  }

  /** Splitting at a whitespace boundary splits the tokens there. */
  lemma {:induction false} SplitFromAppend(x: string, y: string, word: string)
    requires NoWhitespace(word)
    requires |y| > 0 && IsWhitespace(y[0])
    ensures SplitFrom(x + y, word) == SplitFrom(x, word) + Tokens(y)
    decreases |x|
  {
    if |x| == 0 {
      assert x + y == y;
      calc {
        SplitFrom(y, word);
        Flush(word) + SplitFrom(y[1..], []);
        { assert SplitFrom(y, []) == Flush([]) + SplitFrom(y[1..], []); }
        Flush(word) + Tokens(y);
      }
    } else {
      assert (x + y)[0] == x[0];
      assert (x + y)[1..] == x[1..] + y;
      if IsWhitespace(x[0]) {
        SplitFromAppend(x[1..], y, []);
      } else {
        SplitFromAppend(x[1..], y, word + [x[0]]);
      }
    }
  }

  /**
    `split_whitespace` distributes over concatenation when the two halves meet
    at whitespace (or one of them is empty): no token straddles the seam.
   */
  lemma {:induction false} TokensAppend(x: string, y: string)
    requires |x| == 0 || |y| == 0 || IsWhitespace(x[|x| - 1]) || IsWhitespace(y[0])
    ensures Tokens(x + y) == Tokens(x) + Tokens(y)
  {
    if |y| == 0 {
      assert x + y == x;
    } else if |x| == 0 {
      assert x + y == y;
    } else if IsWhitespace(y[0]) {
      SplitFromAppend(x, y, []);
    } else {
      var x', w := x[..|x| - 1], x[|x| - 1 ..];
      assert x == x' + w;
      assert x + y == x' + (w + y);
      assert (w + y)[0] == x[|x| - 1];
      SplitFromAppend(x', w + y, []);
      SplitFromAppend(x', w, []);
      assert Tokens(w) == Flush([]) + SplitFrom(w[1..], []);
      assert w[1..] == [];
      assert (w + y)[1..] == y;
      assert Tokens(w + y) == Flush([]) + SplitFrom((w + y)[1..], []);
    }
  }

  lemma {:induction false} SplitFromSolid(w: string, word: string)
    requires NoWhitespace(word) && NoWhitespace(w)
    requires |word| + |w| > 0
    ensures SplitFrom(w, word) == [word + w]
    decreases |w|
  {
    if |w| == 0 {
      assert word + w == word;
    } else {
      assert !IsWhitespace(w[0]);
      assert NoWhitespace(word + [w[0]]) by {
        forall i | 0 <= i < |word + [w[0]]|
          ensures !IsWhitespace((word + [w[0]])[i])
        {
          if i < |word| { assert (word + [w[0]])[i] == word[i]; }
        }
      }
      SplitFromSolid(w[1..], word + [w[0]]);
      assert (word + [w[0]]) + w[1..] == word + w;
    }
  }

  /** A single word splits into itself. */
  lemma TokensOfWord(w: string)
    requires IsWord(w)
    ensures Tokens(w) == [w]
  {
    SplitFromSolid(w, []);
    assert [] + w == w;
  }

  /** A string of whitespace only has no tokens. */
  lemma {:induction false} TokensOfBlank(s: string)
    requires AllWhitespace(s)
    ensures Tokens(s) == []
    decreases |s|
  {
    if |s| > 0 {
      TokensOfBlank(s[1..]);
    }
  }

  /**
    Round trip: joining words with single spaces and splitting on whitespace
    gives the words back.
   */
  lemma {:induction false} TokensOfJoin(ts: seq<string>)
    requires forall i :: 0 <= i < |ts| ==> IsWord(ts[i])
    ensures Tokens(Join(ts, " ")) == ts
    decreases |ts|
  {
    if |ts| == 0 {
    } else if |ts| == 1 {
      TokensOfWord(ts[0]);
    } else {
      TokensOfWord(ts[0]);
      TokensOfJoin(ts[1..]);
      TokensAppend(ts[0], " " + Join(ts[1..], " "));
      TokensAppend(" ", Join(ts[1..], " "));
      TokensOfBlank(" ");
      assert ts[0] + " " + Join(ts[1..], " ") == ts[0] + (" " + Join(ts[1..], " "));
      assert ts == [ts[0]] + ts[1..];
    }
  }

  lemma {:induction false} SplitFromKeepsText(s: string, word: string)
    requires NoWhitespace(word)
    ensures Concat(SplitFrom(s, word)) == word + Visible(s)
    decreases |s|
  {
    if |s| == 0 {
      assert word + [] == word;
    } else if IsWhitespace(s[0]) {
      SplitFromKeepsText(s[1..], []);
      ConcatAppend(Flush(word), SplitFrom(s[1..], []));
      assert [] + Visible(s[1..]) == Visible(s[1..]);
    } else {
      assert NoWhitespace(word + [s[0]]) by {
        forall i | 0 <= i < |word + [s[0]]|
          ensures !IsWhitespace((word + [s[0]])[i])
        {
          if i < |word| { assert (word + [s[0]])[i] == word[i]; }
        }
      }
      SplitFromKeepsText(s[1..], word + [s[0]]);
      assert (word + [s[0]]) + Visible(s[1..]) == word + ([s[0]] + Visible(s[1..]));
    }
  }

  /**
    Splitting loses exactly the whitespace: the tokens, put back together,
    are the visible characters of the input in their original order.
   */
  lemma TokensKeepText(s: string)
    ensures Concat(Tokens(s)) == Visible(s)
  {
    SplitFromKeepsText(s, []);
    assert [] + Visible(s) == Visible(s);
  }

  /** A string has visible characters exactly when it is not all whitespace. */
  lemma {:induction false} VisibleEmpty(s: string)
    ensures |Visible(s)| == 0 <==> AllWhitespace(s)
    decreases |s|
  {
    if |s| > 0 {
      VisibleEmpty(s[1..]);
      if AllWhitespace(s[1..]) && IsWhitespace(s[0]) {
        forall i | 0 <= i < |s| ensures IsWhitespace(s[i]) {
          if i > 0 { assert s[i] == s[1..][i - 1]; }
        }
      }
      if AllWhitespace(s) {
        forall i | 0 <= i < |s[1..]| ensures IsWhitespace(s[1..][i]) {
          assert s[1..][i] == s[i + 1];
        }
      }
    }
  }

  /** `split_whitespace` yields nothing exactly when the input is all whitespace. */
  lemma TokensEmpty(s: string)
    ensures |Tokens(s)| == 0 <==> AllWhitespace(s)
  {
    TokensKeepText(s);
    VisibleEmpty(s);
    if AllWhitespace(s) {
      TokensOfBlank(s);
    }
  }

  /** `str::trim_start`: drops the leading whitespace run. */
  function TrimStart(s: string): (r: string)
    ensures |r| <= |s| && r == s[|s| - |r|..]
    ensures forall i :: 0 <= i < |s| - |r| ==> IsWhitespace(s[i])
    ensures |r| == 0 || !IsWhitespace(r[0])
    decreases |s|
  {
    if |s| > 0 && IsWhitespace(s[0]) then TrimStart(s[1..]) else s
  }

  /** `str::trim_end`: drops the trailing whitespace run. */
  function TrimEnd(s: string): (r: string)
    ensures |r| <= |s| && r == s[..|r|]
    ensures forall i :: |r| <= i < |s| ==> IsWhitespace(s[i])
    ensures |r| == 0 || !IsWhitespace(r[|r| - 1])
    decreases |s|
  {
    if |s| > 0 && IsWhitespace(s[|s| - 1]) then TrimEnd(s[..|s| - 1]) else s
  }

  /** `str::trim`: the input without its leading and trailing whitespace. */
  function Trim(s: string): (r: string)
    ensures |r| <= |s|
    ensures |r| == 0 || (!IsWhitespace(r[0]) && !IsWhitespace(r[|r| - 1]))
    ensures |r| == 0 <==> AllWhitespace(s)
  {
    TrimBlank(s);
    var t := TrimStart(s);
    var r := TrimEnd(t);
    assert |r| > 0 ==> r[0] == t[0];
    r
  }

  /**
    What trimming keeps: the input is the trimmed text with a run of
    whitespace on either side, so trimming drops nothing else.
   */
  lemma TrimSurrounds(s: string)
    ensures exists head, tail :: s == head + Trim(s) + tail && AllWhitespace(head) && AllWhitespace(tail)
  {
    var t := TrimStart(s);
    Surrounded(s, t, TrimEnd(t));
  }

  /**
    A string whose whitespace-led suffix `t` has a prefix `r` followed only
    by whitespace is `r` with whitespace on either side.
   */
  lemma {:induction false} Surrounded(s: string, t: string, r: string)
    requires |t| <= |s| && t == s[|s| - |t|..]
    requires forall i :: 0 <= i < |s| - |t| ==> IsWhitespace(s[i])
    requires |r| <= |t| && r == t[..|r|]
    requires forall i :: |r| <= i < |t| ==> IsWhitespace(t[i])
    ensures exists head, tail :: s == head + r + tail && AllWhitespace(head) && AllWhitespace(tail)
  {
    var head, tail := s[..|s| - |t|], t[|r|..];
    assert s == head + t && t == r + tail;
    assert AllWhitespace(head) by {
      forall i | 0 <= i < |head| ensures IsWhitespace(head[i]) {
        assert head[i] == s[i];
      }
    }
    assert AllWhitespace(tail) by {
      forall i | 0 <= i < |tail| ensures IsWhitespace(tail[i]) {
        assert tail[i] == t[|r| + i];
      }
    }
    assert s == head + r + tail;
  }

  lemma TrimBlank(s: string)
    ensures |TrimEnd(TrimStart(s))| == 0 <==> AllWhitespace(s)
  {
    var t := TrimStart(s);
    if |t| > 0 {
      assert t[0] == s[|s| - |t|];
    }
  }

  /** A string with no whitespace at either end is its own trim. */
  lemma TrimUntrimmed(s: string)
    requires |s| == 0 || (!IsWhitespace(s[0]) && !IsWhitespace(s[|s| - 1]))
    ensures Trim(s) == s
  {
    TrimStartUntrimmed(s);
    TrimEndUntrimmed(s);
  }

  lemma TrimStartUntrimmed(s: string)
    requires |s| == 0 || !IsWhitespace(s[0])
    ensures TrimStart(s) == s
  {
  }

  lemma TrimEndUntrimmed(s: string)
    requires |s| == 0 || !IsWhitespace(s[|s| - 1])
    ensures TrimEnd(s) == s
  {
  }

  /** Trimming twice trims no more than trimming once. */
  lemma TrimIdempotent(s: string)
    ensures Trim(Trim(s)) == Trim(s)
  {
    TrimUntrimmed(Trim(s));
  }

  /** A token of `split_whitespace` is never blank after trimming. */
  lemma TrimWord(w: string)
    requires IsWord(w)
    ensures Trim(w) == w && |Trim(w)| > 0
  {
    TrimUntrimmed(w);
  }

  /** Lower-cases one ASCII letter; every other character is kept. */
  function LowerChar(c: char): (d: char)
    ensures 'A' <= c <= 'Z' ==> 'a' <= d <= 'z' && d as int - 'a' as int == c as int - 'A' as int
    ensures !('A' <= c <= 'Z') ==> d == c
  {
    if 'A' <= c <= 'Z' then (c as int - 'A' as int + 'a' as int) as char else c
  }

  /** `str::to_lowercase`, restricted to the ASCII letters. */
  function Lower(s: string): (r: string)
    ensures |r| == |s|
    ensures forall i :: 0 <= i < |s| ==> r[i] == LowerChar(s[i])
  {
    seq(|s|, i requires 0 <= i < |s| => LowerChar(s[i]))
  }

  /** The only strings that lower-case to "y" are "y" and "Y". */
  lemma LowerIsY(s: string)
    ensures Lower(s) == "y" <==> s == "y" || s == "Y"
  {
    if Lower(s) == "y" {
      assert |s| == 1;
      assert LowerChar(s[0]) == 'y';
      assert s == [s[0]];
    }
  }
}
