/**
 Matching of a text by a pattern with stars, and the score of a match.

 The language of a pattern is given on tokens: a star is any text, and the character
 that follows a star is read literally, even if it is a star.
 */
module GlobMatch {
  datatype Token = Lit(c: char) | Any

  const GLOB: char := '*'

  function Tokens(pat: string): seq<Token> {
    if pat == "" then []
    else if pat[0] != GLOB then [Lit(pat[0])] + Tokens(pat[1..])
    else if |pat| == 1 then [Any]
    else [Any, Lit(pat[1])] + Tokens(pat[2..])
  }

  /** The text is in the language of the tokens. */
  ghost predicate Matches(ts: seq<Token>, text: string)
    decreases |ts|
  {
    if ts == [] then text == ""
    else if ts[0].Lit? then text != "" && text[0] == ts[0].c && Matches(ts[1..], text[1..])
    else exists k | 0 <= k <= |text| :: Matches(ts[1..], text[k..])
  }

  /** Number of characters that a match reads literally. */
  function Literals(ts: seq<Token>): nat {
    if ts == [] then 0 else (if ts[0].Lit? then 1 else 0) + Literals(ts[1..])
  }

  /** The score depends on the pattern only: the more it says, the better. */
  ghost function Score(pat: string, text: string): nat {
    if Matches(Tokens(pat), text) then 1 + Literals(Tokens(pat)) else 0
  }

  // ----- the usual meaning -----

  /** Stars are any text, wherever they are, and the rest is read as it is. */
  ghost predicate Wild(pat: string, text: string)
    decreases |pat|
  {
    if pat == "" then text == ""
    else if pat[0] == GLOB then exists k | 0 <= k <= |text| :: Wild(pat[1..], text[k..])
    else text != "" && text[0] == pat[0] && Wild(pat[1..], text[1..])
  }

  /** Two stars one after the other. */
  predicate Doubled(pat: string) {
    exists i | 0 <= i < |pat| - 1 :: pat[i] == GLOB && pat[i + 1] == GLOB
  }

  function Unstarred(pat: string): (r: string)
    ensures GLOB !in r
  {
    if pat == "" then "" else (if pat[0] == GLOB then "" else [pat[0]]) + Unstarred(pat[1..])
  }

  lemma NotDoubled(pat: string, i: nat)
    requires !Doubled(pat) && i <= |pat|
    ensures !Doubled(pat[i..])
  {
    forall j | 0 <= j < |pat| - i - 1 ensures pat[i..][j] != GLOB || pat[i..][j + 1] != GLOB {
      assert pat[i..][j] == pat[i + j] && pat[i..][j + 1] == pat[i + j + 1];
    }
  }

  /** Without doubled star, a pattern has its usual meaning, and its literals are its characters but the stars. */
  lemma {:induction false} Usual(pat: string, text: string)
    requires !Doubled(pat)
    ensures Matches(Tokens(pat), text) <==> Wild(pat, text)
    ensures Literals(Tokens(pat)) == |Unstarred(pat)|
    decreases |pat|
  {
    if pat == "" {
      NothingLeft(text);
    } else if pat[0] != GLOB {
      NotDoubled(pat, 1);
      TokenLit(pat, text);
      Usual(pat[1..], if text == "" then "" else text[1..]);
    } else {
      NotDoubled(pat, 1);
      UsualStar(pat, text);
    }
  }

  lemma {:induction false} UsualStar(pat: string, text: string)
    requires pat != "" && pat[0] == GLOB && !Doubled(pat) && !Doubled(pat[1..])
    ensures Matches(Tokens(pat), text) <==> Wild(pat, text)
    ensures Literals(Tokens(pat)) == |Unstarred(pat)|
    decreases |pat|, 0
  {
    if |pat| == 1 {
      assert pat == "*" && text[|text|..] == "" && pat[1..] == "";
      TokenLast(text);
      assert Wild(pat[1..], text[|text|..]);
      assert Unstarred(pat[1..]) == "";
    } else {
      assert pat[1] != GLOB;
      NotDoubled(pat, 2);
      assert pat[1..][1..] == pat[2..];
      TokenAny(pat, text);
      forall k | 0 <= k <= |text| ensures Wild(pat[1..], text[k..]) <==> k < |text| && Resumes(pat[1], pat[2..], text, k) {
        if k < |text| {
          assert text[k..][1..] == text[k + 1..];
          Usual(pat[2..], text[k + 1..]);
        }
      }
      Usual(pat[2..], "");
      assert Unstarred(pat[1..]) == [pat[1]] + Unstarred(pat[2..]);
      assert Unstarred(pat) == "" + Unstarred(pat[1..]);
    }
  }

  lemma {:induction false} WildUnstarred(pat: string)
    ensures Wild(pat, Unstarred(pat))
  {
    if pat != "" {
      WildUnstarred(pat[1..]);
      var text := Unstarred(pat);
      if pat[0] == GLOB {
        assert text[0..] == text && text == Unstarred(pat[1..]);
        assert Wild(pat[1..], text[0..]);
      } else {
        assert text[1..] == Unstarred(pat[1..]);
      }
    }
  }

  lemma {:induction false} StarNeeded(ts: seq<Token>, text: string)
    requires Lit(GLOB) in ts && Matches(ts, text)
    ensures GLOB in text
    decreases |ts|
  {
    if ts[0].Lit? {
      if ts[0] != Lit(GLOB) { StarNeeded(ts[1..], text[1..]); }
    } else {
      var k :| 0 <= k <= |text| && Matches(ts[1..], text[k..]);
      StarNeeded(ts[1..], text[k..]);
    }
  }

  lemma {:induction false} DoubledLit(pat: string)
    requires Doubled(pat)
    ensures Lit(GLOB) in Tokens(pat)
    decreases |pat|
  {
    if pat[0] != GLOB {
      assert Doubled(pat[1..]) by { DoubledRest(pat, 1); }
      DoubledLit(pat[1..]);
    } else if pat[1] != GLOB {
      assert Doubled(pat[2..]) by { DoubledRest(pat, 2); }
      DoubledLit(pat[2..]);
    }
  }

  lemma DoubledRest(pat: string, n: nat)
    requires Doubled(pat) && n < |pat| && forall i | 0 <= i < n :: pat[i] != GLOB || pat[i + 1] != GLOB
    ensures Doubled(pat[n..])
  {
    var i :| 0 <= i < |pat| - 1 && pat[i] == GLOB && pat[i + 1] == GLOB;
    assert pat[n..][i - n] == GLOB && pat[n..][i - n + 1] == GLOB;
  }

  /** A pattern with a doubled star always loses a text: that of the pattern without its stars. */
  lemma DoubledLoses(pat: string)
    requires Doubled(pat)
    ensures Wild(pat, Unstarred(pat)) && Score(pat, Unstarred(pat)) == 0
  {
    WildUnstarred(pat);
    DoubledLit(pat);
    if Matches(Tokens(pat), Unstarred(pat)) { StarNeeded(Tokens(pat), Unstarred(pat)); }
  }

  // ----- steps of the proof -----

  lemma TokenLit(pat: string, text: string)
    requires pat != "" && pat[0] != GLOB
    ensures Matches(Tokens(pat), text) <==> text != "" && text[0] == pat[0] && Matches(Tokens(pat[1..]), text[1..])
    ensures Literals(Tokens(pat)) == 1 + Literals(Tokens(pat[1..]))
  {
    var ts := Tokens(pat);
    assert ts[1..] == Tokens(pat[1..]);
  }

  lemma TokenLast(text: string)
    ensures Matches(Tokens("*"), text) && Literals(Tokens("*")) == 0
  {
    var ts := Tokens("*");
    assert ts == [Any] && ts[1..] == [] && text[|text|..] == "";
    assert Matches(ts[1..], text[|text|..]);
  }

  /** Position m of the text is read by the character after the star. */
  ghost predicate Resumes(c: char, rest: string, text: string, m: nat)
    requires m < |text|
  {
    text[m] == c && Matches(Tokens(rest), text[m + 1..])
  }

  lemma TokenAny(pat: string, text: string)
    requires |pat| > 1 && pat[0] == GLOB
    ensures Matches(Tokens(pat), text) <==> exists m | 0 <= m < |text| :: Resumes(pat[1], pat[2..], text, m)
    ensures Literals(Tokens(pat)) == 1 + Literals(Tokens(pat[2..]))
  {
    var ts, rest := Tokens(pat), Tokens(pat[2..]);
    assert ts[1..] == [Lit(pat[1])] + rest && ts[1..][1..] == rest;
    forall m | 0 <= m < |text| ensures Matches(ts[1..], text[m..]) <==> Resumes(pat[1], pat[2..], text, m) {
      assert text[m..][1..] == text[m + 1..];
    }
    if Matches(ts, text) {
      var k :| 0 <= k <= |text| && Matches(ts[1..], text[k..]);
      assert k < |text|;
      assert Resumes(pat[1], pat[2..], text, k);
    }
    if m :| 0 <= m < |text| && Resumes(pat[1], pat[2..], text, m) {
      assert Matches(ts[1..], text[m..]);
    }
  }

  ghost predicate SamePrefix(pat: string, text: string, i: nat) {
    i <= |pat| && i <= |text| && pat[..i] == text[..i]
  }

  lemma SameNext(pat: string, text: string, i: nat)
    requires i < |pat|
    ensures SamePrefix(pat, text, i + 1) <==> SamePrefix(pat, text, i) && i < |text| && pat[i] == text[i]
  {
    assert pat[..i + 1] == pat[..i] + [pat[i]];
    if i < |text| { assert text[..i + 1] == text[..i] + [text[i]]; }
  }

  /** A prefix without star is compared as it is. */
  lemma {:induction false} Prefix(pat: string, text: string, i: nat)
    requires i <= |pat| && forall k | 0 <= k < i :: pat[k] != GLOB
    ensures SamePrefix(pat, text, i) ==> (Matches(Tokens(pat), text) <==> Matches(Tokens(pat[i..]), text[i..]))
    ensures !SamePrefix(pat, text, i) ==> !Matches(Tokens(pat), text)
    ensures Literals(Tokens(pat)) == i + Literals(Tokens(pat[i..]))
  {
    hide Matches, Tokens, Literals;
    if i == 0 {
      assert pat[0..] == pat && text[0..] == text;
    } else {
      Prefix(pat, text, i - 1);
      SameNext(pat, text, i - 1);
      assert pat[i - 1..][1..] == pat[i..];
      if SamePrefix(pat, text, i - 1) {
        TokenLit(pat[i - 1..], text[i - 1..]);
        if i <= |text| { assert text[i - 1..][1..] == text[i..]; }
      } else {
        TokenLit(pat[i - 1..], "");
      }
    }
  }

  /** `match` without flags. */
  method Match(pat: string, str: string) returns (r: nat)
    ensures r == Score(pat, str)
    decreases |pat|
  {
    hide Matches, Tokens, Literals;
    var i := 0;
    while i < |pat| && pat[i] != GLOB
      invariant 0 <= i <= |pat| && SamePrefix(pat, str, i)
      invariant forall k | 0 <= k < i :: pat[k] != GLOB
    {
      SameNext(pat, str, i);
      if i == |str| || pat[i] != str[i] {
        Prefix(pat, str, i + 1);
        return 0;
      }
      i := i + 1;
    }
    Prefix(pat, str, i);
    r := i + 1;
    if i == |pat| {
      NothingLeft(str[i..]);
      if i != |str| { return 0; }
      return;
    }
    if i + 1 == |pat| {
      TokenLast(str[i..]);
      assert pat[i..] == "*";
      return;
    }
    var rs := Resume(pat[i + 1], pat[i + 2..], str[i..]);
    TokenAny(pat[i..], str[i..]);
    assert pat[i..][2..] == pat[i + 2..];
    r := if rs != 0 then rs + r else 0;
  }

  lemma NothingLeft(text: string)
    ensures Matches(Tokens(""), text) <==> text == ""
    ensures Literals(Tokens("")) == 0
  {
  }

  /** The loop after a star: the best score of the rest of the pattern. */
  method Resume(c: char, pat: string, str: string) returns (rs: nat)
    ensures rs == if exists m | 0 <= m < |str| :: Resumes(c, pat, str, m) then 1 + Literals(Tokens(pat)) else 0
    decreases |pat| + 1
  {
    hide Matches, Tokens, Literals;
    rs := 0;
    var j := 0;
    while j < |str|
      invariant 0 <= j <= |str|
      invariant rs == if exists m | 0 <= m < j :: Resumes(c, pat, str, m) then 1 + Literals(Tokens(pat)) else 0
    {
      var x := str[j];
      j := j + 1;
      if x == c {
        var rr := Match(pat, str[j..]);
        if rr > rs { rs := rr; }
      }
      assert Resumes(c, pat, str, j - 1) ==> rs > 0;
    }
  }
}
