/** The matcher of grep.c, and the language it decides. Patterns and texts are C strings
    without their NUL. */
module Grep {

  // ---- the matcher ----

  predicate Fits(c: char, x: char) {
    c == '.' || c == x
  }

  predicate MatchHere(re: string, text: string)
    decreases |re|, |text|, 0
  {
    if re == "" then true
    else if |re| > 1 && re[1] == '*' then MatchStar(re[0], re[2..], text)
    else if re == "$" then text == ""
    else text != "" && Fits(re[0], text[0]) && MatchHere(re[1..], text[1..])
  }

  predicate MatchStar(c: char, re: string, text: string)
    decreases |re|, |text|, 1
  {
    MatchHere(re, text) || (text != "" && Fits(c, text[0]) && MatchStar(c, re, text[1..]))
  }

  predicate MatchSomewhere(re: string, text: string)
    decreases |text|
  {
    MatchHere(re, text) || (text != "" && MatchSomewhere(re, text[1..]))
  }

  predicate Match(re: string, text: string) {
    if re != "" && re[0] == '^' then MatchHere(re[1..], text) else MatchSomewhere(re, text)
  }

  // ---- the language of a pattern ----

  /** A literal or dot, or either of them starred. */
  datatype Item = One(c: char) | Star(c: char)

  /** The items of a pattern without "^", and whether it ends in an anchoring "$". */
  function Items(re: string): seq<Item> {
    if re == "" || re == "$" then []
    else if |re| > 1 && re[1] == '*' then [Star(re[0])] + Items(re[2..])
    else [One(re[0])] + Items(re[1..])
  }

  predicate AtEnd(re: string) {
    if re == "" then false
    else if |re| > 1 && re[1] == '*' then AtEnd(re[2..])
    else re == "$" || AtEnd(re[1..])
  }

  predicate InItem(i: Item, s: string) {
    match i
    case One(c) => |s| == 1 && Fits(c, s[0])
    case Star(c) => forall k :: 0 <= k < |s| ==> Fits(c, s[k])
  }

  function Flatten(pieces: seq<string>): string {
    if pieces == [] then "" else pieces[0] + Flatten(pieces[1..])
  }

  /** s is made of one piece for each item, in order. */
  predicate Splits(items: seq<Item>, pieces: seq<string>, s: string) {
    && |pieces| == |items| && Flatten(pieces) == s
    && forall k :: 0 <= k < |items| ==> InItem(items[k], pieces[k])
  }

  ghost predicate InLanguage(items: seq<Item>, s: string) {
    exists pieces :: Splits(items, pieces, s)
  }

  /** text[i..j] is in the language of the pattern, anchored as "^" and the last "$" ask. */
  ghost predicate Occurs(re: string, text: string, i: nat, j: nat) {
    var body := if re != "" && re[0] == '^' then re[1..] else re;
    && i <= j <= |text| && InLanguage(Items(body), text[i..j])
    && (AtEnd(body) ==> j == |text|) && (re != "" && re[0] == '^' ==> i == 0)
  }

  // ---- the matcher decides the language ----

  /** A prefix of text of length j, in pieces, that pattern re accepts. */
  ghost predicate Prefix(re: string, text: string, j: nat, pieces: seq<string>) {
    j <= |text| && Splits(Items(re), pieces, text[..j]) && (AtEnd(re) ==> j == |text|)
  }

  lemma {:induction false} HereSound(re: string, text: string) returns (j: nat, pieces: seq<string>)
    requires MatchHere(re, text)
    ensures Prefix(re, text, j, pieces)
    decreases |re|, |text|, 0
  {
    if re == "" || re == "$" {
      j, pieces := 0, [];
    } else if |re| > 1 && re[1] == '*' {
      var n, rest := 0, [];
      n, j, rest := StarSound(re[0], re[2..], text);
      pieces := [text[..n]] + rest;
      assert text[..n] + text[n..j] == text[..j];
    } else {
      var k, rest := HereSound(re[1..], text[1..]);
      j, pieces := k + 1, [text[..1]] + rest;
      assert text[..1] + text[1..][..k] == text[..j];
    }
  }

  lemma {:induction false} StarSound(c: char, re: string, text: string) returns (n: nat, j: nat, pieces: seq<string>)
    requires MatchStar(c, re, text)
    ensures n <= j <= |text| && InItem(Star(c), text[..n]) && Prefix(re, text[n..], j - n, pieces) && text[n..][..j - n] == text[n..j]
    decreases |re|, |text|, 1
  {
    if MatchHere(re, text) {
      n := 0;
      j, pieces := HereSound(re, text);
      assert text[0..] == text;
    } else {
      n, j, pieces := StarSound(c, re, text[1..]);
      assert text[1..][n..] == text[n + 1..];
      n, j := n + 1, j + 1;
      assert forall k :: 0 < k < n ==> text[..n][k] == text[1..][..n - 1][k - 1];
    }
  }

  lemma SplitFirst(items: seq<Item>, pieces: seq<string>, s: string)
    requires items != [] && Splits(items, pieces, s)
    ensures pieces != [] && |pieces[0]| <= |s| && pieces[0] == s[..|pieces[0]|] && InItem(items[0], pieces[0])
    ensures Splits(items[1..], pieces[1..], s[|pieces[0]|..])
  {
    assert s == pieces[0] + Flatten(pieces[1..]);
  }

  lemma {:induction false} HereComplete(re: string, text: string, j: nat, pieces: seq<string>)
    requires Prefix(re, text, j, pieces)
    ensures MatchHere(re, text)
    decreases |re|, |text|, 0
  {
    if re == "" || re == "$" {
    } else if |re| > 1 && re[1] == '*' {
      SplitFirst(Items(re), pieces, text[..j]);
      var n := |pieces[0]|;
      assert Items(re)[1..] == Items(re[2..]) && text[..j][n..] == text[n..][..j - n];
      assert text[..j][..n] == text[..n];
      StarComplete(re[0], re[2..], text, n, j - n, pieces[1..]);
    } else {
      SplitFirst(Items(re), pieces, text[..j]);
      assert Items(re)[1..] == Items(re[1..]) && text[..j][1..] == text[1..][..j - 1];
      HereComplete(re[1..], text[1..], j - 1, pieces[1..]);
    }
  }

  lemma {:induction false} StarComplete(c: char, re: string, text: string, n: nat, j: nat, pieces: seq<string>)
    requires n <= |text| && InItem(Star(c), text[..n]) && Prefix(re, text[n..], j, pieces)
    ensures MatchStar(c, re, text)
    decreases |re|, |text|, 1
  {
    if n == 0 {
      assert text[0..] == text;
      HereComplete(re, text, j, pieces);
    } else {
      assert text[..n][0] == text[0] && text[1..][n - 1..] == text[n..];
      assert text[1..][..n - 1] == text[..n][1..];
      StarComplete(c, re, text[1..], n - 1, j, pieces);
    }
  }

  /** matchhere finds exactly the patterns that some prefix of the text belongs to. */
  lemma MatchHereIff(re: string, text: string)
    ensures MatchHere(re, text) <==>
      exists j: nat :: j <= |text| && InLanguage(Items(re), text[..j]) && (AtEnd(re) ==> j == |text|)
  {
    if MatchHere(re, text) {
      var j, pieces := HereSound(re, text);
      assert InLanguage(Items(re), text[..j]);
    }
    if j: nat :| j <= |text| && InLanguage(Items(re), text[..j]) && (AtEnd(re) ==> j == |text|) {
      var pieces :| Splits(Items(re), pieces, text[..j]);
      HereComplete(re, text, j, pieces);
    }
  }

  lemma {:induction false} SomewhereIff(re: string, text: string)
    ensures MatchSomewhere(re, text) <==> exists i: nat :: i <= |text| && MatchHere(re, text[i..])
    decreases |text|
  {
    assert text[0..] == text;
    if !MatchHere(re, text) && text != "" {
      SomewhereIff(re, text[1..]);
      if i: nat :| i <= |text[1..]| && MatchHere(re, text[1..][i..]) {
        assert text[1..][i..] == text[i + 1..];
      }
      if i: nat :| i <= |text| && MatchHere(re, text[i..]) {
        if i > 0 {
          assert text[1..][i - 1..] == text[i..];
        }
      }
    }
  }

  /** match succeeds exactly when some part of the text, anchored as "^" and a final "$" require,
      is in the language of the pattern. */
  lemma MatchIff(re: string, text: string)
    ensures Match(re, text) <==> exists i: nat, j: nat :: Occurs(re, text, i, j)
  {
    if re != "" && re[0] == '^' {
      MatchHereIff(re[1..], text);
      if j: nat :| j <= |text| && InLanguage(Items(re[1..]), text[..j]) && (AtEnd(re[1..]) ==> j == |text|) {
        assert text[0..j] == text[..j];
        assert Occurs(re, text, 0, j);
      }
      if i: nat, j: nat :| Occurs(re, text, i, j) {
        assert text[0..j] == text[..j];
      }
    } else {
      SomewhereIff(re, text);
      if i: nat :| i <= |text| && MatchHere(re, text[i..]) {
        MatchHereIff(re, text[i..]);
        var j: nat :| j <= |text[i..]| && InLanguage(Items(re), text[i..][..j]) && (AtEnd(re) ==> j == |text[i..]|);
        assert text[i..][..j] == text[i..i + j];
        assert Occurs(re, text, i, i + j);
      }
      if i: nat, j: nat :| Occurs(re, text, i, j) {
        assert text[i..][..j - i] == text[i..j];
        MatchHereIff(re, text[i..]);
        assert MatchHere(re, text[i..]);
      }
    }
  }

  // ---- the loops ----

  /** The loop of match. */
  method Search(re: string, text: string) returns (found: bool)
    ensures found <==> exists i: nat, j: nat :: Occurs(re, text, i, j)
  {
    MatchIff(re, text);
    if re != "" && re[0] == '^' {
      return MatchHere(re[1..], text);
    }
    var at := 0;
    while true
      invariant 0 <= at <= |text| && MatchSomewhere(re, text[at..]) == MatchSomewhere(re, text)
      decreases |text| - at
    {
      if MatchHere(re, text[at..]) {
        return true;
      }
      if at == |text| {
        break;
      }
      assert text[at..][1..] == text[at + 1..];
      at := at + 1;
    }
    return false;
  }

  /** The loop of matchstar. */
  method SearchStar(c: char, re: string, text: string) returns (found: bool)
    ensures found == MatchStar(c, re, text)
  {
    var at := 0;
    while true
      invariant 0 <= at <= |text| && MatchStar(c, re, text[at..]) == MatchStar(c, re, text)
      decreases |text| - at
    {
      if MatchHere(re, text[at..]) {
        return true;
      }
      if at == |text| || !(text[at] == c || c == '.') {
        break;
      }
      assert text[at..][1..] == text[at + 1..];
      at := at + 1;
    }
    return false;
  }
}
