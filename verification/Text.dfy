/** The string functions the synchronizer takes from Go's strings package, on ASCII text. */
module Text {
  predicate IsSpace(c: char) {
    c == ' ' || c == '\t' || c == '\n' || c == '\r' || c as int == 11 || c as int == 12
  }

  function TrimLeft(s: string, drop: char -> bool): string {
    if s != [] && drop(s[0]) then TrimLeft(s[1..], drop) else s
  }

  function TrimRight(s: string, drop: char -> bool): string {
    if s != [] && drop(s[|s| - 1]) then TrimRight(s[..|s| - 1], drop) else s
  }

  function TrimSpace(s: string): string {
    TrimRight(TrimLeft(s, IsSpace), IsSpace)
  }

  function LowerChar(c: char): char {
    if 'A' <= c <= 'Z' then (c as int + 32) as char else c
  }

  function ToLower(s: string): (r: string)
    ensures |r| == |s|
  {
    seq(|s|, i requires 0 <= i < |s| => LowerChar(s[i]))
  }

  predicate EqualFold(s: string, t: string) {
    ToLower(s) == ToLower(t)
  }

  function ReplaceChar(s: string, from: char, to: char): (r: string)
    ensures |r| == |s|
  {
    seq(|s|, i requires 0 <= i < |s| => if s[i] == from then to else s[i])
  }

  predicate HasPrefix(s: string, p: string) {
    p <= s
  }

  /** The position of the first colon, or the length. */
  function Colon(l: string): (i: nat)
    ensures i <= |l| && (i < |l| ==> l[i] == ':') && forall j :: 0 <= j < i ==> l[j] != ':'
  {
    if l == [] || l[0] == ':' then 0 else 1 + Colon(l[1..])
  }

  /** Text with clean edges is not trimmed. */
  lemma TrimKeepsClean(s: string, drop: char -> bool)
    requires s == [] || (!drop(s[0]) && !drop(s[|s| - 1]))
    ensures TrimLeft(s, drop) == s && TrimRight(s, drop) == s
  {
  }

  lemma ReplacedBack(s: string, from: char, to: char)
    requires to !in s
    ensures ReplaceChar(ReplaceChar(s, from, to), to, from) == s
  {
    assert forall i :: 0 <= i < |s| ==> s[i] in s;
  }

  // ---------------------------------------------------------------- what they mean, character by character

  /** Space, tab, line feed, vertical tab, form feed or carriage return. */
  predicate IsBlank(c: char) {
    c as int == 32 || 9 <= c as int <= 13
  }

  predicate Blank(s: string) {
    forall i :: 0 <= i < |s| ==> IsBlank(s[i])
  }

  /** No blank at either end. */
  predicate CleanEdges(s: string) {
    s == [] || (!IsBlank(s[0]) && !IsBlank(s[|s| - 1]))
  }

  lemma {:induction false} TrimLeftBlank(l: string, s: string)
    requires Blank(l)
    ensures TrimLeft(l + s, IsSpace) == TrimLeft(s, IsSpace)
  {
    if l == [] {
      assert l + s == s;
    } else {
      assert (l + s)[0] == l[0] && (l + s)[1..] == l[1..] + s;
      TrimLeftBlank(l[1..], s);
    }
  }

  lemma {:induction false} TrimRightBlank(s: string, r: string)
    requires Blank(r)
    ensures TrimRight(s + r, IsSpace) == TrimRight(s, IsSpace)
  {
    if r == [] {
      assert s + r == s;
    } else {
      var n := |r| - 1;
      assert (s + r)[|s + r| - 1] == r[n] && (s + r)[..|s + r| - 1] == s + r[..n];
      TrimRightBlank(s, r[..n]);
    }
  }

  /** Trimming takes away the blanks around a text, whatever they are. */
  lemma {:induction false} TrimSpaceOf(l: string, x: string, r: string)
    requires Blank(l) && Blank(r) && CleanEdges(x)
    ensures TrimSpace(l + x + r) == x
  {
    Regroup(l, x, r);
    TrimLeftBlank(l, x + r);
    if x == [] {
      assert x + r == r + x;
      TrimLeftBlank(r, x);
    } else {
      assert (x + r)[0] == x[0];
      TrimRightBlank(x, r);
    }
  }

  lemma {:induction false} TrimLeftParts(s: string) returns (l: string)
    ensures Blank(l) && s == l + TrimLeft(s, IsSpace)
    ensures TrimLeft(s, IsSpace) != [] ==> !IsSpace(TrimLeft(s, IsSpace)[0])
  {
    l := [];
    if s != [] && IsSpace(s[0]) {
      var rest := TrimLeftParts(s[1..]);
      l := [s[0]] + rest;
    }
  }

  lemma {:induction false} TrimRightParts(s: string) returns (r: string)
    ensures Blank(r) && s == TrimRight(s, IsSpace) + r
    ensures TrimRight(s, IsSpace) != [] ==> !IsSpace(TrimRight(s, IsSpace)[|TrimRight(s, IsSpace)| - 1])
  {
    r := [];
    if s != [] && IsSpace(s[|s| - 1]) {
      var rest := TrimRightParts(s[..|s| - 1]);
      r := rest + [s[|s| - 1]];
    }
  }

  /** And every text is its trimmed form with blanks around it. */
  lemma {:induction false} TrimSpaceParts(s: string) returns (l: string, r: string)
    ensures Blank(l) && Blank(r) && s == l + TrimSpace(s) + r && CleanEdges(TrimSpace(s))
  {
    var mid := TrimLeft(s, IsSpace);
    l := TrimLeftParts(s);
    r := TrimRightParts(mid);
    Regroup(l, TrimSpace(s), r);
    FirstOfPrefix(TrimSpace(s), r);
  }

  lemma Regroup(s: string, t: string, u: string)
    ensures s + t + u == s + (t + u)
  {
  }

  lemma FirstOfPrefix(t: string, r: string)
    ensures t != [] ==> (t + r)[0] == t[0]
  {
  }

  /** The characters are equal, or the same ASCII letter in both cases. */
  predicate SameLetter(c: char, d: char) {
    || c == d
    || ('A' <= c <= 'Z' && d as int == c as int + 32)
    || ('A' <= d <= 'Z' && c as int == d as int + 32)
  }

  /** Texts fold to the same lower case exactly if they agree letter by letter. */
  lemma {:induction false} FoldIff(s: string, t: string)
    ensures ToLower(s) == ToLower(t) <==> |s| == |t| && forall i :: 0 <= i < |s| ==> SameLetter(s[i], t[i])
    ensures EqualFold(s, t) <==> |s| == |t| && forall i :: 0 <= i < |s| ==> SameLetter(s[i], t[i])
  {
    if ToLower(s) == ToLower(t) {
      forall i | 0 <= i < |s| ensures SameLetter(s[i], t[i]) {
        assert ToLower(s)[i] == ToLower(t)[i];
      }
    }
  }

  /** Lower case has no capitals, and folds as the text it came from. */
  lemma {:induction false} LowerMeans(s: string)
    ensures forall i :: 0 <= i < |s| ==> SameLetter(s[i], ToLower(s)[i]) && !('A' <= ToLower(s)[i] <= 'Z')
  {
  }
}
