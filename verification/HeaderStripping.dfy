/** Removing the MIME framing headers from a stored header block (strippedTransportHeaders in
    internal/endpoint/pst.go). The body of the message is rebuilt elsewhere. */
module HeaderStripping {
  import opened Text
  import opened Tagging

  /** Every CRLF replaced by LF. */
  function ToLF(s: string): string {
    if s == [] then []
    else if CRLF <= s then ['\n'] + ToLF(s[2..])
    else [s[0]] + ToLF(s[1..])
  }

  function Lines(raw: string): (r: seq<string>)
    ensures r != []
  {
    SplitLF(ToLF(raw))
  }

  /** MIME-Version and Content-*. */
  predicate IsFraming(name: string) {
    var low := ToLower(TrimSpace(name));
    low == "mime-version" || HasPrefix(low, "content-")
  }

  /** Whether the field that begins with this line is kept. A folded line begins a field only at
      the very top, where it has no name. */
  predicate Keeps(l: string) {
    IsFolded(l) || !IsFraming(l[..Colon(l)])
  }

  /** The lines of the kept fields: each field is a line with the folded lines after it. */
  function KeptLines(lines: seq<string>): seq<string>
    decreases |lines|
  {
    if lines == [] then []
    else
      var n := 1 + FoldedCount(lines[1..]);
      (if Keeps(lines[0]) then lines[..n] else []) + KeptLines(lines[n..])
  }

  function Rendered(lines: seq<string>): string {
    if lines == [] then [] else lines[0] + CRLF + Rendered(lines[1..])
  }

  function Stripped(raw: string): string {
    Rendered(KeptLines(HeaderLines(Lines(raw))))
  }

  // ---------------------------------------------------------------- the loop

  /** What is still to come out when cur is the field being collected. */
  function Pending(cur: seq<string>, keep: bool, rest: seq<string>): seq<string> {
    var n := FoldedCount(rest);
    (if keep then cur + rest[..n] else []) + KeptLines(rest[n..])
  }

  lemma {:induction false} FoldedStep(cur: seq<string>, keep: bool, rest: seq<string>)
    requires rest != [] && IsFolded(rest[0])
    ensures Pending(cur, keep, rest) == Pending(cur + [rest[0]], keep, rest[1..])
  {
    var n := FoldedCount(rest[1..]);
    assert rest[1 + n..] == rest[1..][n..];
    assert cur + rest[..1 + n] == cur + [rest[0]] + rest[1..][..n];
  }

  lemma {:induction false} FieldBegins(rest: seq<string>)
    requires rest != []
    ensures KeptLines(rest) == Pending([rest[0]], Keeps(rest[0]), rest[1..])
  {
    var n := FoldedCount(rest[1..]);
    assert rest[1 + n..] == rest[1..][n..];
    assert rest[..1 + n] == [rest[0]] + rest[1..][..n];
  }

  lemma {:induction false} FieldStep(out: seq<string>, cur: seq<string>, keep: bool, rest: seq<string>)
    requires rest != [] && !IsFolded(rest[0])
    ensures out + Pending(cur, keep, rest)
            == Flushed(out, cur, keep) + Pending([rest[0]], Keeps(rest[0]), rest[1..])
  {
    FieldBegins(rest);
    var p := KeptLines(rest);
    assert cur + rest[..0] == cur && rest[0..] == rest;
    assert Pending(cur, keep, rest) == (if keep then cur else []) + p;
    assert out + (cur + p) == (out + cur) + p;
  }

  lemma {:induction false} StartsPending(lines: seq<string>)
    ensures Pending([], true, lines) == KeptLines(lines)
  {
    var n := FoldedCount(lines);
    if n == 0 {
      assert lines[..0] == [] && lines[0..] == lines;
    } else {
      assert n == 1 + FoldedCount(lines[1..]);
      assert [] + lines[..n] == lines[..n];
    }
  }

  lemma PendingEnd(cur: seq<string>, keep: bool, rest: seq<string>)
    requires rest == []
    ensures Pending(cur, keep, rest) == if keep then cur else []
  {
    assert rest[..0] == [] && cur + [] == cur;
  }

  /** One line of the loop, in either case. */
  lemma {:induction false} LineStep(out: seq<string>, cur: seq<string>, keep: bool, rest: seq<string>, all: seq<string>)
    requires rest != [] && out + Pending(cur, keep, rest) == all
    ensures IsFolded(rest[0]) ==> out + Pending(cur + [rest[0]], keep, rest[1..]) == all
    ensures !IsFolded(rest[0]) ==> Flushed(out, cur, keep) + Pending([rest[0]], Keeps(rest[0]), rest[1..]) == all
  {
    if IsFolded(rest[0]) {
      FoldedStep(cur, keep, rest);
    } else {
      FieldStep(out, cur, keep, rest);
    }
  }

  lemma {:induction false} LastFlush(out: seq<string>, cur: seq<string>, keep: bool, rest: seq<string>,
                                     all: seq<string>)
    requires rest == [] && out + Pending(cur, keep, rest) == all
    ensures Flushed(out, cur, keep) == all
  {
    PendingEnd(cur, keep, rest);
  }

  method StrippedTransportHeaders(raw: string) returns (b: string)
    ensures b == Stripped(raw)
  {
    var kept := KeepFields(Lines(raw));
    b := Render(kept);
  }

  /** The line loop with its flush. */
  method KeepFields(lines: seq<string>) returns (out: seq<string>)
    ensures out == KeptLines(HeaderLines(lines))
  {
    ghost var rest, all := HeaderLines(lines), KeptLines(HeaderLines(lines));
    HeaderLinesEnd(lines);
    StartsPending(rest);
    var cur: seq<string>, keep := [], true;
    out := [];
    var i := 0;
    while i < |lines| && lines[i] != []
      invariant 0 <= i <= |HeaderLines(lines)| && rest == HeaderLines(lines)[i..]
      invariant out + Pending(cur, keep, rest) == all
    {
      var ln := lines[i];
      assert rest != [] && rest[0] == ln;
      LineStep(out, cur, keep, rest, all);
      if IsFolded(ln) {
        cur := cur + [ln];
      } else {
        out := Flushed(out, cur, keep);
        cur, keep := [ln], !IsFraming(ln[..Colon(ln)]);
      }
      i, rest := i + 1, rest[1..];
    }
    assert i == |HeaderLines(lines)|;
    LastFlush(out, cur, keep, rest, all);
    out := Flushed(out, cur, keep);
  }

  function Flushed(out: seq<string>, cur: seq<string>, keep: bool): seq<string> {
    if |cur| > 0 && keep then out + cur else out
  }

  /** The header block ends at the first empty line, or with the text. */
  lemma {:induction false} HeaderLinesEnd(lines: seq<string>)
    ensures var h := HeaderLines(lines);
            && h <= lines && (forall i :: 0 <= i < |h| ==> lines[i] != [])
            && (|h| < |lines| ==> lines[|h|] == [])
  {
    if lines != [] && lines[0] != [] {
      HeaderLinesEnd(lines[1..]);
      assert forall i :: 1 <= i < |HeaderLines(lines)| ==> lines[i] == lines[1..][i - 1];
    }
  }

  method Render(lines: seq<string>) returns (b: string)
    ensures b == Rendered(lines)
  {
    b := [];
    for i := 0 to |lines|
      invariant b + Rendered(lines[i..]) == Rendered(lines)
    {
      assert lines[i..][1..] == lines[i + 1..];
      b := b + lines[i] + CRLF;
    }
  }

  // ---------------------------------------------------------------- stripping twice

  predicate LineOk(l: string) {
    l != [] && '\n' !in l
  }

  lemma {:induction false} RenderedLine(l: string, t: string)
    requires '\n' !in l
    ensures ToLF(l + CRLF + t) == l + "\n" + ToLF(t)
  {
    var s := l + CRLF + t;
    if l == [] {
      assert s[..2] == CRLF && s[2..] == t;
    } else {
      assert s[1..] == l[1..] + CRLF + t;
      RenderedLine(l[1..], t);
      assert s[1] != '\n';
      assert l == [l[0]] + l[1..];
    }
  }

  lemma {:induction false} LineInFront(l: string, t: string)
    requires LineOk(l)
    ensures Lines(l + CRLF + t) == [l] + Lines(t)
  {
    RenderedLine(l, t);
    OneLFLine(l, ToLF(t));
  }

  /** The lines of a rendered block are the rendered lines and the empty rest. */
  lemma {:induction false} LinesOfRendered(lines: seq<string>)
    requires forall l :: l in lines ==> LineOk(l)
    ensures Lines(Rendered(lines)) == lines + [[]]
  {
    if lines == [] {
      assert Lines([]) == [[]];
    } else {
      var l, rest := lines[0], lines[1..];
      assert LineOk(l) by { assert l in lines; }
      LinesOfRendered(rest);
      LineInFront(l, Rendered(rest));
      assert lines + [[]] == [l] + (rest + [[]]);
    }
  }

  lemma {:induction false} HeaderOfRendered(lines: seq<string>)
    requires forall l :: l in lines ==> LineOk(l)
    ensures HeaderLines(lines + [[]]) == lines
  {
    if lines != [] {
      assert LineOk(lines[0]) by { assert lines[0] in lines; }
      HeaderOfRendered(lines[1..]);
      assert (lines + [[]])[1..] == lines[1..] + [[]];
    }
  }

  lemma {:induction false} NoLF(s: string)
    ensures forall l :: l in SplitLF(s) ==> '\n' !in l
  {
    if s != [] {
      NoLF(s[1..]);
    }
  }

  lemma {:induction false} KeptAreLines(lines: seq<string>)
    ensures forall l :: l in KeptLines(lines) ==> l in lines
    decreases |lines|
  {
    if lines != [] {
      KeptAreLines(lines[1 + FoldedCount(lines[1..])..]);
    }
  }

  lemma {:induction false} FoldedPrefix(lines: seq<string>)
    ensures var n := FoldedCount(lines);
            && (forall i :: 0 <= i < n ==> IsFolded(lines[i]))
            && (n < |lines| ==> !IsFolded(lines[n]))
  {
    if lines != [] && IsFolded(lines[0]) {
      FoldedPrefix(lines[1..]);
      assert forall i :: 1 <= i < FoldedCount(lines) ==> lines[i] == lines[1..][i - 1];
    }
  }

  predicate IsField(field: seq<string>) {
    field != [] && forall i :: 1 <= i < |field| ==> IsFolded(field[i])
  }

  predicate StartsField(rest: seq<string>) {
    rest == [] || !IsFolded(rest[0])
  }

  lemma {:induction false} FoldedUpTo(folded: seq<string>, rest: seq<string>)
    requires forall i :: 0 <= i < |folded| ==> IsFolded(folded[i])
    requires StartsField(rest)
    ensures FoldedCount(folded + rest) == |folded|
  {
    if folded == [] {
      assert folded + rest == rest;
    } else {
      FoldedUpTo(folded[1..], rest);
      assert (folded + rest)[1..] == folded[1..] + rest;
    }
  }

  /** What is kept of lines that begin with a field begins with a field. */
  lemma {:induction false} KeptStart(lines: seq<string>)
    requires StartsField(lines)
    ensures StartsField(KeptLines(lines))
    decreases |lines|
  {
    if lines != [] {
      FoldedPrefix(lines[1..]);
      var n := 1 + FoldedCount(lines[1..]);
      assert n < |lines| ==> lines[1..][n - 1] == lines[n];
      KeptStart(lines[n..]);
    }
  }

  /** One field in front of a block that begins with a field. */
  lemma {:induction false} OneField(field: seq<string>, rest: seq<string>)
    requires IsField(field) && StartsField(rest)
    ensures FoldedCount((field + rest)[1..]) == |field| - 1
    ensures KeptLines(field + rest) == (if Keeps(field[0]) then field else []) + KeptLines(rest)
  {
    FoldedUpTo(field[1..], rest);
    var s := field + rest;
    assert s[1..] == field[1..] + rest;
    assert s[..|field|] == field && s[|field|..] == rest;
  }

  lemma {:induction false} SplitField(lines: seq<string>) returns (field: seq<string>, rest: seq<string>)
    requires lines != []
    ensures lines == field + rest && IsField(field) && field[0] == lines[0] && StartsField(rest)
    ensures |field| == 1 + FoldedCount(lines[1..]) && |rest| < |lines|
  {
    var n := 1 + FoldedCount(lines[1..]);
    FoldedPrefix(lines[1..]);
    field, rest := lines[..n], lines[n..];
    forall i | 1 <= i < n ensures IsFolded(field[i]) {
      assert field[i] == lines[1..][i - 1];
    }
    assert n < |lines| ==> lines[1..][n - 1] == lines[n];
  }

  lemma {:induction false} KeptTwice(lines: seq<string>)
    ensures KeptLines(KeptLines(lines)) == KeptLines(lines)
    decreases |lines|
  {
    if lines != [] {
      var field, rest := SplitField(lines);
      OneField(field, rest);
      KeptTwice(rest);
      KeptStart(rest);
      if Keeps(field[0]) {
        OneField(field, KeptLines(rest));
      } else {
        assert [] + KeptLines(rest) == KeptLines(rest);
      }
    }
  }

  lemma {:induction false} KeptAreOk(raw: string)
    ensures forall l :: l in KeptLines(HeaderLines(Lines(raw))) ==> LineOk(l)
  {
    NoLF(ToLF(raw));
    HeaderLinesEnd(Lines(raw));
    var h := HeaderLines(Lines(raw));
    forall l | l in h ensures LineOk(l) {
      var i :| 0 <= i < |h| && h[i] == l;
      assert Lines(raw)[i] == l;
    }
    KeptAreLines(h);
  }

  /** Stripping twice equals stripping once, for any text. */
  lemma {:induction false} StrippedTwice(raw: string)
    ensures Stripped(Stripped(raw)) == Stripped(raw)
  {
    var kept := KeptLines(HeaderLines(Lines(raw)));
    KeptAreOk(raw);
    LinesOfRendered(kept);
    HeaderOfRendered(kept);
    KeptTwice(HeaderLines(Lines(raw)));
  }

  // ---------------------------------------------------------------- meaning

  function WithoutFraming(fs: seq<Field>): seq<Field> {
    if fs == [] then []
    else (if IsFraming(fs[0].name) then [] else [fs[0]]) + WithoutFraming(fs[1..])
  }

  /** Replacing CRLF first and dropping the CR of each terminated line are the same reading. */
  lemma {:induction false} SameLines(s: string)
    ensures Lines(s) == ReadLines(SplitLF(s))
  {
    if CRLF <= s {
      var t := s[2..];
      assert s == CRLF + t;
      SameLines(t);
      SplitAtCRLF(t);
      ReadFirst("\r", SplitLF(t));
      assert ToLF(s) == ['\n'] + ToLF(t) && (['\n'] + ToLF(t))[1..] == ToLF(t);
    } else if s != [] {
      var c, t := s[0], s[1..];
      SameLines(t);
      assert ToLF(s) == [c] + ToLF(t) && ([c] + ToLF(t))[1..] == ToLF(t);
      var r := SplitLF(t);
      if c == '\n' {
        ReadFirst([], r);
      } else {
        JoinFirst(c, r);
      }
    }
  }

  /** A character joined to the first line is kept, unless it is the CR of a terminated line. */
  lemma {:induction false} JoinFirst(c: char, r: seq<string>)
    requires r != []
    ensures (c == '\r' && r[0] == [] && |r| > 1)
            || ReadLines([[c] + r[0]] + r[1..]) == [[c] + ReadLines(r)[0]] + ReadLines(r)[1..]
  {
    if |r| == 1 {
      assert [[c] + r[0]] + r[1..] == [[c] + r[0]];
    } else {
      assert r == [r[0]] + r[1..];
      ReadFirst(r[0], r[1..]);
      ReadFirst([c] + r[0], r[1..]);
      assert c != '\r' || r[0] != [] ==> DropCR([c] + r[0]) == [c] + DropCR(r[0]);
    }
  }

  /** The field that a line and its folded lines are parsed to. */
  function FieldOf(field: seq<string>): Field
    requires field != [] && Colon(field[0]) < |field[0]|
  {
    var i := Colon(field[0]);
    Field(field[0][..i], field[0][i + 1..] + Joined(field[1..]))
  }

  /** Parsing a block that begins with a complete field. */
  lemma {:induction false} ParseField(field: seq<string>, rest: seq<string>)
    requires IsField(field) && StartsField(rest)
    ensures ParseLines(field + rest).Fields?
            <==> ParseLines(rest).Fields? && !IsFolded(field[0]) && Colon(field[0]) < |field[0]|
    ensures ParseLines(field + rest).Fields?
            ==> ParseLines(field + rest).fields == [FieldOf(field)] + ParseLines(rest).fields
  {
    var s := field + rest;
    OneField(field, rest);
    assert s[0] == field[0] && s[|field|..] == rest && s[1..|field|] == field[1..];
  }

  lemma {:induction false} KeptFields(lines: seq<string>)
    requires ParseLines(lines).Fields?
    ensures ParseLines(KeptLines(lines)) == Fields(WithoutFraming(ParseLines(lines).fields))
    decreases |lines|
  {
    if lines != [] {
      var field, rest := SplitField(lines);
      ParseField(field, rest);
      KeptFields(rest);
      KeptStart(rest);
      var kept := KeptLines(rest);
      ParseField(field, kept);
      FramingStep(FieldOf(field), ParseLines(rest).fields);
      OneField(field, rest);
      assert KeptLines(lines) == if IsFraming(FieldOf(field).name) then kept else field + kept;
    }
  }

  lemma FramingStep(f: Field, fs: seq<Field>)
    ensures WithoutFraming([f] + fs) == if IsFraming(f.name) then WithoutFraming(fs) else [f] + WithoutFraming(fs)
  {
    assert ([f] + fs)[1..] == fs;
  }

  /** The meaning: a well-formed block is parsed afterwards to exactly the fields it had before
      that are neither MIME-Version nor Content-*, in order and with their values. */
  lemma {:induction false} StrippedMeans(raw: string)
    requires ParseHeader(raw).Fields?
    ensures ParseHeader(Stripped(raw)) == Fields(WithoutFraming(ParseHeader(raw).fields))
  {
    var lines := HeaderLines(Lines(raw));
    SameLines(raw);
    KeptFields(lines);
    KeptAreOk(raw);
    LinesOfRendered(KeptLines(lines));
    HeaderOfRendered(KeptLines(lines));
    SameLines(Stripped(raw));
  }
}
