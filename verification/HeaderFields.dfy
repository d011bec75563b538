/** What the parser and HasHeader make of a header as it is written (section 2.2 of RFC 5322), and
    the match keys that follow (internal/mailbox/message.go). */
module HeaderFields {
  import opened MatchKeys
  import opened Text
  import opened Tagging

  // ---------------------------------------------------------------- a written header

  /** A folded line: blanks, the text, blanks. */
  datatype Fold = Fold(left: string, text: string, right: string)

  datatype Written = Written(name: string, value: string, folds: seq<Fold>)

  predicate Plain(s: string) {
    '\r' !in s && '\n' !in s
  }

  predicate IsFold(f: Fold) {
    && f.left != [] && (f.left[0] == ' ' || f.left[0] == '\t')
    && Plain(f.left) && Plain(f.text) && Plain(f.right)
    && Blank(f.left) && Blank(f.right) && CleanEdges(f.text)
  }

  predicate IsWritten(w: Written) {
    && w.name != [] && ':' !in w.name && w.name[0] != ' ' && w.name[0] != '\t'
    && Plain(w.name) && Plain(w.value) && forall f :: f in w.folds ==> IsFold(f)
  }

  predicate AllWritten(ws: seq<Written>) {
    forall w :: w in ws ==> IsWritten(w)
  }

  function FoldLines(fs: seq<Fold>): seq<string> {
    if fs == [] then [] else [fs[0].left + fs[0].text + fs[0].right] + FoldLines(fs[1..])
  }

  /** Folding stands for one space. */
  function Unfolded(fs: seq<Fold>): string {
    if fs == [] then [] else " " + fs[0].text + Unfolded(fs[1..])
  }

  function LinesOf(ws: seq<Written>): seq<string> {
    if ws == [] then [] else [ws[0].name + ":" + ws[0].value] + (FoldLines(ws[0].folds) + LinesOf(ws[1..]))
  }

  function FieldsOf(ws: seq<Written>): seq<Field> {
    if ws == [] then [] else [Field(ws[0].name, ws[0].value + Unfolded(ws[0].folds))] + FieldsOf(ws[1..])
  }

  /** The lines, an empty line and the body. */
  function TextOf(lines: seq<string>, end: string, body: string): string {
    if lines == [] then end + body else lines[0] + end + TextOf(lines[1..], end, body)
  }

  predicate IsLineEnd(end: string) {
    end == "\r\n" || end == "\n"
  }

  // ---------------------------------------------------------------- the parser reads it back

  lemma {:induction false} LineSplit(l: string, end: string, t: string)
    requires Plain(l) && IsLineEnd(end)
    ensures ReadLines(SplitLF(l + end + t)) == [l] + ReadLines(SplitLF(t))
  {
    if end == CRLF {
      OneLine(l, t);
      ReadFirst(l + "\r", SplitLF(t));
      assert DropCR(l + "\r") == l;
    } else {
      OneLFLine(l, t);
      ReadFirst(l, SplitLF(t));
      assert l != [] ==> l[|l| - 1] in l;
    }
  }

  predicate PlainLines(lines: seq<string>) {
    forall l :: l in lines ==> l != [] && Plain(l)
  }

  lemma {:induction false} HeaderLinesOf(lines: seq<string>, end: string, body: string)
    requires PlainLines(lines) && IsLineEnd(end)
    ensures HeaderLines(ReadLines(SplitLF(TextOf(lines, end, body)))) == lines
  {
    if lines == [] {
      assert [] + end + body == end + body;
      LineSplit([], end, body);
    } else {
      var t := TextOf(lines[1..], end, body);
      HeaderLinesOf(lines[1..], end, body);
      LineSplit(lines[0], end, t);
      FirstHeaderLine(lines[0], ReadLines(SplitLF(t)));
      assert [lines[0]] + lines[1..] == lines;
    }
  }

  lemma FirstHeaderLine(l: string, lines: seq<string>)
    requires l != []
    ensures HeaderLines([l] + lines) == [l] + HeaderLines(lines)
  {
    assert ([l] + lines)[1..] == lines;
  }

  lemma {:induction false} FoldsCounted(fs: seq<Fold>, rest: seq<string>)
    requires forall f :: f in fs ==> IsFold(f)
    requires rest == [] || !IsFolded(rest[0])
    ensures FoldedCount(FoldLines(fs) + rest) == |fs| == |FoldLines(fs)|
  {
    if fs == [] {
      assert FoldLines(fs) + rest == rest;
    } else {
      assert fs[0] in fs;
      FoldsCounted(fs[1..], rest);
      var l := fs[0].left + fs[0].text + fs[0].right;
      assert l[0] == fs[0].left[0];
      OneMoreFold(l, FoldLines(fs[1..]), rest);
    }
  }

  lemma OneMoreFold(l: string, folds: seq<string>, rest: seq<string>)
    requires IsFolded(l)
    ensures FoldedCount(([l] + folds) + rest) == 1 + FoldedCount(folds + rest)
  {
    assert (([l] + folds) + rest)[1..] == folds + rest;
  }

  lemma {:induction false} FoldsJoined(fs: seq<Fold>)
    requires forall f :: f in fs ==> IsFold(f)
    ensures Joined(FoldLines(fs)) == Unfolded(fs)
  {
    if fs != [] {
      assert fs[0] in fs;
      FoldsJoined(fs[1..]);
      TrimSpaceOf(fs[0].left, fs[0].text, fs[0].right);
      assert FoldLines(fs)[1..] == FoldLines(fs[1..]);
    }
  }

  lemma {:induction false} NotFolded(ws: seq<Written>)
    requires AllWritten(ws)
    ensures LinesOf(ws) == [] || !IsFolded(LinesOf(ws)[0])
  {
    if ws != [] {
      assert ws[0] in ws;
      assert (ws[0].name + ":" + ws[0].value)[0] == ws[0].name[0];
    }
  }

  lemma {:induction false} NameEnds(name: string, value: string)
    requires ':' !in name
    ensures var l := name + ":" + value;
            Colon(l) == |name| && l[..|name|] == name && l[|name| + 1..] == value
  {
    var l := name + ":" + value;
    assert l[|name|] == ':';
    forall i | 0 <= i < |name| ensures l[i] != ':' {
      assert l[i] == name[i] && name[i] in name;
    }
  }

  /** One field in front of lines that do not continue it. */
  lemma {:induction false} OneField(w: Written, rest: seq<string>)
    requires IsWritten(w) && (rest == [] || !IsFolded(rest[0])) && ParseLines(rest).Fields?
    ensures ParseLines([w.name + ":" + w.value] + (FoldLines(w.folds) + rest))
            == Fields([Field(w.name, w.value + Unfolded(w.folds))] + ParseLines(rest).fields)
  {
    var l, folds := w.name + ":" + w.value, FoldLines(w.folds);
    NameEnds(w.name, w.value);
    FoldsCounted(w.folds, rest);
    FoldsJoined(w.folds);
    assert l[0] == w.name[0];
    FieldLines(l, folds, rest);
  }

  lemma {:induction false} FieldLines(l: string, folds: seq<string>, rest: seq<string>)
    requires l != [] && !IsFolded(l) && Colon(l) < |l| && FoldedCount(folds + rest) == |folds|
    requires ParseLines(rest).Fields?
    ensures ParseLines([l] + (folds + rest))
            == Fields([Field(l[..Colon(l)], l[Colon(l) + 1..] + Joined(folds))] + ParseLines(rest).fields)
  {
    var lines, n := [l] + (folds + rest), |folds|;
    assert lines[1..] == folds + rest;
    assert lines[1..1 + n] == folds && lines[1 + n..] == rest;
  }

  lemma {:induction false} ParseLinesOf(ws: seq<Written>)
    requires AllWritten(ws)
    ensures ParseLines(LinesOf(ws)) == Fields(FieldsOf(ws))
  {
    if ws != [] {
      assert ws[0] in ws;
      ParseLinesOf(ws[1..]);
      NotFolded(ws[1..]);
      OneField(ws[0], LinesOf(ws[1..]));
    }
  }

  lemma {:induction false} FoldLinesPlain(fs: seq<Fold>)
    requires forall f :: f in fs ==> IsFold(f)
    ensures PlainLines(FoldLines(fs))
  {
    if fs != [] {
      assert fs[0] in fs;
      FoldLinesPlain(fs[1..]);
    }
  }

  lemma {:induction false} LinesPlain(ws: seq<Written>)
    requires AllWritten(ws)
    ensures PlainLines(LinesOf(ws))
  {
    if ws != [] {
      assert ws[0] in ws;
      FoldLinesPlain(ws[0].folds);
      LinesPlain(ws[1..]);
    }
  }

  /** Parsing gives back the fields as they were written, unfolded, whatever the line ends. */
  lemma {:induction false} ParsesBack(ws: seq<Written>, end: string, body: string)
    requires AllWritten(ws) && IsLineEnd(end)
    ensures ParseHeader(TextOf(LinesOf(ws), end, body)) == Fields(FieldsOf(ws))
  {
    LinesPlain(ws);
    HeaderLinesOf(LinesOf(ws), end, body);
    ParseLinesOf(ws);
  }

  // ---------------------------------------------------------------- the keys of a header

  /** The first field of that name, in any spelling, is the one at i. */
  predicate IsFirst(fs: seq<Field>, lowerName: string, i: nat) {
    i < |fs| && ToLower(fs[i].name) == lowerName && forall j :: 0 <= j < i ==> ToLower(fs[j].name) != lowerName
  }

  predicate Lacks(fs: seq<Field>, lowerName: string) {
    forall j :: 0 <= j < |fs| ==> ToLower(fs[j].name) != lowerName
  }

  lemma {:induction false} GetFirst(fs: seq<Field>, name: string, i: nat)
    requires IsFirst(fs, ToLower(name), i)
    ensures Get(fs, name) == fs[i].value
  {
    if i > 0 {
      GetFirst(fs[1..], name, i - 1);
    }
  }

  lemma {:induction false} GetNone(fs: seq<Field>, name: string)
    requires Lacks(fs, ToLower(name))
    ensures Get(fs, name) == ""
  {
    if fs != [] {
      GetNone(fs[1..], name);
    }
  }

  /** A Message-ID as it should be: not empty, without blanks or angle brackets. */
  predicate IsMessageID(x: string) {
    x != [] && forall i :: 0 <= i < |x| ==> !IsBlank(x[i]) && x[i] != '<' && x[i] != '>'
  }

  /** The Message-ID with an angle bracket on either side or none, and any blanks inside and around. */
  datatype Spelling = Spelling(left: string, opens: bool, before: string, after: string, closes: bool, right: string)

  predicate IsSpelling(v: Spelling) {
    && Blank(v.left) && Blank(v.before) && Blank(v.after) && Blank(v.right)
    && (!v.opens ==> v.before == "") && (!v.closes ==> v.after == "")
  }

  function Inner(v: Spelling, x: string): string {
    v.before + x + v.after
  }

  function Bracketed(v: Spelling, x: string): string {
    (if v.opens then "<" else "") + Inner(v, x) + (if v.closes then ">" else "")
  }

  /** The value is that Message-ID, spelled in some such way. */
  ghost predicate Holds(value: string, x: string) {
    exists v :: IsSpelling(v) && value == v.left + Bracketed(v, x) + v.right
  }

  lemma {:induction false} Normalizes(value: string, x: string)
    requires IsMessageID(x) && Holds(value, x)
    ensures NormalizeMessageID(value) == x
  {
    var v :| IsSpelling(v) && value == v.left + Bracketed(v, x) + v.right;
    BracketedEdges(v, x);
    TrimSpaceOf(v.left, Bracketed(v, x), v.right);
    TrimSpaceOf(v.before, x, v.after);
  }

  lemma {:induction false} BracketedEdges(v: Spelling, x: string)
    requires IsMessageID(x) && IsSpelling(v)
    ensures CleanEdges(Bracketed(v, x)) && Unbracketed(Bracketed(v, x)) == Inner(v, x)
  {
    var t := Inner(v, x);
    assert !v.opens ==> t[0] == x[0];
    assert !v.closes ==> t[|t| - 1] == x[|x| - 1];
    BracketsGo(t, v.opens, v.closes);
  }

  lemma {:induction false} BracketsGo(t: string, opens: bool, closes: bool)
    requires t != [] && (!opens ==> t[0] != '<' && !IsBlank(t[0]))
    requires !closes ==> t[|t| - 1] != '>' && !IsBlank(t[|t| - 1])
    ensures var b := (if opens then "<" else "") + t + (if closes then ">" else "");
            CleanEdges(b) && Unbracketed(b) == t
  {
    var end := if closes then ">" else "";
    var b := (if opens then "<" else "") + t + end;
    assert b[0] == if opens then '<' else t[0];
    assert (if opens then b[1..] else b) == t + end;
    assert closes ==> (t + end)[..|t + end| - 1] == t;
    assert !closes ==> t + end == t;
  }

  lemma {:induction false} LowerNames()
    ensures ToLower("Message-Id") == "message-id" && ToLower("Date") == "date"
    ensures ToLower("Subject") == "subject" && ToLower("From") == "from"
  {
  }

  /** The Message-ID gives the first key, and no other key of the message is one of a Message-ID. */
  lemma {:induction false} MessageIDKey(fs: seq<Field>, i: nat, x: string, header: string, h: Hash)
    requires IsFirst(fs, "message-id", i) && IsMessageID(x) && Holds(fs[i].value, x)
    ensures KeysOf(fs, header, h)[0] == "mid:" + x
    ensures forall k :: k in KeysOf(fs, header, h) && "mid:" <= k ==> k == "mid:" + x
  {
    LowerNames();
    GetFirst(fs, "Message-Id", i);
    Normalizes(fs[i].value, x);
    var tag, sur := Tag(fs, header), Surrogate(fs, h);
    LateMessageIDAddsOneKey(x, tag, sur);
    OnlyHashKeys(tag, sur);
  }

  lemma {:induction false} OnlyHashKeys(tag: string, sur: string)
    ensures forall k :: k in MatchKeysFrom("", tag, sur) ==> !("mid:" <= k)
  {
    assert ("hash:" + tag)[0] == 'h' && ("hash:" + sur)[0] == 'h';
    forall k | k in MatchKeysFrom("", tag, sur) ensures !("mid:" <= k) {
      assert k[0] == 'h';
    }
  }

  /** Without the field, or with a blank one, no key is that of a Message-ID. */
  lemma {:induction false} NoMessageIDKey(fs: seq<Field>, value: string, header: string, h: Hash)
    requires IsValue(fs, "message-id", value) && Blank(value)
    ensures forall k :: k in KeysOf(fs, header, h) ==> !("mid:" <= k)
  {
    LowerNames();
    GetIs(fs, "Message-Id", value);
    TrimSpaceOf(value, [], []);
    assert value + [] + [] == value;
    OnlyHashKeys(Tag(fs, header), Surrogate(fs, h));
  }

  /** So two messages with the same Message-ID share a key, whatever else they hold. */
  lemma {:induction false} SameMessageIDShareKey(fs: seq<Field>, i: nat, gs: seq<Field>, j: nat, x: string,
                                                 header: string, h: Hash)
    requires IsMessageID(x) && IsFirst(fs, "message-id", i) && IsFirst(gs, "message-id", j)
    requires Holds(fs[i].value, x) && Holds(gs[j].value, x)
    ensures KeySet(KeysOf(fs, header, h)) * KeySet(KeysOf(gs, header, h)) != {}
  {
    MessageIDKey(fs, i, x, header, h);
    MessageIDKey(gs, j, x, header, h);
    var k := "mid:" + x;
    assert KeysOf(fs, header, h)[0] == k && KeysOf(gs, header, h)[0] == k;
    assert k in KeySet(KeysOf(fs, header, h)) * KeySet(KeysOf(gs, header, h));
  }

  /** The tag that was written is a key, for any value with clean edges. */
  lemma {:induction false} TagKey(fs: seq<Field>, i: nat, l: string, x: string, r: string, header: string, h: Hash)
    requires IsFirst(fs, ToLower(header), i) && x != [] && CleanEdges(x) && Blank(l) && Blank(r)
    requires fs[i].value == l + x + r
    ensures "hash:" + x in KeysOf(fs, header, h)
  {
    GetFirst(fs, header, i);
    TrimSpaceOf(l, x, r);
  }

  /** The value of the first such field, "" if there is none. */
  ghost predicate IsValue(fs: seq<Field>, lowerName: string, value: string) {
    (Lacks(fs, lowerName) && value == "") || exists i: nat :: IsFirst(fs, lowerName, i) && fs[i].value == value
  }

  lemma {:induction false} GetIs(fs: seq<Field>, name: string, value: string)
    requires IsValue(fs, ToLower(name), value)
    ensures Get(fs, name) == value
  {
    if Lacks(fs, ToLower(name)) && value == "" {
      GetNone(fs, name);
    } else {
      var i: nat :| IsFirst(fs, ToLower(name), i) && fs[i].value == value;
      GetFirst(fs, name, i);
    }
  }

  /** The surrogate is the hash of the first Date, Subject and From, and always a key. */
  lemma {:induction false} SurrogateKey(fs: seq<Field>, date: string, subject: string, from: string, header: string,
                                        h: Hash)
    requires IsValue(fs, "date", date) && IsValue(fs, "subject", subject) && IsValue(fs, "from", from)
    ensures Surrogate(fs, h) == h(date, subject, from)
    ensures "hash:" + h(date, subject, from) in KeysOf(fs, header, h)
  {
    LowerNames();
    GetIs(fs, "Date", date);
    GetIs(fs, "Subject", subject);
    GetIs(fs, "From", from);
  }

  // ---------------------------------------------------------------- the keys of a written message

  lemma {:induction false} FieldAt(ws: seq<Written>)
    ensures |FieldsOf(ws)| == |ws|
    ensures forall i :: 0 <= i < |ws| ==> FieldsOf(ws)[i] == Field(ws[i].name, ws[i].value + Unfolded(ws[i].folds))
  {
    if ws != [] {
      FieldAt(ws[1..]);
    }
  }

  /** From the bytes: the first Message-Id field of a message gives its first key, folded or not. */
  lemma {:induction false} MessageIDKeyOfText(ws: seq<Written>, end: string, body: string, i: nat, x: string,
                                              header: string, h: Hash)
    requires AllWritten(ws) && IsLineEnd(end) && IsMessageID(x)
    requires i < |ws| && ToLower(ws[i].name) == "message-id" && Holds(ws[i].value + Unfolded(ws[i].folds), x)
    requires forall j :: 0 <= j < i ==> ToLower(ws[j].name) != "message-id"
    ensures var raw := TextOf(LinesOf(ws), end, body);
            && ParseHeader(raw).Fields?
            && KeysOf(ParseHeader(raw).fields, header, h)[0] == "mid:" + x
  {
    ParsesBack(ws, end, body);
    FieldAt(ws);
    MessageIDKey(FieldsOf(ws), i, x, header, h);
  }

  // ---------------------------------------------------------------- HasHeader finds what was written

  lemma {:induction false} CRLFHeaderLines(lines: seq<string>, body: string)
    requires PlainLines(lines)
    ensures HeaderLines(SplitCRLF(TextOf(lines, CRLF, body))) == lines
  {
    if lines == [] {
      assert [] + CRLF + body == CRLF + body;
      OneLine([], body);
    } else {
      var t := TextOf(lines[1..], CRLF, body);
      assert lines[0] in lines;
      CRLFHeaderLines(lines[1..], body);
      OneLine(lines[0], t);
      FirstHeaderLine(lines[0], SplitCRLF(t));
      assert [lines[0]] + lines[1..] == lines;
    }
  }

  lemma {:induction false} FoldNotNamed(l: string, name: string)
    requires IsHeaderName(name) && l != [] && (l[0] == ' ' || l[0] == '\t')
    ensures !LineNamed(l, name)
  {
    assert name[0] in name;
    assert (ToLower(name) + ":")[0] == LowerChar(name[0]) && ToLower(l)[0] == l[0];
  }

  lemma {:induction false} NoFoldNamed(fs: seq<Fold>, name: string)
    requires IsHeaderName(name) && forall f :: f in fs ==> IsFold(f)
    ensures forall l :: l in FoldLines(fs) ==> !LineNamed(l, name)
  {
    if fs != [] {
      assert fs[0] in fs;
      NoFoldNamed(fs[1..], name);
      FoldNotNamed(fs[0].left + fs[0].text + fs[0].right, name);
    }
  }

  lemma {:induction false} NamedIff(w: Written, name: string)
    requires IsWritten(w) && IsHeaderName(name)
    ensures LineNamed(w.name + ":" + w.value, name) <==> ToLower(w.name) == ToLower(name)
  {
    var l := w.name + ":" + w.value;
    NameEnds(w.name, w.value);
    if ToLower(w.name) == ToLower(name) {
      NamedLine(l, name);
    }
    if LineNamed(l, name) {
      assert l[..|w.name| + 1] == w.name + ":";
      SameName(l, w.name, name);
    }
  }

  predicate HasField(ws: seq<Written>, name: string) {
    exists w :: w in ws && ToLower(w.name) == ToLower(name)
  }

  predicate SomeNamed(lines: seq<string>, name: string) {
    exists l :: l in lines && LineNamed(l, name)
  }

  lemma {:induction false} SomeNamedParts(l: string, s: seq<string>, t: seq<string>, name: string)
    ensures SomeNamed([l] + (s + t), name) <==> LineNamed(l, name) || SomeNamed(s, name) || SomeNamed(t, name)
  {
    assert forall x :: x in [l] + (s + t) <==> x == l || x in s || x in t;
  }

  lemma {:induction false} FieldNamed(ws: seq<Written>, name: string)
    requires AllWritten(ws) && IsHeaderName(name)
    ensures SomeNamed(LinesOf(ws), name) <==> HasField(ws, name)
  {
    if ws != [] {
      assert ws[0] in ws && ws == [ws[0]] + ws[1..];
      FieldNamed(ws[1..], name);
      NamedIff(ws[0], name);
      NoFoldNamed(ws[0].folds, name);
      SomeNamedParts(ws[0].name + ":" + ws[0].value, FoldLines(ws[0].folds), LinesOf(ws[1..]), name);
    }
  }

  /** In a message with CRLF line ends and at least one field, HasHeader finds exactly the names of
      the fields, in any spelling. */
  lemma {:induction false} HasHeaderOfText(ws: seq<Written>, body: string, name: string)
    requires AllWritten(ws) && ws != [] && IsHeaderName(name)
    ensures HasHeaderLine(TextOf(LinesOf(ws), CRLF, body), name) <==> HasField(ws, name)
  {
    var lines := LinesOf(ws);
    var raw := TextOf(lines, CRLF, body);
    LinesPlain(ws);
    CRLFHeaderLines(lines, body);
    assert lines[0] in lines;
    assert raw[0] == lines[0][0] && lines[0][0] in lines[0];
    HasHeaderIff(raw, name);
    FieldNamed(ws, name);
  }

  /** A message that begins with an empty line has no header to the parser, but HasHeader looks at the
      lines up to the next one. */
  lemma {:induction false} LeadingEmptyLine(name: string, value: string)
    requires IsHeaderName(name) && IsTagValue(value)
    ensures var raw := CRLF + (TagLine(name, value) + CRLF + []);
            ParseHeader(raw) == Fields([]) && HasHeaderLine(raw, name)
  {
    var t := TagLine(name, value) + CRLF + [];
    SplitAtCRLF(t);
    ReadFirst("\r", SplitLF(t));
    FoundAfterEmptyLine(name, value);
  }

  lemma {:induction false} FoundAfterEmptyLine(name: string, value: string)
    requires IsHeaderName(name) && IsTagValue(value)
    ensures HasHeaderLine(CRLF + (TagLine(name, value) + CRLF + []), name)
  {
    var l := TagLine(name, value);
    var t := l + CRLF + [];
    CleanLine(name, value);
    OneLine(l, []);
    NotBlankLine(l);
    HeaderEndAfterLine(t);
    BlockHoldsHeaderLines(t);
    var raw, block := CRLF + t, t[..HeaderEnd(t)];
    assert HeaderLines(SplitCRLF(t))[0] == l;
    assert raw[..HeaderEnd(raw)] == CRLF + block;
    SplitAtCRLF(block);
    assert l in SplitCRLF(raw[..HeaderEnd(raw)]);
    assert ToLower(l)[..|name| + 1] == ToLower(name) + ":";
  }

  lemma {:induction false} NotBlankLine(l: string)
    requires l != [] && '\r' !in l
    ensures !(CRLF <= l + CRLF + [])
  {
    assert l[0] in l && (l + CRLF + [])[0] == l[0];
  }

  // ---------------------------------------------------------------- what the parser refuses

  lemma {:induction false} SkippedAreFolded(lines: seq<string>)
    ensures forall i :: 0 <= i < FoldedCount(lines) ==> IsFolded(lines[i])
    ensures FoldedCount(lines) < |lines| ==> !IsFolded(lines[FoldedCount(lines)])
  {
    if lines != [] && IsFolded(lines[0]) {
      SkippedAreFolded(lines[1..]);
    }
  }

  lemma {:induction false} HasColon(l: string)
    ensures Colon(l) < |l| <==> ':' in l
  {
  }

  predicate NoColonLine(lines: seq<string>) {
    exists l :: l in lines && !IsFolded(l) && ':' !in l
  }

  lemma {:induction false} NoColonParts(s: seq<string>, t: seq<string>)
    requires forall l :: l in s ==> IsFolded(l) || ':' in l
    ensures NoColonLine(s + t) <==> NoColonLine(t)
  {
    assert forall l :: l in s + t <==> l in s || l in t;
  }

  /** A header is malformed exactly if it begins with a folded line, or a line that does not continue
      another has no colon. */
  lemma {:induction false} MalformedIff(lines: seq<string>)
    ensures ParseLines(lines).Bad? <==> (lines != [] && IsFolded(lines[0])) || NoColonLine(lines)
    decreases |lines|
  {
    if lines != [] && !IsFolded(lines[0]) {
      HasColon(lines[0]);
      assert lines[0] in lines;
      if ':' in lines[0] {
        var n := FoldedCount(lines[1..]);
        var rest := lines[1 + n..];
        SkippedAreFolded(lines[1..]);
        MalformedIff(rest);
        assert lines == lines[..1 + n] + rest;
        NoColonParts(lines[..1 + n], rest);
      }
    }
  }
}
