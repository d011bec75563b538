/** Tagging a message with its surrogate hash (internal/endpoint/endpoint.go, HasHeader and the
    field lookups of internal/mailbox/message.go), on the bytes of the message. */
module Tagging {
  import opened MatchKeys
  import opened Text

  const CRLF := "\r\n"

  // ---------------------------------------------------------------- lines

  /** Splitting at every CRLF, as HasHeader does. */
  function SplitCRLF(s: string): (r: seq<string>)
    ensures r != []
  {
    if |s| < 2 then [s]
    else if s[0] == '\r' && s[1] == '\n' then [""] + SplitCRLF(s[2..])
    else var r := SplitCRLF(s[1..]); [[s[0]] + r[0]] + r[1..]
  }

  /** Splitting at every LF, as a mail parser reads lines. */
  function SplitLF(s: string): (r: seq<string>)
    ensures r != []
  {
    if s == [] then [[]]
    else if s[0] == '\n' then [[]] + SplitLF(s[1..])
    else var r := SplitLF(s[1..]); [[s[0]] + r[0]] + r[1..]
  }

  function DropCR(l: string): string {
    if l != [] && l[|l| - 1] == '\r' then l[..|l| - 1] else l
  }

  /** A terminated line loses the CR before its LF. */
  function ReadLines(lines: seq<string>): (r: seq<string>)
    requires lines != []
    ensures |r| == |lines|
  {
    if |lines| == 1 then lines else [DropCR(lines[0])] + ReadLines(lines[1..])
  }

  /** Every LF follows a CR. */
  predicate IsCRLF(s: string) {
    forall i :: 0 <= i < |s| && s[i] == '\n' ==> i > 0 && s[i - 1] == '\r'
  }

  lemma {:induction false} SplitAtCRLF(t: string)
    ensures SplitLF(CRLF + t) == ["\r"] + SplitLF(t)
    ensures SplitCRLF(CRLF + t) == [""] + SplitCRLF(t)
  {
    var s := CRLF + t;
    assert s[1..] == ['\n'] + t && s[1..][1..] == t && s[2..] == t;
    assert SplitLF(s[1..]) == [[]] + SplitLF(t);
    assert [s[0]] + [] == "\r";
  }

  lemma {:induction false} ReadFirst(l: string, lines: seq<string>)
    requires lines != []
    ensures ReadLines([l] + lines) == [DropCR(l)] + ReadLines(lines)
  {
    assert ([l] + lines)[1..] == lines;
  }

  /** On a message with CRLF line ends both ways of reading lines agree. */
  lemma {:induction false} CRLFLines(s: string)
    requires IsCRLF(s)
    ensures ReadLines(SplitLF(s)) == SplitCRLF(s)
    ensures |SplitLF(s)| > 1 ==> SplitLF(s)[0] != [] && SplitLF(s)[0][|SplitLF(s)[0]| - 1] == '\r'
  {
    if |s| >= 2 && s[0] == '\r' && s[1] == '\n' {
      var t := s[2..];
      assert s == CRLF + t;
      CRLFLines(t);
      SplitAtCRLF(t);
      ReadFirst("\r", SplitLF(t));
    } else if s != [] {
      var c, t := s[0], s[1..];
      CRLFLines(t);
      var r := SplitLF(t);
      if |r| == 1 {
        assert t == [] ==> s == [c] + r[0];
        assert [[c] + r[0]] + r[1..] == [[c] + r[0]];
      } else {
        ReadFirst(r[0], r[1..]);
        ReadFirst([c] + r[0], r[1..]);
        assert r == [r[0]] + r[1..];
        assert DropCR([c] + r[0]) == [c] + DropCR(r[0]);
      }
    }
  }

  // ---------------------------------------------------------------- header fields (section 2.2 of RFC 5322)

  datatype Field = Field(name: string, value: string)
  datatype Parsed = Bad | Fields(fields: seq<Field>)

  /** The lines before the first empty one. */
  function HeaderLines(lines: seq<string>): seq<string> {
    if lines == [] || lines[0] == [] then [] else [lines[0]] + HeaderLines(lines[1..])
  }

  predicate IsFolded(l: string) {
    l != [] && (l[0] == ' ' || l[0] == '\t')
  }

  function FoldedCount(lines: seq<string>): (n: nat)
    ensures n <= |lines|
  {
    if lines == [] || !IsFolded(lines[0]) then 0 else 1 + FoldedCount(lines[1..])
  }

  function Joined(lines: seq<string>): string {
    if lines == [] then [] else " " + TrimSpace(lines[0]) + Joined(lines[1..])
  }

  /** Each field is a line with a colon and the folded lines after it; a folded first line, or a
      line without a colon, makes the block malformed. */
  function ParseLines(lines: seq<string>): Parsed
    decreases |lines|
  {
    if lines == [] then Fields([])
    else if IsFolded(lines[0]) || Colon(lines[0]) == |lines[0]| then Bad
    else
      var n := FoldedCount(lines[1..]);
      var i := Colon(lines[0]);
      match ParseLines(lines[1 + n..])
      case Bad => Bad
      case Fields(fs) => Fields([Field(lines[0][..i], lines[0][i + 1..] + Joined(lines[1..1 + n]))] + fs)
  }

  function ParseHeader(raw: string): Parsed {
    ParseLines(HeaderLines(ReadLines(SplitLF(raw))))
  }

  /** The value of the first field of that name, "" if there is none. */
  function Get(fs: seq<Field>, name: string): string {
    if fs == [] then "" else if EqualFold(fs[0].name, name) then fs[0].value else Get(fs[1..], name)
  }

  /** The hash over Date, Subject and From, whatever it computes. */
  type Hash = (string, string, string) -> string

  /** Without one leading and one trailing angle bracket. */
  function Unbracketed(s: string): string {
    var t := if s != [] && s[0] == '<' then s[1..] else s;
    if t != [] && t[|t| - 1] == '>' then t[..|t| - 1] else t
  }

  function NormalizeMessageID(s: string): string {
    TrimSpace(Unbracketed(TrimSpace(s)))
  }

  function Surrogate(fs: seq<Field>, h: Hash): string {
    h(Get(fs, "Date"), Get(fs, "Subject"), Get(fs, "From"))
  }

  function Tag(fs: seq<Field>, header: string): string {
    TrimSpace(Get(fs, header))
  }

  function KeysOf(fs: seq<Field>, header: string, h: Hash): seq<string> {
    MatchKeysFrom(NormalizeMessageID(Get(fs, "Message-Id")), Tag(fs, header), Surrogate(fs, h))
  }

  // ---------------------------------------------------------------- HasHeader

  /** Where the first CRLF CRLF begins, or the length. */
  function HeaderEnd(raw: string): (n: nat)
    ensures n <= |raw|
  {
    if |raw| < 4 then |raw|
    else if raw[..4] == CRLF + CRLF then 0
    else 1 + HeaderEnd(raw[1..])
  }

  predicate LineNamed(l: string, name: string) {
    HasPrefix(ToLower(l), ToLower(name) + ":")
  }

  predicate HasHeaderLine(raw: string, name: string) {
    exists l :: l in SplitCRLF(raw[..HeaderEnd(raw)]) && LineNamed(l, name)
  }

  method HasHeader(raw: string, name: string) returns (found: bool)
    ensures found == HasHeaderLine(raw, name)
  {
    var lines := SplitCRLF(raw[..HeaderEnd(raw)]);
    for i := 0 to |lines|
      invariant forall j :: 0 <= j < i ==> !LineNamed(lines[j], name)
    {
      if LineNamed(lines[i], name) {
        return true;
      }
    }
    return false;
  }

  lemma {:induction false} HeaderLinesPrefix(lines: seq<string>)
    ensures HeaderLines(lines) <= lines
  {
    if lines != [] && lines[0] != [] {
      HeaderLinesPrefix(lines[1..]);
    }
  }

  lemma {:induction false} HeaderEndAfterLine(t: string)
    requires !(CRLF <= t)
    ensures HeaderEnd(CRLF + t) == 2 + HeaderEnd(t)
  {
    var raw := CRLF + t;
    assert raw[1..] == ['\n'] + t && raw[1..][1..] == t;
    if |raw| >= 4 {
      assert raw[2..4] == t[..2];
      assert raw[..4] != CRLF + CRLF by {
        assert (CRLF + CRLF)[2..4] == CRLF;
      }
      assert raw[1..][0] == '\n' && (CRLF + CRLF)[0] == '\r';
      assert |raw[1..]| >= 4 ==> raw[1..][..4][0] == '\n';
    }
  }

  /** These are the lines, with or without an empty one at the end. */
  predicate AreLines(block: seq<string>, lines: seq<string>) {
    block == lines || block == lines + [""]
  }

  /** HasHeader looks at exactly the lines the parser takes for the header, unless the message
      begins with an empty line. */
  lemma {:induction false} BlockIsHeader(raw: string)
    requires !(CRLF <= raw)
    ensures AreLines(SplitCRLF(raw[..HeaderEnd(raw)]), HeaderLines(SplitCRLF(raw)))
    decreases |raw|
  {
    if |raw| < 2 {
      assert raw[..|raw|] == raw;
    } else {
      var c, t := raw[0], raw[1..];
      assert |raw| >= 4 ==> raw[..4] != CRLF + CRLF by { assert (CRLF + CRLF)[..2] == CRLF; }
      var inner := t[..HeaderEnd(t)];
      assert raw[..HeaderEnd(raw)] == [c] + inner;
      FirstChar(c, inner);
      if CRLF <= t {
        var u := t[2..];
        assert t == CRLF + u;
        if !(CRLF <= u) {
          BlockIsHeader(u);
        }
        AfterOneChar(c, u);
      } else {
        BlockIsHeader(t);
        NonEmptyFirst(t);
        FirstChar(c, t);
        assert raw == [c] + t;
        Widened(c, SplitCRLF(t), SplitCRLF(inner));
      }
    }
  }

  /** A line of one character, and then the rest. */
  lemma {:induction false} AfterOneChar(c: char, u: string)
    requires CRLF <= u || AreLines(SplitCRLF(u[..HeaderEnd(u)]), HeaderLines(SplitCRLF(u)))
    ensures var t := CRLF + u;
            AreLines(SplitCRLF([c] + t[..HeaderEnd(t)]), HeaderLines(SplitCRLF([c] + t)))
  {
    var t := CRLF + u;
    var inner := t[..HeaderEnd(t)];
    CharLine(c, u);
    assert ([[c]] + SplitCRLF(u))[1..] == SplitCRLF(u);
    if CRLF <= u {
      assert u == CRLF + u[2..];
      assert t[..4] == CRLF + CRLF && inner == [];
      assert SplitCRLF(u)[0] == [];
      FirstChar(c, []);
    } else {
      HeaderEndAfterLine(u);
      assert inner == CRLF + u[..HeaderEnd(u)];
      CharLine(c, u[..HeaderEnd(u)]);
    }
  }

  lemma {:induction false} CharLine(c: char, u: string)
    ensures SplitCRLF([c] + (CRLF + u)) == [[c]] + SplitCRLF(u)
  {
    SplitAtCRLF(u);
    FirstChar(c, CRLF + u);
    assert ([""] + SplitCRLF(u))[1..] == SplitCRLF(u) && [c] + "" == [c];
  }

  lemma {:induction false} NonEmptyFirst(t: string)
    requires t != [] && !(CRLF <= t)
    ensures SplitCRLF(t)[0] != []
  {
    if |t| >= 2 {
      assert t[..2] == [t[0], t[1]];
    }
  }

  lemma {:induction false} Widened(c: char, r: seq<string>, q: seq<string>)
    requires r != [] && q != [] && r[0] != [] && AreLines(q, HeaderLines(r))
    ensures AreLines([[c] + q[0]] + q[1..], HeaderLines([[c] + r[0]] + r[1..]))
  {
    assert ([[c] + r[0]] + r[1..])[1..] == r[1..];
    assert HeaderLines(r) == [r[0]] + HeaderLines(r[1..]);
  }

  /** HasHeader looks at every line the parser takes for the header. */
  lemma {:induction false} BlockHoldsHeaderLines(raw: string)
    ensures HeaderLines(SplitCRLF(raw)) <= SplitCRLF(raw[..HeaderEnd(raw)])
  {
    if CRLF <= raw {
      assert SplitCRLF(raw)[0] == [];
    } else {
      BlockIsHeader(raw);
    }
  }

  /** So it finds a header exactly if a line of the header has the name, unless the message begins
      with an empty line. */
  lemma {:induction false} HasHeaderIff(raw: string, name: string)
    requires !(CRLF <= raw)
    ensures HasHeaderLine(raw, name) <==> exists l :: l in HeaderLines(SplitCRLF(raw)) && LineNamed(l, name)
  {
    var block, lines := SplitCRLF(raw[..HeaderEnd(raw)]), HeaderLines(SplitCRLF(raw));
    BlockIsHeader(raw);
    assert forall l :: l in block && l != "" ==> l in lines;
    assert !LineNamed("", name);
  }

  /** A first character that does not begin a CRLF joins the first line. */
  lemma FirstChar(c: char, s: string)
    requires !(c == '\r' && s != [] && s[0] == '\n')
    ensures SplitCRLF([c] + s) == [[c] + SplitCRLF(s)[0]] + SplitCRLF(s)[1..]
  {
    var t := [c] + s;
    assert t[1..] == s;
    if s == [] {
      assert SplitCRLF(s) == [s];
    }
  }

  // ---------------------------------------------------------------- tagging

  /** A header name as the configuration demands it: printable, without colon or space. */
  predicate IsHeaderName(name: string) {
    name != [] && forall c :: c in name ==> c != ':' && !IsSpace(c)
  }

  /** A tag value: one clean line, like the hexadecimal hash. */
  predicate IsTagValue(v: string) {
    v != [] && forall c :: c in v ==> !IsSpace(c)
  }

  function TagLine(name: string, value: string): string {
    name + ": " + value
  }

  /** The bytes after the header line is put in front. */
  function Tagged(raw: string, name: string, value: string): string {
    TagLine(name, value) + CRLF + raw
  }

  lemma {:induction false} OneLine(l: string, t: string)
    requires '\n' !in l && '\r' !in l
    ensures SplitLF(l + CRLF + t) == [l + "\r"] + SplitLF(t)
    ensures SplitCRLF(l + CRLF + t) == [l] + SplitCRLF(t)
  {
    if l == [] {
      assert l + CRLF + t == CRLF + t && l + "\r" == "\r";
      SplitAtCRLF(t);
    } else {
      var c, rest := l[0], l[1..];
      OneLine(rest, t);
      var s := l + CRLF + t;
      assert s[0] == c && s[1..] == rest + CRLF + t;
      assert [c] + (rest + "\r") == l + "\r" && [c] + rest == l;
    }
  }

  /** Parsing a tagged message gives the tag field in front of the fields of the message. */
  lemma {:induction false} TagComesFirst(raw: string, name: string, value: string)
    requires IsHeaderName(name) && IsTagValue(value) && ParseHeader(raw).Fields?
    ensures ParseHeader(Tagged(raw, name, value))
            == Fields([Field(name, " " + value)] + ParseHeader(raw).fields)
  {
    var l := TagLine(name, value);
    assert '\n' !in l && '\r' !in l;
    OneLine(l, raw);
    var lines := ReadLines(SplitLF(raw));
    ReadFirst(l + "\r", SplitLF(raw));
    assert DropCR(l + "\r") == l;
    assert ([l] + lines)[1..] == lines;
    assert HeaderLines([l] + lines) == [l] + HeaderLines(lines);
    TagParses(name, value, HeaderLines(lines));
  }

  lemma {:induction false} TagParses(name: string, value: string, lines: seq<string>)
    requires IsHeaderName(name) && IsTagValue(value) && ParseLines(lines).Fields?
    ensures ParseLines([TagLine(name, value)] + lines)
            == Fields([Field(name, " " + value)] + ParseLines(lines).fields)
  {
    var l := TagLine(name, value);
    assert l[|name|] == ':';
    forall i | 0 <= i < |name| ensures l[i] != ':' {
      assert l[i] == name[i] && name[i] in name;
    }
    assert Colon(l) == |name|;
    assert l[..|name|] == name && l[|name| + 1..] == " " + value;
    assert l[0] == name[0] && name[0] in name;
    assert ([l] + lines)[1..] == lines && ([l] + lines)[1..1] == [];
    assert FoldedCount(lines) == 0;
    assert " " + value + Joined([]) == " " + value;
  }

  lemma TrimTag(value: string)
    requires IsTagValue(value)
    ensures TrimSpace(" " + value) == value
  {
    assert (" " + value)[1..] == value;
    assert value[0] in value && value[|value| - 1] in value;
    TrimKeepsClean(value, IsSpace);
  }

  predicate OtherName(header: string) {
    && !EqualFold(header, "Message-Id") && !EqualFold(header, "Date")
    && !EqualFold(header, "Subject") && !EqualFold(header, "From")
  }

  /** What tagging does to the keys: the tag becomes the given value, the rest is as it was. */
  lemma {:induction false} KeysOfTagged(raw: string, header: string, value: string, h: Hash)
    requires IsHeaderName(header) && OtherName(header) && IsTagValue(value) && ParseHeader(raw).Fields?
    ensures ParseHeader(Tagged(raw, header, value)).Fields?
    ensures var fs := ParseHeader(raw).fields;
            KeysOf(ParseHeader(Tagged(raw, header, value)).fields, header, h)
            == MatchKeysFrom(NormalizeMessageID(Get(fs, "Message-Id")), value, Surrogate(fs, h))
  {
    TagComesFirst(raw, header, value);
    var fs := ParseHeader(raw).fields;
    var gs := [Field(header, " " + value)] + fs;
    assert gs[1..] == fs;
    TrimTag(value);
  }

  /** Without a tag of its own a message keeps its key list under tagging; in general it does so
      if and only if its tag is absent or equal to the surrogate. */
  lemma {:induction false} TaggedKeysIff(raw: string, header: string, h: Hash)
    requires IsHeaderName(header) && OtherName(header) && ParseHeader(raw).Fields?
    requires IsTagValue(Surrogate(ParseHeader(raw).fields, h))
    ensures var fs := ParseHeader(raw).fields;
            var value := Surrogate(fs, h);
            && ParseHeader(Tagged(raw, header, value)).Fields?
            && (KeysOf(ParseHeader(Tagged(raw, header, value)).fields, header, h) == KeysOf(fs, header, h)
                <==> Tag(fs, header) == "" || Tag(fs, header) == value)
  {
    var fs := ParseHeader(raw).fields;
    KeysOfTagged(raw, header, Surrogate(fs, h), h);
    CopyRowKeysIff(NormalizeMessageID(Get(fs, "Message-Id")), Tag(fs, header), Surrogate(fs, h));
  }

  /** In a CRLF message HasHeader sees every tag the parser sees. */
  lemma {:induction false} UntaggedHasNoTag(raw: string, header: string)
    requires IsCRLF(raw) && ParseHeader(raw).Fields? && !HasHeaderLine(raw, header)
    ensures Get(ParseHeader(raw).fields, header) == ""
  {
    CRLFLines(raw);
    BlockHoldsHeaderLines(raw);
    var lines := HeaderLines(SplitCRLF(raw));
    forall l | l in lines ensures !LineNamed(l, header) {
      var i :| 0 <= i < |lines| && lines[i] == l;
      assert SplitCRLF(raw[..HeaderEnd(raw)])[i] == l;
    }
    NoSuchField(lines, header);
  }

  lemma {:induction false} NamedLine(l: string, header: string)
    requires Colon(l) < |l| && EqualFold(l[..Colon(l)], header)
    ensures LineNamed(l, header)
  {
    LowerPrefix(l, Colon(l));
  }

  lemma {:induction false} LowerPrefix(l: string, i: nat)
    requires i < |l| && l[i] == ':'
    ensures ToLower(l[..i]) + ":" <= ToLower(l)
  {
    assert ToLower(l)[..i] == ToLower(l[..i]) && ToLower(l)[i] == ':';
    assert ToLower(l)[..i + 1] == ToLower(l[..i]) + ":";
  }

  lemma {:induction false} NoSuchField(lines: seq<string>, header: string)
    requires ParseLines(lines).Fields? && forall l :: l in lines ==> !LineNamed(l, header)
    ensures Get(ParseLines(lines).fields, header) == ""
    decreases |lines|
  {
    if lines != [] {
      var l, n := lines[0], FoldedCount(lines[1..]);
      var name := l[..Colon(l)];
      NoSuchField(lines[1 + n..], header);
      if EqualFold(name, header) {
        NamedLine(l, header);
      }
      var fs := ParseLines(lines).fields;
      assert fs[1..] == ParseLines(lines[1 + n..]).fields;
    }
  }

  // ---------------------------------------------------------------- the literal that is appended

  /** A message body: bytes in memory, or a header line streamed in front of another body. */
  datatype Literal = Buffer(bytes: string) | Prefixed(header: string, body: Literal)

  function Bytes(l: Literal): string {
    match l
    case Buffer(bytes) => bytes
    case Prefixed(header, body) => header + Bytes(body)
  }

  /** The announced length. */
  function Len(l: Literal): nat {
    match l
    case Buffer(bytes) => |bytes|
    case Prefixed(header, body) => |header| + Len(body)
  }

  /** Only a body in memory can be inspected for the header. */
  function WithHeader(body: Literal, name: string, value: string): Literal {
    if body.Buffer? && HasHeaderLine(body.bytes, name) then body
    else Prefixed(TagLine(name, value) + CRLF, body)
  }

  /** The announced length is the number of bytes streamed, and the original is a suffix. */
  lemma LiteralIsExact(body: Literal, name: string, value: string)
    ensures var l := WithHeader(body, name, value);
            && Len(l) == |Bytes(l)|
            && |Bytes(body)| <= |Bytes(l)| && Bytes(l)[|Bytes(l)| - |Bytes(body)|..] == Bytes(body)
  {
    LenIsExact(WithHeader(body, name, value));
  }

  lemma LenIsExact(l: Literal)
    ensures Len(l) == |Bytes(l)|
  {
  }

  /** The readers behind a literal, one after the other. */
  function Parts(l: Literal): seq<string> {
    match l
    case Buffer(bytes) => [bytes]
    case Prefixed(header, body) => [header] + Parts(body)
  }

  function Flat(parts: seq<string>): string {
    if parts == [] then [] else parts[0] + Flat(parts[1..])
  }

  lemma {:induction false} PartsAreBytes(l: Literal)
    ensures Flat(Parts(l)) == Bytes(l)
  {
    match l
    case Buffer(bytes) => assert [bytes][1..] == [] && bytes + [] == bytes;
    case Prefixed(header, body) =>
      PartsAreBytes(body);
      assert ([header] + Parts(body))[1..] == Parts(body);
  }

  /** A literal being read. */
  class Stream {
    var parts: seq<string>

    constructor (l: Literal)
      ensures Flat(parts) == Bytes(l)
    {
      parts := Parts(l);
      PartsAreBytes(l);
    }

    /** The next bytes, at most n, or the end. */
    method Read(n: nat) returns (chunk: string, eof: bool)
      requires n > 0
      modifies this
      ensures old(Flat(parts)) == chunk + Flat(parts) && |chunk| <= n
      ensures eof <==> old(Flat(parts)) == []
      ensures !eof ==> chunk != []
    {
      while parts != [] && parts[0] == []
        invariant Flat(parts) == old(Flat(parts))
        decreases |parts|
      {
        parts := parts[1..];
      }
      if parts == [] {
        return [], true;
      }
      var first, k := parts[0], if n < |parts[0]| then n else |parts[0]|;
      chunk, eof := first[..k], false;
      parts := [first[k..]] + parts[1..];
      assert first == chunk + first[k..];
    }

    /** Reading to the end in pieces of any size gives all the bytes. */
    method ReadAll(n: nat) returns (out: string)
      requires n > 0
      modifies this
      ensures out == old(Flat(parts))
    {
      out := [];
      var eof := false;
      while !eof
        invariant out + Flat(parts) == old(Flat(parts)) && (eof ==> Flat(parts) == [])
        decreases |Flat(parts)|, !eof
      {
        var chunk;
        chunk, eof := Read(n);
        out := out + chunk;
      }
    }
  }

  /** So the bytes that are streamed are as many as announced. */
  method StreamedLength(body: Literal, name: string, value: string, n: nat) returns (out: string)
    requires n > 0
    ensures |out| == Len(WithHeader(body, name, value)) && out == Bytes(WithHeader(body, name, value))
  {
    LiteralIsExact(body, name, value);
    var s := new Stream(WithHeader(body, name, value));
    out := s.ReadAll(n);
  }

  /** Tagging preserves identity: the copy of a CRLF message, tagged before or not, is parsed to
      exactly the match keys of the message itself. */
  lemma {:induction false} TaggingPreservesIdentity(raw: string, header: string, h: Hash)
    requires IsCRLF(raw) && ParseHeader(raw).Fields?
    requires IsHeaderName(header) && OtherName(header) && IsTagValue(Surrogate(ParseHeader(raw).fields, h))
    ensures var fs := ParseHeader(raw).fields;
            var copy := Bytes(WithHeader(Buffer(raw), header, Surrogate(fs, h)));
            ParseHeader(copy).Fields? && KeysOf(ParseHeader(copy).fields, header, h) == KeysOf(fs, header, h)
  {
    if !HasHeaderLine(raw, header) {
      UntaggedHasNoTag(raw, header);
      TaggedKeysIff(raw, header, h);
      assert TrimSpace("") == "";
    }
  }

  /** A stored copy is recognised as tagged: tagging it again changes nothing. */
  lemma {:induction false} TaggingStoredCopyTwice(raw: string, name: string, value: string, value': string)
    requires IsHeaderName(name) && IsTagValue(value)
    ensures var copy := Buffer(Bytes(WithHeader(Buffer(raw), name, value)));
            WithHeader(copy, name, value') == copy
  {
    if !HasHeaderLine(raw, name) {
      var copy := Tagged(raw, name, value);
      TaggedIsFound(raw, name, value);
      assert Bytes(WithHeader(Buffer(raw), name, value)) == copy;
    }
  }

  lemma {:induction false} TaggedIsFound(raw: string, name: string, value: string)
    requires IsHeaderName(name) && IsTagValue(value)
    ensures HasHeaderLine(Tagged(raw, name, value), name)
  {
    var l, t := TagLine(name, value), Tagged(raw, name, value);
    assert '\n' !in l && '\r' !in l;
    OneLine(l, raw);
    assert l != [] && l == l;
    BlockHoldsHeaderLines(t);
    assert HeaderLines(SplitCRLF(t))[0] == l;
    assert l in SplitCRLF(t[..HeaderEnd(t)]);
    assert ToLower(l)[..|name| + 1] == ToLower(name) + ":";
  }

  /** But the streamed literal itself is not: tagging it once more changes the bytes, unless the
      original was a buffer that had the header. */
  lemma TaggingStreamTwiceIff(body: Literal, name: string, value: string)
    ensures var once := WithHeader(body, name, value);
            Bytes(WithHeader(once, name, value)) == Bytes(once)
            <==> body.Buffer? && HasHeaderLine(body.bytes, name)
  {
  }

  /** Without any CR the message is one single line to HasHeader. */
  lemma {:induction false} BareLFIsOneLine(raw: string)
    requires '\r' !in raw
    ensures SplitCRLF(raw) == [raw] && HeaderEnd(raw) == |raw|
  {
    if raw != [] {
      BareLFIsOneLine(raw[1..]);
      assert raw[0] in raw && raw == [raw[0]] + raw[1..];
      assert |raw| >= 4 ==> raw[..4][0] != '\r';
    }
  }

  lemma {:induction false} OneLFLine(l: string, t: string)
    requires '\n' !in l
    ensures SplitLF(l + "\n" + t) == [l] + SplitLF(t)
  {
    if l == [] {
      assert (l + "\n" + t)[1..] == t;
    } else {
      OneLFLine(l[1..], t);
      var s := l + "\n" + t;
      assert s[0] == l[0] && s[1..] == l[1..] + "\n" + t && [l[0]] + l[1..] == l;
    }
  }

  /** Exactly when the copy of any well-formed message, whatever its line ends, keeps the match
      keys: HasHeader finds the tag, or there is none, or it is the surrogate already. */
  lemma {:induction false} CopyKeepsKeysIff(raw: string, header: string, h: Hash)
    requires ParseHeader(raw).Fields?
    requires IsHeaderName(header) && OtherName(header) && IsTagValue(Surrogate(ParseHeader(raw).fields, h))
    ensures var fs := ParseHeader(raw).fields;
            var value := Surrogate(fs, h);
            var copy := Bytes(WithHeader(Buffer(raw), header, value));
            && ParseHeader(copy).Fields?
            && (KeysOf(ParseHeader(copy).fields, header, h) == KeysOf(fs, header, h)
                <==> HasHeaderLine(raw, header) || Tag(fs, header) == "" || Tag(fs, header) == value)
  {
    if !HasHeaderLine(raw, header) {
      TaggedKeysIff(raw, header, h);
    }
  }

  /** A message with bare LF line ends can fail that condition: HasHeader does not find a tag
      behind another field although the parser does. */
  lemma {:induction false} BareLFHidesTag(name: string, v: string, header: string, tag: string)
    requires IsHeaderName(name) && IsTagValue(v) && IsHeaderName(header) && IsTagValue(tag)
    requires !EqualFold(name, header)
    ensures var raw := TagLine(name, v) + "\n" + (TagLine(header, tag) + "\n" + []);
            && !HasHeaderLine(raw, header)
            && ParseHeader(raw).Fields? && Tag(ParseHeader(raw).fields, header) == tag
  {
    HiddenFromHasHeader(name, v, header, tag);
    SeenByParser(name, v, header, tag);
    TrimTag(tag);
    SecondField(Field(name, " " + v), Field(header, " " + tag));
  }

  lemma {:induction false} SecondField(f: Field, g: Field)
    requires !EqualFold(f.name, g.name)
    ensures Get([f, g], g.name) == g.value
  {
    assert [f, g][1..] == [g];
    assert Get([g], g.name) == g.value;
  }

  lemma {:induction false} CleanLine(name: string, v: string)
    requires IsHeaderName(name) && IsTagValue(v)
    ensures '\n' !in TagLine(name, v) && '\r' !in TagLine(name, v) && TagLine(name, v) != []
  {
  }

  lemma {:induction false} HiddenFromHasHeader(name: string, v: string, header: string, tag: string)
    requires IsHeaderName(name) && IsTagValue(v) && IsHeaderName(header) && IsTagValue(tag)
    requires !EqualFold(name, header)
    ensures !HasHeaderLine(TagLine(name, v) + "\n" + (TagLine(header, tag) + "\n" + []), header)
  {
    var l1, l2 := TagLine(name, v), TagLine(header, tag);
    CleanLine(name, v);
    CleanLine(header, tag);
    var raw := l1 + "\n" + (l2 + "\n" + []);
    BareLFIsOneLine(raw);
    assert raw[..|raw|] == raw;
    if LineNamed(raw, header) {
      SameName(raw, name, header);
    }
  }

  lemma {:induction false} SameName(l: string, name: string, header: string)
    requires name + ":" <= l && ':' !in name && ':' !in header && LineNamed(l, header)
    ensures EqualFold(name, header)
  {
    var low := ToLower(l);
    assert low[|name|] == ':' && low[|header|] == ':';
    assert forall i :: 0 <= i < |name| ==> low[i] == LowerChar(name[i]) && name[i] in name;
    assert forall i :: 0 <= i < |header| ==> low[i] == LowerChar(header[i]) && header[i] in header;
    assert |name| == |header|;
  }

  lemma {:induction false} SeenByParser(name: string, v: string, header: string, tag: string)
    requires IsHeaderName(name) && IsTagValue(v) && IsHeaderName(header) && IsTagValue(tag)
    ensures ParseHeader(TagLine(name, v) + "\n" + (TagLine(header, tag) + "\n" + []))
            == Fields([Field(name, " " + v), Field(header, " " + tag)])
  {
    var l1, l2 := TagLine(name, v), TagLine(header, tag);
    CleanLine(name, v);
    CleanLine(header, tag);
    OneLFLine(l1, l2 + "\n" + []);
    OneLFLine(l2, []);
    LinesKept(l2, [[]]);
    LinesKept(l1, [l2] + [[]]);
    TagParses(header, tag, []);
    TagParses(name, v, [l2] + []);
  }

  lemma {:induction false} LinesKept(l: string, lines: seq<string>)
    requires l != [] && '\r' !in l && lines != []
    ensures HeaderLines(ReadLines([l] + lines)) == [l] + HeaderLines(ReadLines(lines))
  {
    ReadFirst(l, lines);
    assert DropCR(l) == l by { assert l[|l| - 1] in l; }
    assert ([l] + ReadLines(lines))[1..] == ReadLines(lines);
  }
}
