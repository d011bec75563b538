/** What stripping makes of a header as it is written. */
module StrippedText {
  import opened Text
  import opened Tagging
  import opened Selection
  import opened HeaderFields
  import HS = HeaderStripping

  /** Fields stay unless they are called MIME-Version or Content-something, up to case and blanks. */
  predicate Stays(w: Written) {
    var low := ToLower(TrimSpace(w.name));
    low != "mime-version" && !("content-" <= low)
  }

  function Field(w: Written): seq<string> {
    [w.name + ":" + w.value] + FoldLines(w.folds)
  }

  lemma {:induction false} FoldLinesFold(fs: seq<Fold>)
    requires forall f :: f in fs ==> IsFold(f)
    ensures forall i :: 0 <= i < |FoldLines(fs)| ==> IsFolded(FoldLines(fs)[i])
  {
    if fs != [] {
      assert fs[0] in fs;
      FoldLinesFold(fs[1..]);
      assert (fs[0].left + fs[0].text + fs[0].right)[0] == fs[0].left[0];
    }
  }

  lemma {:induction false} FieldIs(w: Written)
    requires IsWritten(w)
    ensures HS.IsField(Field(w)) && (HS.Keeps(Field(w)[0]) <==> Stays(w))
  {
    FoldLinesFold(w.folds);
    NameEnds(w.name, w.value);
    assert (w.name + ":" + w.value)[0] == w.name[0];
  }

  lemma {:induction false} Front(ws: seq<Written>)
    requires ws != []
    ensures LinesOf(ws) == Field(ws[0]) + LinesOf(ws[1..])
  {
  }

  /** The kept lines are those of the fields that stay. */
  lemma {:induction false} KeptWritten(ws: seq<Written>) returns (kept: seq<Written>)
    requires AllWritten(ws)
    ensures KeepsExactly(ws, Stays, kept) && AllWritten(kept)
    ensures HS.KeptLines(LinesOf(ws)) == LinesOf(kept)
  {
    kept := [];
    KeepsNothing(Stays);
    if ws != [] {
      assert ws[0] in ws;
      var rest := KeptWritten(ws[1..]);
      FieldIs(ws[0]);
      NotFolded(ws[1..]);
      Front(ws);
      HS.OneField(Field(ws[0]), LinesOf(ws[1..]));
      KeepsFirst(ws, Stays, rest);
      kept := if Stays(ws[0]) then [ws[0]] + rest else rest;
      Front([ws[0]] + rest);
      assert ([ws[0]] + rest)[1..] == rest;
    }
  }

  lemma {:induction false} RenderedIs(lines: seq<string>, body: string)
    ensures HS.Rendered(lines) + CRLF + body == TextOf(lines, CRLF, body)
  {
    if lines == [] {
      assert [] + CRLF + body == CRLF + body;
    } else {
      RenderedIs(lines[1..], body);
      Regroup(lines[0] + CRLF, HS.Rendered(lines[1..]), CRLF);
      Regroup(lines[0] + CRLF, HS.Rendered(lines[1..]) + CRLF, body);
    }
  }

  /** The block that comes out, with an empty line and any body behind it, is the header written again
      with CRLF line ends and only the fields that stay: whole fields, folded as they were. */
  lemma {:induction false} StrippedIs(ws: seq<Written>, end: string, body: string, body': string)
    returns (kept: seq<Written>)
    requires AllWritten(ws) && IsLineEnd(end)
    ensures KeepsExactly(ws, Stays, kept)
    ensures HS.Stripped(TextOf(LinesOf(ws), end, body)) + CRLF + body' == TextOf(LinesOf(kept), CRLF, body')
  {
    var raw := TextOf(LinesOf(ws), end, body);
    LinesPlain(ws);
    HeaderLinesOf(LinesOf(ws), end, body);
    HS.SameLines(raw);
    kept := KeptWritten(ws);
    RenderedIs(LinesOf(kept), body');
  }
}
