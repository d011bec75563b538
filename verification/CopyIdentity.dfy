/** The bytes that copyOne appends are a copy in the sense of SyncRuns. */
module CopyIdentity {
  import opened MatchKeys
  import opened Retention
  import opened SyncRuns
  import opened Tagging
  import Incremental
  import Copying

  /** The index entry of a message, parsed from its bytes. */
  function Parsed(id: string, raw: string, header: string, h: Hash): Entry
    requires ParseHeader(raw).Fields?
  {
    var fs := ParseHeader(raw).fields;
    Entry(id, [], 0, NormalizeMessageID(Get(fs, "Message-Id")), Surrogate(fs, h), KeysOf(fs, header, h))
  }

  lemma {:induction false} OtherFieldsStay(raw: string, header: string, value: string, h: Hash)
    requires IsHeaderName(header) && OtherName(header) && IsTagValue(value) && ParseHeader(raw).Fields?
    ensures ParseHeader(Tagged(raw, header, value)).Fields?
    ensures var fs, gs := ParseHeader(raw).fields, ParseHeader(Tagged(raw, header, value)).fields;
            Get(gs, "Message-Id") == Get(fs, "Message-Id") && Surrogate(gs, h) == Surrogate(fs, h)
  {
    TagComesFirst(raw, header, value);
    var fs := ParseHeader(raw).fields;
    var gs := [Field(header, " " + value)] + fs;
    assert gs[1..] == fs;
  }

  /** For every message that parses, whatever its line ends, what is appended is a copy in the Rows
      mode, and a copy with all the keys if and only if HasHeader finds the tag, or there is none,
      or it is the surrogate already. */
  lemma {:induction false} AppendedIsCopy(raw: string, header: string, h: Hash, id: string, id': string)
    requires ParseHeader(raw).Fields?
    requires IsHeaderName(header) && OtherName(header) && IsTagValue(Surrogate(ParseHeader(raw).fields, h))
    ensures var fs := ParseHeader(raw).fields;
            var copy := Bytes(WithHeader(Buffer(raw), header, Surrogate(fs, h)));
            && ParseHeader(copy).Fields?
            && IsCopy(Parsed(id', copy, header, h), Parsed(id, raw, header, h), Rows)
            && (IsCopy(Parsed(id', copy, header, h), Parsed(id, raw, header, h), Full)
                <==> HasHeaderLine(raw, header) || Tag(fs, header) == "" || Tag(fs, header) == Surrogate(fs, h))
  {
    var fs := ParseHeader(raw).fields;
    var mid, tag, sur := NormalizeMessageID(Get(fs, "Message-Id")), Tag(fs, header), Surrogate(fs, h);
    CopyRowKeysIff(mid, tag, sur);
    NotEmpty(mid, tag, sur);
    NotEmpty(mid, sur, sur);
    if !HasHeaderLine(raw, header) {
      assert Bytes(WithHeader(Buffer(raw), header, sur)) == Tagged(raw, header, sur);
      OtherFieldsStay(raw, header, sur, h);
      KeysOfTagged(raw, header, sur, h);
    }
  }

  lemma NotEmpty(mid: string, tag: string, sur: string)
    ensures KeySet(MatchKeysFrom(mid, tag, sur)) != {}
  {
    assert MatchKeysFrom(mid, tag, sur)[0] in KeySet(MatchKeysFrom(mid, tag, sur));
  }

  /** What an endpoint's message with these bytes parses to. */
  function HeaderOfBytes(raw: string, header: string, h: Hash): Incremental.Header {
    match ParseHeader(raw)
    case Bad => Incremental.Malformed
    case Fields(fs) =>
      Incremental.Header(NormalizeMessageID(Get(fs, "Message-Id")), Tag(fs, header), Surrogate(fs, h))
  }

  /** The bytes that are appended parse to the header that a pass gives to a copy, and HasHeader finds
      the tag in them from then on. */
  lemma {:induction false} AppendedHeader(raw: string, header: string, h: Hash)
    requires ParseHeader(raw).Fields?
    requires IsHeaderName(header) && OtherName(header) && IsTagValue(Surrogate(ParseHeader(raw).fields, h))
    ensures var copy := Bytes(WithHeader(Buffer(raw), header, Surrogate(ParseHeader(raw).fields, h)));
            && HeaderOfBytes(copy, header, h)
               == Copying.CopyHeader(HeaderOfBytes(raw, header, h), HasHeaderLine(raw, header))
            && HasHeaderLine(copy, header)
  {
    var fs := ParseHeader(raw).fields;
    var sur := Surrogate(fs, h);
    if !HasHeaderLine(raw, header) {
      assert Bytes(WithHeader(Buffer(raw), header, sur)) == Tagged(raw, header, sur);
      OtherFieldsStay(raw, header, sur, h);
      TagComesFirst(raw, header, sur);
      TrimTag(sur);
      TaggedIsFound(raw, header, sur);
    }
  }
}
