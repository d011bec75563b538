/** Match keys (internal/mailbox/message.go): the names under which a message may be
    recognised on the other side. */
module MatchKeys {

  /** The keys built from a Message-ID ("" if absent), the tag read from the hash header
      ("" if absent) and the surrogate hash, in the order the index tries them. */
  function MatchKeysFrom(messageID: string, hashHdr: string, surrogate: string): (keys: seq<string>)
    ensures keys != []
    ensures forall k :: k in keys <==>
      || (messageID != "" && k == "mid:" + messageID)
      || (hashHdr != "" && k == "hash:" + hashHdr)
      || k == "hash:" + surrogate
    ensures forall i, j :: 0 <= i < j < |keys| ==> keys[i] != keys[j]
  {
    var mid := if messageID != "" then ["mid:" + messageID] else [];
    var tagged := if hashHdr != "" then mid + ["hash:" + hashHdr] else mid;
    var sur := "hash:" + surrogate;
    assert messageID != "" ==> ("mid:" + messageID)[0] == 'm';
    assert sur[0] == 'h';
    if |tagged| == 0 || tagged[|tagged| - 1] != sur then tagged + [sur] else tagged
  }

  function KeySet(keys: seq<string>): set<string> {
    set k | k in keys
  }

  /** The row written to the cache after a copy stores the surrogate as the tag. Its keys are
      always some of the source's keys, and they are the source's exact key list if and only
      if the source carried no tag or a tag equal to its surrogate. */
  lemma CopyRowKeysIff(messageID: string, hashHdr: string, surrogate: string)
    ensures KeySet(MatchKeysFrom(messageID, surrogate, surrogate))
            <= KeySet(MatchKeysFrom(messageID, hashHdr, surrogate))
    ensures var row := MatchKeysFrom(messageID, surrogate, surrogate);
            var source := MatchKeysFrom(messageID, hashHdr, surrogate);
            && (row == source <==> hashHdr == "" || hashHdr == surrogate)
            && (KeySet(row) == KeySet(source) <==> hashHdr == "" || hashHdr == surrogate)
  {
    assert ("mid:" + messageID)[0] == 'm' && ("hash:" + surrogate)[0] == 'h';
    if hashHdr != "" && hashHdr != surrogate {
      var k := "hash:" + hashHdr;
      assert k[0] == 'h' && k[5..] == hashHdr && ("hash:" + surrogate)[5..] == surrogate;
      assert k in KeySet(MatchKeysFrom(messageID, hashHdr, surrogate));
      assert k !in KeySet(MatchKeysFrom(messageID, surrogate, surrogate));
    }
  }

  lemma PlainKeys(messageID: string, surrogate: string)
    requires messageID != ""
    ensures MatchKeysFrom("", "", surrogate) == ["hash:" + surrogate]
    ensures MatchKeysFrom(messageID, "", surrogate) == ["mid:" + messageID, "hash:" + surrogate]
  {
    assert ("mid:" + messageID)[0] == 'm' && ("hash:" + surrogate)[0] == 'h';
  }

  /** A Message-ID that appears later only puts one more key in front. */
  lemma LateMessageIDAddsOneKey(messageID: string, hashHdr: string, surrogate: string)
    requires messageID != ""
    ensures MatchKeysFrom(messageID, hashHdr, surrogate)
            == ["mid:" + messageID] + MatchKeysFrom("", hashHdr, surrogate)
  {
    assert ("mid:" + messageID)[0] == 'm' && ("hash:" + surrogate)[0] == 'h';
  }
}
