/** What the copies of a pass are: which messages they come from, and what they show. */
module Copies {
  import opened MatchKeys
  import opened Retention
  import opened RunRows
  import opened State
  import opened Incremental
  import opened SyncRuns
  import opened Copying
  import opened Selection

  // ---------------------------------------------------------------- copies as entries

  predicate UniqueMsgs(msgs: seq<Message>) {
    forall i, j :: 0 <= i < j < |msgs| ==> msgs[i].id != msgs[j].id
  }

  /** The entry shows the message that opening its ID gives. */
  predicate Reads(src: seq<Message>, e: Entry) {
    var h := HeaderOf(src, e.id);
    && h.Header? && e.msgID == h.msgID && e.surrogate == h.surrogate
    && e.keys == MatchKeysFrom(h.msgID, h.xhash, h.surrogate)
  }

  lemma {:induction false} HeaderOfMember(msgs: seq<Message>, m: Message)
    requires UniqueMsgs(msgs) && m in msgs
    ensures HeaderOf(msgs, m.id) == m.header
  {
    if msgs[0] != m {
      var i :| 0 <= i < |msgs| && msgs[i] == m;
      assert msgs[0].id != m.id;
      HeaderOfMember(msgs[1..], m);
    }
  }

  lemma {:induction false} HeaderOfMore(msgs: seq<Message>, more: seq<Message>, id: string)
    requires HeaderOf(msgs, id).Header?
    ensures HeaderOf(msgs + more, id) == HeaderOf(msgs, id)
  {
    if msgs[0].id != id {
      HeaderOfMore(msgs[1..], more, id);
      assert (msgs + more)[1..] == msgs[1..] + more;
    }
  }

  lemma {:induction false} TaggedOfMember(msgs: seq<Message>, more: seq<Message>, m: Message)
    requires UniqueMsgs(msgs) && m in msgs
    ensures TaggedOf(msgs + more, m.id) == m.tagged
  {
    assert (msgs + more)[0] == msgs[0] && (msgs + more)[1..] == msgs[1..] + more;
    if msgs[0] != m {
      var i :| 0 <= i < |msgs| && msgs[i] == m;
      assert msgs[0].id != m.id;
      TaggedOfMember(msgs[1..], more, m);
    }
  }

  lemma {:induction false} EntriesConcat(s: seq<Message>, t: seq<Message>)
    ensures Entries(s + t) == Entries(s) + Entries(t)
  {
    if t == [] {
      assert s + t == s;
    } else {
      EntriesConcat(s, t[..|t| - 1]);
      assert (s + t)[..|s + t| - 1] == s + t[..|t| - 1];
    }
  }

  /** Every entry of a folder reads a message of the folder. */
  lemma {:induction false} EntryFrom(msgs: seq<Message>, e: Entry) returns (m: Message)
    requires e in Entries(msgs)
    ensures m in msgs && m.header.Header? && EntryOf(m) == e
  {
    m := msgs[|msgs| - 1];
    if !m.header.Header? || EntryOf(m) != e {
      m := EntryFrom(msgs[..|msgs| - 1], e);
    }
  }

  lemma {:induction false} EntriesRead(msgs: seq<Message>, more: seq<Message>, e: Entry)
    requires UniqueMsgs(msgs) && e in Entries(msgs)
    ensures Reads(msgs + more, e) && e.keys != []
  {
    var m := EntryFrom(msgs, e);
    HeaderOfMember(msgs, m);
    HeaderOfMore(msgs, more, e.id);
  }

  lemma {:induction false} EntriesPointwise(ms: seq<Message>)
    requires forall i :: 0 <= i < |ms| ==> ms[i].header.Header?
    ensures |Entries(ms)| == |ms| && forall i :: 0 <= i < |ms| ==> Entries(ms)[i] == EntryOf(ms[i])
  {
    if ms != [] {
      EntriesPointwise(ms[..|ms| - 1]);
    }
  }

  /** Two sequences picked by the same flags stay side by side. */
  lemma {:induction false} PickedAligned<S, T>(s: seq<S>, t: seq<T>, ok: seq<bool>)
    requires |s| == |t| == |ok|
    ensures |Picked(s, ok)| == |Picked(t, ok)|
    ensures forall i :: 0 <= i < |Picked(s, ok)| ==>
              exists j :: 0 <= j < |s| && ok[j] && Picked(s, ok)[i] == s[j] && Picked(t, ok)[i] == t[j]
  {
    if s != [] {
      var n := |s| - 1;
      PickedAligned(s[..n], t[..n], ok[..n]);
      var ps, pt := Picked(s[..n], ok[..n]), Picked(t[..n], ok[..n]);
      forall i | 0 <= i < |Picked(s, ok)|
        ensures exists j :: 0 <= j < |s| && ok[j] && Picked(s, ok)[i] == s[j] && Picked(t, ok)[i] == t[j]
      {
        if i < |ps| {
          var j :| 0 <= j < n && ok[..n][j] && ps[i] == s[..n][j] && pt[i] == t[..n][j];
          assert ok[j] && Picked(s, ok)[i] == s[j] && Picked(t, ok)[i] == t[j];
        } else {
          assert ok[n] && Picked(s, ok)[i] == s[n] && Picked(t, ok)[i] == t[n];
        }
      }
    }
  }

  /** The entry has the Message-ID and the surrogate of the header, and all its keys or those of
      the header with the surrogate as the tag. */
  predicate Shows(c: Entry, h: Header, all: bool) {
    && h.Header? && c.msgID == h.msgID && c.surrogate == h.surrogate && c.keys != []
    && KeySet(MatchKeysFrom(h.msgID, h.surrogate, h.surrogate)) <= KeySet(c.keys)
    && KeySet(c.keys) <= KeySet(MatchKeysFrom(h.msgID, h.xhash, h.surrogate))
    && (all ==> KeySet(c.keys) == KeySet(MatchKeysFrom(h.msgID, h.xhash, h.surrogate)))
  }

  /** A copy shows what its source shows, unless HasHeader misses a tag there. */
  lemma {:induction false} CopyShows(src: seq<Message>, e: Entry, o: Outcome)
    requires HeaderOf(src, e.id).Header?
    ensures var m, h := CopyOf(src, e, o), HeaderOf(src, e.id);
            m.header.Header? && Shows(EntryOf(m), h, !Hides(h, TaggedOf(src, e.id)))
  {
    var h := HeaderOf(src, e.id);
    CopyRowKeysIff(h.msgID, h.xhash, h.surrogate);
  }

  predicate ShowsSource(c: Entry, src: seq<Message>, id: string) {
    Shows(c, HeaderOf(src, id), !Hides(HeaderOf(src, id), TaggedOf(src, id)))
  }

  lemma {:induction false} ArrivedEntries(src: seq<Message>, delta: seq<Entry>, plan: Plan, stop: nat)
    requires forall e :: e in delta ==> HeaderOf(src, e.id).Header?
    ensures var picked, sent := Picked(delta, Flags(src, delta, plan, stop)), Entries(Arrived(src, delta, plan, stop));
            |sent| == |picked| && forall i :: 0 <= i < |sent| ==> ShowsSource(sent[i], src, picked[i].id)
  {
    var eff, ok := Effective(src, delta, plan), Flags(src, delta, plan, stop);
    var all := CopiesOf(src, delta, eff);
    var picked, ms := Picked(delta, ok), Picked(all, ok);
    PickedAligned(all, delta, ok);
    forall i | 0 <= i < |ms| ensures ms[i].header.Header? && ShowsSource(EntryOf(ms[i]), src, picked[i].id) {
      var j :| 0 <= j < |all| && ok[j] && ms[i] == all[j] && picked[i] == delta[j];
      assert delta[j] in delta;
      CopyShows(src, delta[j], eff(j));
    }
    EntriesPointwise(ms);
  }

  /** So each copy that arrives has a part of the keys of the entry it was made for. */
  lemma {:induction false} ArrivedParts(src: seq<Message>, delta: seq<Entry>, plan: Plan, stop: nat)
    requires forall e :: e in delta ==> Reads(src, e)
    ensures var picked, sent := Picked(delta, Flags(src, delta, plan, stop)), Entries(Arrived(src, delta, plan, stop));
            |sent| == |picked| && forall i :: 0 <= i < |sent| ==> PartOf(sent[i], picked[i])
  {
    ArrivedEntries(src, delta, plan, stop);
    var picked := Picked(delta, Flags(src, delta, plan, stop));
    assert forall i :: 0 <= i < |picked| ==> picked[i] in picked;
  }

  // ---------------------------------------------------------------- what a copy carries over

  /** The flags that travel: \Recent cannot be set, and deletions are not synchronized. */
  predicate Travels(flag: string) {
    flag == "\\Seen" || flag == "\\Answered" || flag == "\\Flagged" || flag == "\\Draft"
  }

  lemma {:induction false} CopyableExactly(flags: seq<string>)
    ensures KeepsExactly(flags, Travels, CopyableOf(flags))
  {
    if flags == [] {
      KeepsNothing(Travels);
    } else {
      var n := |flags| - 1;
      CopyableExactly(flags[..n]);
      KeepsLast(flags, Travels, CopyableOf(flags[..n]));
      TravelsIff(flags[n]);
    }
  }

  lemma TravelsIff(flag: string)
    ensures flag in COPYABLE_FLAGS <==> Travels(flag)
  {
  }

  /** The entry that a parsed message gives, field by field. */
  predicate IsEntryOf(e: Entry, m: Message) {
    && m.header.Header? && e.id == m.id && e.flags == m.flags && e.internalDate == m.internalDate
    && e.msgID == m.header.msgID && e.surrogate == m.header.surrogate
    && e.keys == MatchKeysFrom(m.header.msgID, m.header.xhash, m.header.surrogate)
  }

  /** A full scan sees exactly the messages that parse, in their order, each as it is. */
  lemma {:induction false} EntriesCarry(msgs: seq<Message>) returns (at: seq<nat>)
    ensures Increasing(at, |msgs|) && |at| == |Entries(msgs)|
    ensures forall i :: 0 <= i < |at| ==> IsEntryOf(Entries(msgs)[i], msgs[at[i]])
    ensures forall i :: 0 <= i < |msgs| ==> (i in at <==> msgs[i].header.Header?)
  {
    at := [];
    if msgs != [] {
      var n := |msgs| - 1;
      at := EntriesCarry(msgs[..n]);
      assert forall i :: 0 <= i < |at| ==> at[i] < n;
      if msgs[n].header.Header? {
        at := at + [n];
      }
    }
  }

  /** The positions of the flags that are set. */
  function Positions(ok: seq<bool>): seq<nat> {
    if ok == [] then []
    else
      var n := |ok| - 1;
      if ok[n] then Positions(ok[..n]) + [n] else Positions(ok[..n])
  }

  lemma {:induction false} PickedSelects<T>(s: seq<T>, ok: seq<bool>)
    requires |ok| == |s|
    ensures Selects(s, Positions(ok), Picked(s, ok))
  {
    if s != [] {
      var n := |s| - 1;
      PickedSelects(s[..n], ok[..n]);
      SelectsLast(s, Positions(ok[..n]), Picked(s[..n], ok[..n]), ok[n]);
    }
  }

  lemma {:induction false} PositionsOf(ok: seq<bool>)
    ensures forall i :: i in Positions(ok) <==> 0 <= i < |ok| && ok[i]
  {
    if ok != [] {
      PositionsOf(ok[..|ok| - 1]);
    }
  }

  lemma {:induction false} RetainedSelects(s: seq<Entry>) returns (at: seq<nat>)
    ensures Selects(s, at, Retained(s))
  {
    at := [];
    if s != [] {
      var n := |s| - 1;
      at := RetainedSelects(s[..n]);
      var taken := !Covered(s[n].keys, AllKeys(Retained(s[..n])));
      SelectsLast(s, at, Retained(s[..n]), taken);
      at := if taken then at + [n] else at;
    }
  }

  lemma {:induction false} LackingSelects(s: seq<Entry>, known: set<string>) returns (at: seq<nat>)
    ensures Selects(s, at, Lacking(s, known))
  {
    at := [];
    if s != [] {
      var n := |s| - 1;
      at := LackingSelects(s[..n], known);
      var taken := !Covered(s[n].keys, known);
      SelectsLast(s, at, Lacking(s[..n], known), taken);
      at := if taken then at + [n] else at;
    }
  }

  /** A copy has the date of its source, its transferable flags in their order, its Message-ID and
      surrogate, and as the tag the surrogate unless the source had one already. */
  ghost predicate IsCarried(c: Message, m: Message) {
    && c.internalDate == m.internalDate && KeepsExactly(m.flags, Travels, c.flags)
    && m.header.Header? && c.tagged
    && c.header == Header(m.header.msgID, if m.tagged then m.header.xhash else m.header.surrogate, m.header.surrogate)
  }

  /** The new messages are copies of messages of the source folder, in the order they have there. */
  ghost predicate Carries(src: seq<Message>, sent: seq<Message>) {
    exists from: seq<nat> :: IsCarriedFrom(src, sent, from)
  }

  /** The folder keeps what it has and gains copies of messages of the source folder. */
  ghost predicate Gains(before: seq<Message>, after: seq<Message>, src: seq<Message>) {
    before <= after && Carries(src, after[|before|..])
  }

  ghost predicate IsCarriedFrom(src: seq<Message>, sent: seq<Message>, from: seq<nat>) {
    && Increasing(from, |src|) && |from| == |sent|
    && forall i :: 0 <= i < |sent| ==> IsCarried(sent[i], src[from[i]])
  }

  lemma {:induction false} CopyCarries(src: seq<Message>, more: seq<Message>, m: Message, e: Entry, o: Outcome)
    requires UniqueMsgs(src) && m in src && IsEntryOf(e, m)
    ensures IsCarried(CopyOf(src + more, e, o), m)
  {
    HeaderOfMember(src, m);
    HeaderOfMore(src, more, m.id);
    TaggedOfMember(src, more, m);
    CopyableExactly(m.flags);
  }

  /** What a pass over full scans puts on the other side. */
  lemma {:induction false} FullPassCarries(src: seq<Message>, more: seq<Message>, dst: seq<Entry>, plan: Plan,
                                           stop: nat)
    requires UniqueMsgs(src)
    ensures Carries(src, Arrived(src + more, Delta(Entries(src), dst), plan, stop))
  {
    var delta := Delta(Entries(src), dst);
    var eff, ok := Effective(src + more, delta, plan), Flags(src + more, delta, plan, stop);
    var all := CopiesOf(src + more, delta, eff);
    var at := EntriesCarry(src);
    var kept := DeltaSelects(Entries(src), dst);
    PickedSelects(delta, ok);
    PickedSelects(all, ok);
    var sent, from := Picked(all, ok), Followed(at, Followed(kept, Positions(ok), |delta|), |Entries(src)|);
    forall i | 0 <= i < |sent| ensures IsCarried(sent[i], src[from[i]]) {
      var j := Positions(ok)[i];
      assert IsEntryOf(delta[j], src[from[i]]);
      CopyCarries(src, more, src[from[i]], delta[j], eff(j));
    }
    assert IsCarriedFrom(src, sent, from);
  }

  lemma {:induction false} DeltaSelects(src: seq<Entry>, dst: seq<Entry>) returns (at: seq<nat>)
    ensures Selects(src, at, Delta(src, dst))
  {
    var kept := RetainedSelects(src);
    var missing := LackingSelects(Retained(src), AllKeys(Retained(dst)));
    at := SelectsThrough(src, kept, Retained(src), missing, Delta(src, dst));
  }

  /** Positions within positions. */
  function Followed(at: seq<nat>, inner: seq<nat>, n: nat): (r: seq<nat>)
    requires |at| == n && Increasing(inner, n)
    ensures |r| == |inner| && forall i :: 0 <= i < |r| ==> r[i] == at[inner[i]]
    ensures forall m: nat :: Increasing(at, m) ==> Increasing(r, m)
  {
    seq(|inner|, i requires 0 <= i < |inner| => at[inner[i]])
  }

  // ---------------------------------------------------------------- what one direction does, written out

  /** Copying stops at the first multiple of 64 from the cancellation on, or at the end. */
  lemma {:induction false} StopsExactly(n: nat, cancelledFrom: nat, stop: nat)
    ensures StopsAt(n, cancelledFrom, stop)
            <==> stop == if (cancelledFrom + 63) / 64 * 64 < n then (cancelledFrom + 63) / 64 * 64 else n
  {
    var look := (cancelledFrom + 63) / 64 * 64;
    assert cancelledFrom <= look < cancelledFrom + 64 && look % 64 == 0;
    forall i: nat | i < look ensures !SeesCancel(i, cancelledFrom) {
    }
    assert SeesCancel(look, cancelledFrom);
  }

  /** The message at that place of the delta can be opened and is reached before the stop. */
  predicate Attempted(src: seq<Message>, delta: seq<Entry>, stop: nat, i: nat) {
    i < |delta| && i < stop && HeaderOf(src, delta[i].id).Header?
  }

  /** A direction that is not allowed does nothing. Otherwise the destination gains exactly what is
      reached before the stop and stored, under the IDs of the destination, even if the reply gets
      lost. */
  lemma {:induction false} SentArrives(src: seq<Message>, before: seq<Message>, after: seq<Message>, delta: seq<Entry>,
                                       plan: Plan, cancelledFrom: nat, allowed: bool, stop: nat, copied: nat,
                                       cache: seq<CachedMsg>, incremental: bool)
    returns (there: seq<nat>)
    requires Sent(src, before, after, delta, plan, cancelledFrom, allowed, stop, copied, cache, incremental)
    ensures Increasing(there, |delta|) && |after| == |before| + |there| && before <= after
    ensures forall i: nat :: i in there <==> Attempted(src, delta, stop, i) && (plan(i).ReplyLost? || plan(i).Appended?)
    ensures forall k :: 0 <= k < |there| ==> after[|before| + k].id == plan(there[k]).id
    ensures allowed ==> stop == if (cancelledFrom + 63) / 64 * 64 < |delta| then (cancelledFrom + 63) / 64 * 64
                                else |delta|
    ensures !allowed ==> after == before && copied == 0 && cache == []
  {
    var eff, ok := Effective(src, delta, plan), Flags(src, delta, plan, stop);
    var all := CopiesOf(src, delta, eff);
    there := Positions(ok);
    PositionsOf(ok);
    PickedSelects(all, ok);
    forall i: nat
      ensures i in there <==> Attempted(src, delta, stop, i) && (plan(i).ReplyLost? || plan(i).Appended?)
    {
      if i < |delta| {
        assert ok[i] == (i < stop && Stored(eff(i)));
      }
    }
    forall k | 0 <= k < |there| ensures after[|before| + k].id == plan(there[k]).id {
      assert there[k] in there;
    }
    if allowed {
      StopsExactly(|delta|, cancelledFrom, stop);
    } else {
      CopiesMean(src, delta, eff, incremental, 0);
    }
  }

  lemma {:induction false} PickedCount<T>(s: seq<T>, ok: seq<bool>)
    requires |ok| == |s|
    ensures |Picked(s, ok)| == |set i | 0 <= i < |ok| && ok[i]|
  {
    if s != [] {
      var n := |s| - 1;
      PickedCount(s[..n], ok[..n]);
      var front := set i | 0 <= i < n && ok[..n][i];
      assert (set i | 0 <= i < |ok| && ok[i]) == front + if ok[n] then {n} else {};
    }
  }

  /** What was confirmed is counted, whether or not an ID was reported. */
  lemma {:induction false} SentCounts(src: seq<Message>, before: seq<Message>, after: seq<Message>, delta: seq<Entry>,
                                      plan: Plan, cancelledFrom: nat, allowed: bool, stop: nat, copied: nat,
                                      cache: seq<CachedMsg>, incremental: bool)
    requires Sent(src, before, after, delta, plan, cancelledFrom, allowed, stop, copied, cache, incremental)
    ensures copied == |set i | 0 <= i < |delta| && Attempted(src, delta, stop, i) && plan(i).Appended?|
  {
    var ok := Confirmed(|delta|, Effective(src, delta, plan), stop);
    PickedCount(delta, ok);
    assert (set i | 0 <= i < |ok| && ok[i])
        == set i | 0 <= i < |delta| && Attempted(src, delta, stop, i) && plan(i).Appended?;
  }

  /** In the cached mode, what was confirmed with an ID gets a row: the surrogate is
      stored as the tag, beside the Message-ID, the date and the flags that travel. */
  lemma {:induction false} SentReports(src: seq<Message>, before: seq<Message>, after: seq<Message>, delta: seq<Entry>,
                                       plan: Plan, cancelledFrom: nat, allowed: bool, stop: nat, copied: nat,
                                       cache: seq<CachedMsg>, incremental: bool)
    returns (rows: seq<nat>)
    requires Sent(src, before, after, delta, plan, cancelledFrom, allowed, stop, copied, cache, incremental)
    ensures Increasing(rows, |delta|) && |cache| == |rows|
    ensures forall i: nat :: i in rows <==> && incremental && Attempted(src, delta, stop, i)
                                            && plan(i).Appended? && plan(i).reported && plan(i).id != ""
    ensures forall k :: 0 <= k < |rows| ==> cache[k].id == plan(rows[k]).id && IsRowFor(cache[k], delta[rows[k]])
  {
    rows := [];
    if incremental {
      var eff := Effective(src, delta, plan);
      var reported := Reported(|delta|, eff, stop);
      rows := Positions(reported);
      PickedSelects(CopyRows(delta, eff), reported);
      ReportedPositions(src, delta, plan, stop);
      forall k | 0 <= k < |rows| ensures cache[k].id == plan(rows[k]).id && IsRowFor(cache[k], delta[rows[k]]) {
        assert rows[k] in rows;
        RowCarries(delta[rows[k]], plan(rows[k]));
      }
    }
  }

  ghost predicate IsRowFor(row: CachedMsg, e: Entry) {
    && KeepsExactly(e.flags, Travels, row.flags) && row.internalDate == e.internalDate
    && row.msgID == e.msgID && row.xhash == e.surrogate && row.surrogate == e.surrogate
  }

  lemma {:induction false} RowCarries(e: Entry, o: Outcome)
    ensures IsRowFor(CopyRow(e, o), e)
  {
    CopyableExactly(e.flags);
  }

  lemma {:induction false} ReportedPositions(src: seq<Message>, delta: seq<Entry>, plan: Plan, stop: nat)
    ensures forall i: nat :: i in Positions(Reported(|delta|, Effective(src, delta, plan), stop))
              <==> Attempted(src, delta, stop, i) && plan(i).Appended? && plan(i).reported && plan(i).id != ""
  {
    PositionsOf(Reported(|delta|, Effective(src, delta, plan), stop));
  }
}
