/** Copying messages to the other side (copyMissing, copyOne and filterFlags in
    internal/syncer/syncer.go). */
module Copying {
  import opened MatchKeys
  import opened Retention
  import opened DedupIndex
  import opened RunRows
  import opened State
  import opened Incremental
  import opened SyncRuns

  /** A selected folder: its messages in listing order, some of which may not parse. */
  class Mailbox {
    var msgs: seq<Message>
    const readOnly: bool

    constructor (msgs: seq<Message>, readOnly: bool)
      ensures this.msgs == msgs && this.readOnly == readOnly
    {
      this.msgs, this.readOnly := msgs, readOnly;
    }
  }

  /** What becomes of copying one message. A lost reply means that the message was stored but
      the append reported an error; an unreported ID, that the transport gives none back. */
  datatype Outcome =
    | OpenFailed
    | AppendFailed
    | ReplyLost(id: string)
    | Appended(id: string, reported: bool)

  type Plan = nat -> Outcome

  const COPYABLE_FLAGS := {"\\Seen", "\\Answered", "\\Flagged", "\\Draft"}
  const CANCEL_CHECK_EVERY := 64

  function CopyableOf(flags: seq<string>): seq<string> {
    if flags == [] then []
    else
      var front := CopyableOf(flags[..|flags| - 1]);
      if flags[|flags| - 1] in COPYABLE_FLAGS then front + [flags[|flags| - 1]] else front
  }

  method FilterFlags(flags: seq<string>) returns (out: seq<string>)
    ensures out == CopyableOf(flags)
  {
    out := [];
    assert flags[..0] == [];
    for i := 0 to |flags|
      invariant out == CopyableOf(flags[..i])
    {
      assert flags[..i + 1][..i] == flags[..i];
      if flags[i] in COPYABLE_FLAGS {
        out := out + [flags[i]];
      }
    }
    assert flags[..|flags|] == flags;
  }

  /** The loop looks at the context every 64 messages; it stops at the first look that finds it
      cancelled. */
  predicate StopsAt(n: nat, cancelledFrom: nat, stop: nat) {
    && stop <= n
    && (stop == n || SeesCancel(stop, cancelledFrom))
    && forall i :: 0 <= i < stop ==> !SeesCancel(i, cancelledFrom)
  }

  predicate SeesCancel(i: nat, cancelledFrom: nat) {
    i % CANCEL_CHECK_EVERY == 0 && i >= cancelledFrom
  }

  predicate Stored(o: Outcome) {
    o.ReplyLost? || o.Appended?
  }

  /** Which messages really arrive. */
  function Arrivals(n: nat, plan: Plan, stop: nat): seq<bool> {
    seq(n, i requires 0 <= i < n => i < stop && Stored(plan(i)))
  }

  /** Which messages the destination confirmed, and with an ID. */
  function Confirmed(n: nat, plan: Plan, stop: nat): seq<bool> {
    seq(n, i requires 0 <= i < n => i < stop && plan(i).Appended?)
  }

  function Reported(n: nat, plan: Plan, stop: nat): seq<bool> {
    seq(n, i requires 0 <= i < n => i < stop && plan(i).Appended? && plan(i).reported && plan(i).id != "")
  }

  // ---------------------------------------------------------------- messages and entries

  function EntryOf(m: Message): Entry
    requires m.header.Header?
  {
    EntryOfRow(RowOf(m))
  }

  /** The messages that parse, as the index sees them. */
  function Entries(msgs: seq<Message>): seq<Entry> {
    if msgs == [] then []
    else
      var front, m := Entries(msgs[..|msgs| - 1]), msgs[|msgs| - 1];
      if m.header.Header? then front + [EntryOf(m)] else front
  }

  /** What opening a message gives: the first one with the ID. */
  function HeaderOf(msgs: seq<Message>, id: string): Header {
    if msgs == [] then Malformed else if msgs[0].id == id then msgs[0].header else HeaderOf(msgs[1..], id)
  }

  /** A message that is not there cannot be opened. */
  function Effective(src: seq<Message>, entries: seq<Entry>, plan: Plan): Plan {
    (i: nat) => if i < |entries| && HeaderOf(src, entries[i].id).Header? then plan(i) else OpenFailed
  }

  /** Whether HasHeader finds a tag in the message that opening the ID gives. */
  function TaggedOf(msgs: seq<Message>, id: string): bool {
    if msgs == [] then false else if msgs[0].id == id then msgs[0].tagged else TaggedOf(msgs[1..], id)
  }

  /** A copy is as its source if HasHeader finds a tag there; otherwise the surrogate is put in front
      as the tag, and it is the one that is read. */
  function CopyHeader(h: Header, tagged: bool): Header {
    if h.Header? && !tagged then h.(xhash := h.surrogate) else h
  }

  /** The message carries a tag of its own that HasHeader does not find. */
  predicate Hides(h: Header, tagged: bool) {
    h.Header? && !tagged && h.xhash != "" && h.xhash != h.surrogate
  }

  function CopyOf(src: seq<Message>, e: Entry, o: Outcome): Message {
    Message(if Stored(o) then o.id else "", CopyableOf(e.flags), e.internalDate,
            CopyHeader(HeaderOf(src, e.id), TaggedOf(src, e.id)), true)
  }

  function CopiesOf(src: seq<Message>, s: seq<Entry>, plan: Plan): seq<Message> {
    seq(|s|, i requires 0 <= i < |s| => CopyOf(src, s[i], plan(i)))
  }

  /** The cache row of a copy stores the surrogate as the tag. */
  function CopyRow(e: Entry, o: Outcome): CachedMsg {
    CachedMsg(if Stored(o) then o.id else "", e.msgID, e.surrogate, e.surrogate, e.internalDate, CopyableOf(e.flags))
  }

  function CopyRows(s: seq<Entry>, plan: Plan): seq<CachedMsg> {
    seq(|s|, i requires 0 <= i < |s| => CopyRow(s[i], plan(i)))
  }

  /** How far copying has come: the new messages at the destination, the confirmed count and
      the cache rows. */
  datatype Progress = Progress(arrived: seq<Message>, confirmed: nat, rows: seq<CachedMsg>)

  function AfterCopies(src: seq<Message>, entries: seq<Entry>, plan: Plan, incremental: bool, i: nat): Progress
    requires i <= |entries|
  {
    if i == 0 then Progress([], 0, [])
    else
      var p := AfterCopies(src, entries, plan, incremental, i - 1);
      var g := Gained(src, entries[i - 1], plan(i - 1), incremental);
      Progress(p.arrived + g.arrived, p.confirmed + g.confirmed, p.rows + g.rows)
  }

  /** What one message adds. */
  function Gained(src: seq<Message>, e: Entry, o: Outcome, incremental: bool): Progress {
    Progress(if Stored(o) then [CopyOf(src, e, o)] else [],
             if o.Appended? then 1 else 0,
             if incremental && o.Appended? && o.reported && o.id != "" then [CopyRow(e, o)] else [])
  }

  lemma {:induction false} PickedPrefix<T>(s: seq<T>, ok: seq<bool>, i: nat)
    requires |ok| == |s| && i < |s|
    ensures Picked(s[..i + 1], ok[..i + 1]) == Picked(s[..i], ok[..i]) + if ok[i] then [s[i]] else []
  {
    assert s[..i + 1][..i] == s[..i] && ok[..i + 1][..i] == ok[..i];
  }

  lemma {:induction false} PickedNoMore<T>(s: seq<T>, ok: seq<bool>, i: nat)
    requires |ok| == |s| && i <= |s|
    requires forall j :: i <= j < |s| ==> !ok[j]
    ensures Picked(s, ok) == Picked(s[..i], ok[..i])
    decreases |s|
  {
    if i < |s| {
      PickedNoMore(s[..|s| - 1], ok[..|s| - 1], i);
      assert s[..|s| - 1][..i] == s[..i] && ok[..|s| - 1][..i] == ok[..i];
    } else {
      assert s[..i] == s && ok[..i] == ok;
    }
  }

  lemma {:induction false} ArrivedArePicked(src: seq<Message>, entries: seq<Entry>, plan: Plan, incremental: bool,
                                            stop: nat, i: nat)
    requires i <= stop <= |entries|
    ensures AfterCopies(src, entries, plan, incremental, i).arrived
            == Picked(CopiesOf(src, entries, plan)[..i], Arrivals(|entries|, plan, stop)[..i])
  {
    if i > 0 {
      ArrivedArePicked(src, entries, plan, incremental, stop, i - 1);
      PickedPrefix(CopiesOf(src, entries, plan), Arrivals(|entries|, plan, stop), i - 1);
    }
  }

  lemma {:induction false} ConfirmedArePicked(src: seq<Message>, entries: seq<Entry>, plan: Plan, incremental: bool,
                                              stop: nat, i: nat)
    requires i <= stop <= |entries|
    ensures AfterCopies(src, entries, plan, incremental, i).confirmed
            == |Picked(entries[..i], Confirmed(|entries|, plan, stop)[..i])|
  {
    if i > 0 {
      ConfirmedArePicked(src, entries, plan, incremental, stop, i - 1);
      PickedPrefix(entries, Confirmed(|entries|, plan, stop), i - 1);
    }
  }

  lemma {:induction false} RowsArePicked(src: seq<Message>, entries: seq<Entry>, plan: Plan, stop: nat, i: nat)
    requires i <= stop <= |entries|
    ensures AfterCopies(src, entries, plan, true, i).rows
            == Picked(CopyRows(entries, plan)[..i], Reported(|entries|, plan, stop)[..i])
  {
    if i > 0 {
      RowsArePicked(src, entries, plan, stop, i - 1);
      PickedPrefix(CopyRows(entries, plan), Reported(|entries|, plan, stop), i - 1);
      var o := plan(i - 1);
      assert Reported(|entries|, plan, stop)[i - 1] == (o.Appended? && o.reported && o.id != "");
      assert CopyRows(entries, plan)[i - 1] == CopyRow(entries[i - 1], plan(i - 1));
    }
  }

  lemma {:induction false} NoRows(src: seq<Message>, entries: seq<Entry>, plan: Plan, i: nat)
    requires i <= |entries|
    ensures AfterCopies(src, entries, plan, false, i).rows == []
  {
    if i > 0 {
      NoRows(src, entries, plan, i - 1);
    }
  }

  /** Copying up to the stop delivers exactly the flagged entries. */
  lemma {:induction false} CopiesMean(src: seq<Message>, entries: seq<Entry>, plan: Plan, incremental: bool, stop: nat)
    requires stop <= |entries|
    ensures var p := AfterCopies(src, entries, plan, incremental, stop);
            && p.arrived == Picked(CopiesOf(src, entries, plan), Arrivals(|entries|, plan, stop))
            && p.confirmed == |Picked(entries, Confirmed(|entries|, plan, stop))|
            && p.rows == if incremental then Picked(CopyRows(entries, plan), Reported(|entries|, plan, stop)) else []
  {
    ArrivedArePicked(src, entries, plan, incremental, stop, stop);
    ConfirmedArePicked(src, entries, plan, incremental, stop, stop);
    RowsArePicked(src, entries, plan, stop, stop);
    NoRows(src, entries, plan, stop);
    PickedNoMore(CopiesOf(src, entries, plan), Arrivals(|entries|, plan, stop), stop);
    PickedNoMore(entries, Confirmed(|entries|, plan, stop), stop);
    PickedNoMore(CopyRows(entries, plan), Reported(|entries|, plan, stop), stop);
  }

  /** Copies the entries in turn. The destination gains a copy of exactly those that arrive; the
      count is of those confirmed, and the cache rows of those confirmed with an ID. */
  method CopyMissing(src: Mailbox, dst: Mailbox, entries: seq<Entry>, plan: Plan, cancelledFrom: nat, incremental: bool)
    returns (n: nat, cache: seq<CachedMsg>, ghost stop: nat)
    requires src != dst
    modifies dst
    ensures Sent(src.msgs, old(dst.msgs), dst.msgs, entries, plan, cancelledFrom, true, stop, n, cache, incremental)
  {
    n, cache, stop := CopyLoop(src, dst, entries, plan, cancelledFrom, incremental);
    CopiesMean(src.msgs, entries, Effective(src.msgs, entries, plan), incremental, stop);
  }

  method CopyLoop(src: Mailbox, dst: Mailbox, entries: seq<Entry>, plan: Plan, cancelledFrom: nat, incremental: bool)
    returns (n: nat, cache: seq<CachedMsg>, ghost stop: nat)
    requires src != dst
    modifies dst
    ensures StopsAt(|entries|, cancelledFrom, stop)
    ensures var p := AfterCopies(src.msgs, entries, Effective(src.msgs, entries, plan), incremental, stop);
            dst.msgs == old(dst.msgs) + p.arrived && n == p.confirmed && cache == p.rows
  {
    n, cache := 0, [];
    var i := 0;
    ghost var before, eff := dst.msgs, Effective(src.msgs, entries, plan);
    ghost var p := Progress([], 0, []);
    while i < |entries| && !SeesCancel(i, cancelledFrom)
      invariant 0 <= i <= |entries|
      invariant forall j :: 0 <= j < i ==> !SeesCancel(j, cancelledFrom)
      invariant p == AfterCopies(src.msgs, entries, eff, incremental, i)
      invariant dst.msgs == before + p.arrived && n == p.confirmed && cache == p.rows
    {
      ghost var g := Gained(src.msgs, entries[i], eff(i), incremental);
      ghost var next := AfterCopies(src.msgs, entries, eff, incremental, i + 1);
      assert next == Progress(p.arrived + g.arrived, p.confirmed + g.confirmed, p.rows + g.rows);
      var one, rows := CopyNext(src, dst, entries[i], plan(i), incremental);
      Assoc(before, p.arrived, g.arrived);
      n, cache, i, p := n + one, cache + rows, i + 1, next;
    }
    stop := i;
  }

  lemma Assoc<T>(s: seq<T>, t: seq<T>, u: seq<T>)
    ensures s + t + u == s + (t + u)
  {
  }

  /** One round of the loop. */
  method CopyNext(src: Mailbox, dst: Mailbox, e: Entry, planned: Outcome, incremental: bool)
    returns (n: nat, rows: seq<CachedMsg>)
    requires src != dst
    modifies dst
    ensures var g := Gained(src.msgs, e, if HeaderOf(src.msgs, e.id).Header? then planned else OpenFailed, incremental);
            dst.msgs == old(dst.msgs) + g.arrived && n == g.confirmed && rows == g.rows
  {
    n, rows := 0, [];
    var o := CopyOne(src, dst, e, planned);
    if o.Appended? {
      n := 1;
      if incremental && o.reported && o.id != "" {
        var flags := FilterFlags(e.flags);
        rows := [CachedMsg(o.id, e.msgID, e.surrogate, e.surrogate, e.internalDate, flags)];
      }
    }
  }

  /** Opens the message and appends it, tagged; what may happen is given. */
  method CopyOne(src: Mailbox, dst: Mailbox, e: Entry, planned: Outcome) returns (o: Outcome)
    requires src != dst
    modifies dst
    ensures o == if HeaderOf(src.msgs, e.id).Header? then planned else OpenFailed
    ensures dst.msgs == if Stored(o) then old(dst.msgs) + [CopyOf(src.msgs, e, o)] else old(dst.msgs)
  {
    var h := HeaderOf(src.msgs, e.id);
    if h.Malformed? {
      return OpenFailed;
    }
    o := planned;
    var flags := FilterFlags(e.flags);
    if Stored(o) {
      dst.msgs := dst.msgs + [Message(o.id, flags, e.internalDate, CopyHeader(h, TaggedOf(src.msgs, e.id)), true)];
    }
  }

  /** What one direction of a pass does to its destination, and what it reports. */
  ghost predicate Sent(src: seq<Message>, before: seq<Message>, after: seq<Message>, delta: seq<Entry>, plan: Plan,
                       cancelledFrom: nat, allowed: bool, stop: nat, copied: nat, cache: seq<CachedMsg>,
                       incremental: bool)
  {
    var eff := Effective(src, delta, plan);
    && (if allowed then StopsAt(|delta|, cancelledFrom, stop) else stop == 0)
    && after == before + Arrived(src, delta, plan, stop)
    && copied == |Picked(delta, Confirmed(|delta|, eff, stop))|
    && cache == if incremental then Picked(CopyRows(delta, eff), Reported(|delta|, eff, stop)) else []
  }

  /** Which entries of a delta arrive, and as what. */
  function Flags(src: seq<Message>, delta: seq<Entry>, plan: Plan, stop: nat): (ok: seq<bool>)
    ensures |ok| == |delta|
  {
    Arrivals(|delta|, Effective(src, delta, plan), stop)
  }

  function Arrived(src: seq<Message>, delta: seq<Entry>, plan: Plan, stop: nat): seq<Message> {
    Picked(CopiesOf(src, delta, Effective(src, delta, plan)), Flags(src, delta, plan, stop))
  }

  /** One direction of the pass: done only if the configuration and the target allow it. */
  method Direction(src: Mailbox, dst: Mailbox, missing: seq<Entry>, plan: Plan, cancelledFrom: nat, incremental: bool,
                   allowed: bool)
    returns (copied: nat, cache: seq<CachedMsg>, ghost stop: nat)
    requires src != dst
    modifies dst
    ensures Sent(src.msgs, old(dst.msgs), dst.msgs, missing, plan, cancelledFrom, allowed, stop, copied, cache,
                 incremental)
    ensures !allowed ==> dst.msgs == old(dst.msgs) && copied == 0 && cache == []
  {
    if allowed {
      copied, cache, stop := CopyMissing(src, dst, missing, plan, cancelledFrom, incremental);
    } else {
      copied, cache, stop := 0, [], 0;
      CopiesMean(src.msgs, missing, Effective(src.msgs, missing, plan), incremental, 0);
    }
  }
}
