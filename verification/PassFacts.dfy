/** What a cached pass reads and leaves behind, told by messages and stored rows. */
module PassFacts {
  import opened MatchKeys
  import opened Retention
  import opened RunRows
  import opened State
  import opened Incremental
  import opened CacheLaws
  import opened Copying
  import opened Copies
  import opened Selection

  // ---------------------------------------------------------------- where an index input comes from

  /** The pass fetches the message if its ID is new, or if no listed ID is: then it asks for
      everything. */
  predicate Asked(served: Served, trusted: map<string, CachedMsg>, id: string) {
    id in served.listed && (id !in trusted || forall other :: other in served.listed ==> other in trusted)
  }

  /** A message with that ID is fetched and parses. */
  predicate Parses(served: Served, trusted: map<string, CachedMsg>, id: string) {
    Asked(served, trusted, id) && exists m :: m in served.stored && m.id == id && m.header.Header?
  }

  /** The entry that a stored row gives, field by field. */
  predicate IsEntryOfRow(e: Entry, row: CachedMsg) {
    && e.id == row.id && e.flags == row.flags && e.internalDate == row.internalDate
    && e.msgID == row.msgID && e.surrogate == row.surrogate
    && e.keys == MatchKeysFrom(row.msgID, row.xhash, row.surrogate)
  }

  lemma {:induction false} InputFrom(ids: seq<string>, cached: map<string, CachedMsg>, e: Entry) returns (id: string)
    requires e in InputsFor(ids, cached)
    ensures id in ids && id in cached && e == EntryOfRow(cached[id])
  {
    var n := |ids| - 1;
    id := ids[n];
    if id !in cached || e != EntryOfRow(cached[id]) {
      id := InputFrom(ids[..n], cached, e);
    }
  }

  /** The rows of a pass are those of the messages it asks for, as far as they parse. */
  lemma {:induction false} FetchedFrom(s: Slot, served: Served, every: int, now: int)
    ensures var trusted := Trusted(s, served.validity, every, now);
            forall row :: row in Fetched(s, served, every, now) && row.id in served.listed <==>
              exists m :: m in served.stored && m.header.Header? && RowOf(m) == row && Asked(served, trusted, m.id)
  {
    var trusted := Trusted(s, served.validity, every, now);
    var newIDs := NewIDs(SortIDs(served.listed), trusted);
    SortIDsSorts(served.listed);
    NewIDsOf(SortIDs(served.listed), trusted);
    NoneNew(newIDs, served.listed, trusted);
    WithIdsOf(served.stored, newIDs);
    FreshRowsOf(FetchMeta(served, Wanted(newIDs)));
  }

  /** Every index input is the fetched message as it is, flags and date included, or, if none was
      fetched, the stored row of its ID. */
  lemma {:induction false} PassInputFrom(s: Slot, served: Served, every: int, now: int, e: Entry)
    returns (id: string, m: Option<Message>)
    requires e in PassInputs(s, served, every, now)
    ensures id in served.listed
    ensures var trusted := Trusted(s, served.validity, every, now);
            if Parses(served, trusted, id)
            then m.Some? && m.value in served.stored && m.value.id == id && IsEntryOf(e, m.value)
            else id in trusted && IsEntryOfRow(e, trusted[id])
  {
    var trusted, batch := Trusted(s, served.validity, every, now), Fetched(s, served, every, now);
    SortIDsSorts(served.listed);
    id := InputFrom(SortIDs(served.listed), Upserted(trusted, batch), e);
    UpsertedFrom(trusted, batch, id);
    FetchedFrom(s, served, every, now);
    m := None;
    if Parses(served, trusted, id) {
      var x := FetchedMessage(s, served, every, now, id, Upserted(trusted, batch)[id]);
      m := Some(x);
    }
  }

  lemma {:induction false} FetchedMessage(s: Slot, served: Served, every: int, now: int, id: string, row: CachedMsg)
    returns (m: Message)
    requires var trusted, batch := Trusted(s, served.validity, every, now), Fetched(s, served, every, now);
             && Parses(served, trusted, id)
             && ((row in batch && row.id == id) || forall r :: r in batch ==> r.id != id)
    ensures m in served.stored && m.header.Header? && m.id == id && RowOf(m) == row
  {
    var trusted, batch := Trusted(s, served.validity, every, now), Fetched(s, served, every, now);
    FetchedFrom(s, served, every, now);
    var x :| x in served.stored && x.id == id && x.header.Header?;
    assert RowOf(x) in batch && RowOf(x).id == id;
    m :| m in served.stored && m.header.Header? && RowOf(m) == row && Asked(served, trusted, m.id);
  }

  // ---------------------------------------------------------------- what travels

  ghost predicate CarriesListed(list: seq<Entry>, sent: seq<Message>, from: seq<nat>) {
    && Increasing(from, |list|) && |from| == |sent|
    && forall i :: 0 <= i < |sent| ==> && sent[i].internalDate == list[from[i]].internalDate
                                       && KeepsExactly(list[from[i]].flags, Travels, sent[i].flags)
  }

  /** Whatever was listed, copies have the dates and the transferable flags of listed entries, in the
      order of the list. */
  lemma {:induction false} ListedPassCarries(src: seq<Message>, list: seq<Entry>, dst: seq<Entry>, plan: Plan,
                                             stop: nat)
    returns (from: seq<nat>)
    ensures CarriesListed(list, Arrived(src, Delta(list, dst), plan, stop), from)
  {
    var delta := Delta(list, dst);
    var eff, ok := Effective(src, delta, plan), Flags(src, delta, plan, stop);
    var all := CopiesOf(src, delta, eff);
    var kept := DeltaSelects(list, dst);
    PickedSelects(delta, ok);
    PickedSelects(all, ok);
    var sent := Picked(all, ok);
    from := Followed(kept, Positions(ok), |delta|);
    forall i | 0 <= i < |sent|
      ensures && sent[i].internalDate == list[from[i]].internalDate
              && KeepsExactly(list[from[i]].flags, Travels, sent[i].flags)
    {
      var j := Positions(ok)[i];
      assert sent[i] == CopyOf(src, delta[j], eff(j)) && delta[j] == list[from[i]];
      CopyableExactly(delta[j].flags);
    }
  }

  /** So what a cached pass puts on the other side has the date and flags of the message fetched in
      the pass, or of the stored row if it was not fetched. */
  lemma {:induction false} CachedPassCarries(s: Slot, served: Served, every: int, now: int, dst: seq<Entry>, plan: Plan,
                                             stop: nat, k: nat)
    returns (id: string, m: Option<Message>)
    requires k < |Arrived(served.stored, Delta(PassInputs(s, served, every, now), dst), plan, stop)|
    ensures id in served.listed
    ensures var c := Arrived(served.stored, Delta(PassInputs(s, served, every, now), dst), plan, stop)[k];
            var trusted := Trusted(s, served.validity, every, now);
            if Parses(served, trusted, id)
            then && m.Some? && m.value in served.stored && m.value.id == id
                 && c.internalDate == m.value.internalDate && KeepsExactly(m.value.flags, Travels, c.flags)
            else && id in trusted && c.internalDate == trusted[id].internalDate
                 && KeepsExactly(trusted[id].flags, Travels, c.flags)
  {
    var list := PassInputs(s, served, every, now);
    var from := ListedPassCarries(served.stored, list, dst, plan, stop);
    id, m := PassInputFrom(s, served, every, now, list[from[k]]);
  }

  // ---------------------------------------------------------------- what the next pass loads

  /** The folder has another token than the stored one, or no full rescan is recent enough. */
  predicate Due(s: Slot, validity: string, every: int, now: int) {
    if s.endpoint.None? then every > 0
    else
      || s.endpoint.value.validity != validity
      || (every > 0 && s.endpoint.value.fullResyncAt.None?)
      || (every > 0 && s.endpoint.value.fullResyncAt.Some? && now - s.endpoint.value.fullResyncAt.value >= every)
  }

  lemma {:induction false} FetchedIds(s: Slot, served: Served, every: int, now: int, id: string)
    requires id in served.listed
    ensures (exists row :: row in Fetched(s, served, every, now) && row.id == id)
            <==> Parses(served, Trusted(s, served.validity, every, now), id)
  {
    var trusted, batch := Trusted(s, served.validity, every, now), Fetched(s, served, every, now);
    FetchedFrom(s, served, every, now);
    if Parses(served, trusted, id) {
      var m :| m in served.stored && m.id == id && m.header.Header?;
      assert RowOf(m) in batch && RowOf(m).id == id;
    }
  }

  /** After a pass whose rows and endpoint row are written, a later one under the same token loads a
      listed ID exactly if its row was there before or its message was fetched and parses, and it was
      not deleted, as long as the interval has not passed: it counts from this pass if it was a
      rescan, and else from the one before. */
  lemma {:induction false} NextPassLoads(s: Slot, served: Served, every: int, now: int, resetAt: int, faults: Faults,
                                         gone: seq<string>, now': int, id: string)
    requires faults.putWorks && faults.saveWorks && id in served.listed
    ensures var due := Due(s, served.validity, every, now);
            var since := if due then Some(resetAt)
                         else if s.endpoint.None? then None else s.endpoint.value.fullResyncAt;
            id in Trusted(AfterPass(s, served, every, now, resetAt, faults, gone), served.validity, every, now')
            <==> && (every <= 0 || (since.Some? && now' - since.value < every))
                 && id !in gone
                 && (|| (!due && id in s.rows)
                     || Parses(served, if due || s.endpoint.None? then map[] else s.rows, id))
  {
    var due, after := Due(s, served.validity, every, now), AfterPass(s, served, every, now, resetAt, faults, gone);
    assert due == NeedsReset(s, served.validity, every, now);
    assert Trusted(s, served.validity, every, now) == if due || s.endpoint.None? then map[] else s.rows;
    FetchedIds(s, served, every, now, id);
    var rows := AfterReset(s, served, every, now).rows;
    UpsertedKeys(rows, Fetched(s, served, every, now));
    assert id in rows <==> !due && id in s.rows;
    LoadedIff(after, served.validity, every, now', id);
    assert after.rows.Keys == Upserted(rows, Fetched(s, served, every, now)).Keys - set x | x in gone;
  }
}
