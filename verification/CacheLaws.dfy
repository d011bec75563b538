/** The persistent cache agrees with a plain rescan, in every run, through crashes. */
module CacheLaws {
  import opened MatchKeys
  import opened Retention
  import opened RunRows
  import opened State
  import opened Incremental

  // ---------------------------------------------------------------- coherence

  /** The row says of the message what parsing its header says. */
  ghost predicate RowMatches(w: World, validity: string, id: string, row: CachedMsg) {
    && row.id == id
    && w(validity, id) == Header(row.msgID, row.xhash, row.surrogate)
  }

  ghost predicate RowsMatch(w: World, validity: string, rows: map<string, CachedMsg>) {
    forall id :: id in rows ==> RowMatches(w, validity, id, rows[id])
  }

  /** Rows under an endpoint row belong to its validity token; rows without one may be anything. */
  ghost predicate Coherent(w: World, s: Slot) {
    s.endpoint.Some? ==> RowsMatch(w, s.endpoint.value.validity, s.rows)
  }

  ghost predicate BatchMatches(w: World, validity: string, batch: seq<CachedMsg>) {
    forall row :: row in batch ==> RowMatches(w, validity, row.id, row)
  }

  lemma {:induction false} UpsertedMatches(w: World, validity: string, rows: map<string, CachedMsg>,
                                           batch: seq<CachedMsg>)
    requires RowsMatch(w, validity, rows) && BatchMatches(w, validity, batch)
    ensures RowsMatch(w, validity, Upserted(rows, batch))
  {
    if batch != [] {
      assert batch[|batch| - 1] in batch;
      UpsertedMatches(w, validity, rows, batch[..|batch| - 1]);
    }
  }

  lemma {:induction false} UpsertedKeys(rows: map<string, CachedMsg>, batch: seq<CachedMsg>)
    ensures forall id :: id in Upserted(rows, batch) <==> id in rows || exists row :: row in batch && row.id == id
  {
    if batch != [] {
      UpsertedKeys(rows, batch[..|batch| - 1]);
      assert batch == batch[..|batch| - 1] + [batch[|batch| - 1]];
    }
  }

  lemma {:induction false} FreshRowsOf(ms: seq<Message>)
    ensures forall row :: row in FreshRows(ms) <==> exists m :: m in ms && m.header.Header? && RowOf(m) == row
  {
    if ms != [] {
      FreshRowsOf(ms[..|ms| - 1]);
      assert ms == ms[..|ms| - 1] + [ms[|ms| - 1]];
    }
  }

  lemma {:induction false} WithIdsOf(ms: seq<Message>, ids: seq<string>)
    ensures forall m :: m in WithIds(ms, ids) <==> m in ms && m.id in ids
  {
    if ms != [] {
      WithIdsOf(ms[..|ms| - 1], ids);
      assert ms == ms[..|ms| - 1] + [ms[|ms| - 1]];
    }
  }

  lemma {:induction false} NewIDsOf(ids: seq<string>, cached: map<string, CachedMsg>)
    ensures forall id :: id in NewIDs(ids, cached) <==> id in ids && id !in cached
  {
    if ids != [] {
      NewIDsOf(ids[..|ids| - 1], cached);
      assert ids == ids[..|ids| - 1] + [ids[|ids| - 1]];
    }
  }

  /** Whatever a pass fetches matches the folder. */
  lemma {:induction false} FetchedMatches(w: World, s: Slot, served: Served, every: int, now: int)
    requires Genuine(w, served)
    ensures BatchMatches(w, served.validity, Fetched(s, served, every, now))
  {
    var newIDs := NewIDs(SortIDs(served.listed), Trusted(s, served.validity, every, now));
    WithIdsOf(served.stored, newIDs);
    FreshRowsOf(FetchMeta(served, Wanted(newIDs)));
  }

  // ---------------------------------------------------------------- rows of copies

  /** The row written after a copy: right about the Message-ID and the surrogate, and with the
      surrogate as the tag, whatever tag the copy carries. */
  ghost predicate IsCopyRow(w: World, validity: string, row: CachedMsg) {
    var h := w(validity, row.id);
    h.Header? && h.msgID == row.msgID && h.surrogate == row.surrogate && row.xhash == row.surrogate
  }

  /** Such a row of a copy that carries another tag. */
  ghost predicate Misread(w: World, validity: string, row: CachedMsg) {
    IsCopyRow(w, validity, row) && w(validity, row.id).xhash != "" && w(validity, row.id).xhash != row.surrogate
  }

  ghost predicate RowFits(w: World, validity: string, id: string, row: CachedMsg) {
    row.id == id && (RowMatches(w, validity, id, row) || IsCopyRow(w, validity, row))
  }

  ghost predicate RowsFit(w: World, validity: string, rows: map<string, CachedMsg>) {
    forall id :: id in rows ==> RowFits(w, validity, id, rows[id])
  }

  /** Every message row under an endpoint row is a parsed one or that of a copy. */
  ghost predicate Loose(w: World, s: Slot) {
    s.endpoint.Some? ==> RowsFit(w, s.endpoint.value.validity, s.rows)
  }

  /** What the index compares: everything but flags and dates, which a cache may hold stale. */
  function Identity(e: Entry): Entry {
    e.(flags := [], internalDate := 0)
  }

  function Identities(s: seq<Entry>): seq<Entry> {
    if s == [] then [] else Identities(s[..|s| - 1]) + [Identity(s[|s| - 1])]
  }

  /** The index entry of a freshly parsed header. */
  function ScanEntry(id: string, h: Header): Entry
    requires h.Header?
  {
    Entry(id, [], 0, h.msgID, h.surrogate, MatchKeysFrom(h.msgID, h.xhash, h.surrogate))
  }

  /** A row that fits shows the message under some of its keys, and as it is unless misread. */
  lemma {:induction false} RowShows(w: World, validity: string, id: string, row: CachedMsg)
    requires RowFits(w, validity, id, row)
    ensures var h, e := w(validity, id), EntryOfRow(row);
            && h.Header? && e.keys != [] && KeySet(e.keys) <= KeySet(ScanEntry(id, h).keys)
            && (Identity(e) == ScanEntry(id, h) <==> !Misread(w, validity, row))
  {
    var h := w(validity, id);
    CopyRowKeysIff(h.msgID, h.xhash, h.surrogate);
  }

  // ---------------------------------------------------------------- one pass refines a full scan

  /** Fetching and parsing every message afresh, in the order of the IDs. */
  ghost function FullScan(w: World, validity: string, ids: seq<string>): seq<Entry> {
    if ids == [] then []
    else
      var front := FullScan(w, validity, ids[..|ids| - 1]);
      var id := ids[|ids| - 1];
      if w(validity, id).Header? then front + [ScanEntry(id, w(validity, id))] else front
  }

  function KeepIds(ids: seq<string>, keep: set<string>): seq<string> {
    if ids == [] then []
    else
      var front := KeepIds(ids[..|ids| - 1], keep);
      if ids[|ids| - 1] in keep then front + [ids[|ids| - 1]] else front
  }

  function StoredIds(served: Served): set<string> {
    set m | m in served.stored :: m.id
  }

  /** The listed messages that are cached or can still be fetched, in the order of their IDs. */
  function SeenIds(s: Slot, served: Served, every: int, now: int): seq<string> {
    KeepIds(SortIDs(served.listed), Trusted(s, served.validity, every, now).Keys + StoredIds(served))
  }

  /** The pass relies on the cached row: the message is listed and not fetched again, as it would be
      if no listed ID were new. */
  ghost predicate Relied(s: Slot, served: Served, every: int, now: int, id: string) {
    var trusted := Trusted(s, served.validity, every, now);
    && id in served.listed && id in trusted
    && !(id in StoredIds(served) && forall other :: other in served.listed ==> other in trusted)
  }

  ghost predicate NoneMisread(w: World, s: Slot, served: Served, every: int, now: int) {
    forall id :: Relied(s, served, every, now, id)
      ==> !Misread(w, served.validity, Trusted(s, served.validity, every, now)[id])
  }

  lemma {:induction false} TrustedFits(w: World, s: Slot, validity: string, every: int, now: int)
    requires Loose(w, s)
    ensures RowsFit(w, validity, Trusted(s, validity, every, now))
  {
  }

  /** Where a row of the table after an upsert comes from. */
  lemma {:induction false} UpsertedFrom(rows: map<string, CachedMsg>, batch: seq<CachedMsg>, id: string)
    requires id in Upserted(rows, batch)
    ensures var row := Upserted(rows, batch)[id];
            || (row in batch && row.id == id)
            || (id in rows && row == rows[id] && forall r :: r in batch ==> r.id != id)
  {
    if batch != [] {
      var n := |batch| - 1;
      assert batch == batch[..n] + [batch[n]];
      if batch[n].id != id {
        UpsertedFrom(rows, batch[..n], id);
      }
    }
  }

  /** What a pass fetches: the new IDs, or everything if there are none. */
  lemma {:induction false} FetchedIff(w: World, s: Slot, served: Served, every: int, now: int, id: string)
    requires Genuine(w, served) && id in served.listed
    ensures var trusted := Trusted(s, served.validity, every, now);
            (exists row :: row in Fetched(s, served, every, now) && row.id == id)
            <==> && id in StoredIds(served) && w(served.validity, id).Header?
                 && (id !in trusted || forall other :: other in served.listed ==> other in trusted)
  {
    var trusted := Trusted(s, served.validity, every, now);
    var ids := SortIDs(served.listed);
    var newIDs := NewIDs(ids, trusted);
    SortIDsSorts(served.listed);
    NewIDsOf(ids, trusted);
    WithIdsOf(served.stored, newIDs);
    var fetched := FetchMeta(served, Wanted(newIDs));
    FreshRowsOf(fetched);
    assert newIDs == [] <==> forall other :: other in served.listed ==> other in trusted by {
      NoneNew(newIDs, served.listed, trusted);
    }
    if m :| m in fetched && m.id == id && m.header.Header? {
      assert RowOf(m) in FreshRows(fetched) && RowOf(m).id == id;
    }
    assert (exists row :: row in FreshRows(fetched) && row.id == id)
           <==> (exists m :: m in fetched && m.id == id && m.header.Header?);
  }

  lemma {:induction false} NoneNew(newIDs: seq<string>, listed: seq<string>, trusted: map<string, CachedMsg>)
    requires forall id :: id in newIDs <==> id in listed && id !in trusted
    ensures newIDs == [] <==> forall other :: other in listed ==> other in trusted
  {
    assert newIDs != [] ==> newIDs[0] in newIDs;
  }

  /** The working copy of the cache holds exactly the listed messages that are seen and parse, under
      a fitting row, misread only where a relied-on row is. */
  lemma {:induction false} WorkingRow(w: World, s: Slot, served: Served, every: int, now: int, id: string)
    requires Loose(w, s) && Genuine(w, served) && id in served.listed
    ensures var trusted := Trusted(s, served.validity, every, now);
            var cached := Upserted(trusted, Fetched(s, served, every, now));
            && (id in cached <==> (id in trusted || id in StoredIds(served)) && w(served.validity, id).Header?)
            && (id in cached ==>
                  && RowFits(w, served.validity, id, cached[id])
                  && (Misread(w, served.validity, cached[id])
                      <==> Relied(s, served, every, now, id) && Misread(w, served.validity, trusted[id])))
  {
    var trusted, fetched := Trusted(s, served.validity, every, now), Fetched(s, served, every, now);
    TrustedFits(w, s, served.validity, every, now);
    FetchedMatches(w, s, served, every, now);
    FetchedIff(w, s, served, every, now, id);
    UpsertedKeys(trusted, fetched);
    if id in Upserted(trusted, fetched) {
      UpsertedFrom(trusted, fetched, id);
    }
  }

  lemma {:induction false} ScanSizes(w: World, validity: string, ids: seq<string>, cached: map<string, CachedMsg>)
    requires forall id :: id in ids ==> (id in cached <==> w(validity, id).Header?)
    ensures |InputsFor(ids, cached)| == |Identities(InputsFor(ids, cached))| == |FullScan(w, validity, ids)|
  {
    if ids != [] {
      var n := |ids| - 1;
      assert ids[n] in ids;
      ScanSizes(w, validity, ids[..n], cached);
      IdentitiesSize(InputsFor(ids, cached));
    }
  }

  lemma {:induction false} IdentitiesSize(s: seq<Entry>)
    ensures |Identities(s)| == |s|
  {
    if s != [] {
      IdentitiesSize(s[..|s| - 1]);
    }
  }

  lemma {:induction false} IdentitiesSnoc(s: seq<Entry>, e: Entry)
    ensures Identities(s + [e]) == Identities(s) + [Identity(e)]
  {
    assert (s + [e])[..|s|] == s;
  }

  lemma {:induction false} InputsAreScanIff(w: World, validity: string, ids: seq<string>,
                                            cached: map<string, CachedMsg>)
    requires forall id :: id in ids ==> (id in cached <==> w(validity, id).Header?)
    requires forall id :: id in ids && id in cached ==> RowFits(w, validity, id, cached[id])
    ensures Identities(InputsFor(ids, cached)) == FullScan(w, validity, ids)
            <==> forall id :: id in ids && id in cached ==> !Misread(w, validity, cached[id])
  {
    if ids != [] {
      var n := |ids| - 1;
      var id, front := ids[n], InputsFor(ids[..n], cached);
      assert ids == ids[..n] + [id];
      InputsAreScanIff(w, validity, ids[..n], cached);
      if id in cached {
        RowShows(w, validity, id, cached[id]);
        IdentitiesSnoc(front, EntryOfRow(cached[id]));
        ScanSizes(w, validity, ids[..n], cached);
        SnocEqual(Identities(front), Identity(EntryOfRow(cached[id])),
                  FullScan(w, validity, ids[..n]), ScanEntry(id, w(validity, id)));
      }
    }
  }

  lemma SnocEqual(s: seq<Entry>, x: Entry, t: seq<Entry>, y: Entry)
    requires |s| == |t|
    ensures s + [x] == t + [y] <==> s == t && x == y
  {
    assert (s + [x])[..|s|] == s && (t + [y])[..|t|] == t;
    assert (s + [x])[|s|] == x && (t + [y])[|t|] == y;
  }

  lemma {:induction false} KeepIdsOf(ids: seq<string>, keep: set<string>)
    ensures forall id :: id in KeepIds(ids, keep) <==> id in ids && id in keep
  {
    if ids != [] {
      KeepIdsOf(ids[..|ids| - 1], keep);
      assert ids == ids[..|ids| - 1] + [ids[|ids| - 1]];
    }
  }

  /** IDs without a row add nothing. */
  lemma {:induction false} InputsOfKept(ids: seq<string>, keep: set<string>, cached: map<string, CachedMsg>)
    requires forall id :: id in ids && id in cached ==> id in keep
    ensures InputsFor(ids, cached) == InputsFor(KeepIds(ids, keep), cached)
  {
    if ids != [] {
      var n := |ids| - 1;
      assert ids[n] in ids;
      InputsOfKept(ids[..n], keep, cached);
      var front := KeepIds(ids[..n], keep);
      assert (front + [ids[n]])[..|front|] == front;
    }
  }

  /** Incremental refines full: from a cache of parsed rows and copy rows the index inputs of a pass
      are those of a full scan, in ID order, of the listed messages it can see, if and only if it
      relies on no misread row. This includes the pass in which no ID is new and everything is
      fetched again. */
  lemma {:induction false} RefinesFullIff(w: World, s: Slot, served: Served, every: int, now: int)
    requires Loose(w, s) && Genuine(w, served)
    ensures Identities(PassInputs(s, served, every, now))
            == FullScan(w, served.validity, SeenIds(s, served, every, now))
            <==> NoneMisread(w, s, served, every, now)
  {
    var trusted := Trusted(s, served.validity, every, now);
    var cached := Upserted(trusted, Fetched(s, served, every, now));
    var all, seen := SortIDs(served.listed), SeenIds(s, served, every, now);
    SortIDsSorts(served.listed);
    KeepIdsOf(all, trusted.Keys + StoredIds(served));
    WorkingRows(w, s, served, every, now, cached);
    InputsOfKept(all, trusted.Keys + StoredIds(served), cached);
    InputsAreScanIff(w, served.validity, seen, cached);
    MisreadIff(w, s, served, every, now, cached, seen);
  }

  lemma {:induction false} WorkingRows(w: World, s: Slot, served: Served, every: int, now: int,
                                       cached: map<string, CachedMsg>)
    requires Loose(w, s) && Genuine(w, served)
    requires cached == Upserted(Trusted(s, served.validity, every, now), Fetched(s, served, every, now))
    ensures var trusted := Trusted(s, served.validity, every, now);
            forall id :: id in served.listed ==>
              && (id in cached <==> (id in trusted || id in StoredIds(served)) && w(served.validity, id).Header?)
              && (id in cached ==> RowFits(w, served.validity, id, cached[id]))
  {
    var trusted := Trusted(s, served.validity, every, now);
    forall id | id in served.listed
      ensures id in cached <==> (id in trusted || id in StoredIds(served)) && w(served.validity, id).Header?
      ensures id in cached ==> RowFits(w, served.validity, id, cached[id])
    {
      WorkingRow(w, s, served, every, now, id);
    }
  }

  lemma {:induction false} MisreadIff(w: World, s: Slot, served: Served, every: int, now: int,
                                      cached: map<string, CachedMsg>, seen: seq<string>)
    requires Loose(w, s) && Genuine(w, served)
    requires cached == Upserted(Trusted(s, served.validity, every, now), Fetched(s, served, every, now))
    requires forall id :: id in seen ==> id in served.listed
    requires forall id :: id in served.listed && id in Trusted(s, served.validity, every, now) ==> id in seen
    ensures (forall id :: id in seen && id in cached ==> !Misread(w, served.validity, cached[id]))
            <==> NoneMisread(w, s, served, every, now)
  {
    var trusted := Trusted(s, served.validity, every, now);
    TrustedFits(w, s, served.validity, every, now);
    forall id | id in seen && id in cached
      ensures Misread(w, served.validity, cached[id])
              <==> Relied(s, served, every, now, id) && Misread(w, served.validity, trusted[id])
    {
      WorkingRow(w, s, served, every, now, id);
    }
    forall id | Relied(s, served, every, now, id) ensures id in seen && id in cached {
      WorkingRow(w, s, served, every, now, id);
    }
  }

  /** So a pass without misread rows also builds the index of a full scan. */
  lemma {:induction false} IncrementalRefinesFull(w: World, s: Slot, served: Served, every: int, now: int)
    requires Loose(w, s) && Genuine(w, served) && NoneMisread(w, s, served, every, now)
    ensures Identities(Retained(PassInputs(s, served, every, now)))
            == Retained(FullScan(w, served.validity, SeenIds(s, served, every, now)))
  {
    RefinesFullIff(w, s, served, every, now);
    RetainedIdentities(PassInputs(s, served, every, now));
  }

  /** If no listed message vanished before the fetch, every listed one is seen. */
  lemma {:induction false} NoneVanished(s: Slot, served: Served, every: int, now: int)
    requires forall id :: id in served.listed ==>
               id in Trusted(s, served.validity, every, now) || id in StoredIds(served)
    ensures SeenIds(s, served, every, now) == SortIDs(served.listed)
  {
    SortIDsSorts(served.listed);
    AllKept(SortIDs(served.listed), Trusted(s, served.validity, every, now).Keys + StoredIds(served));
  }

  lemma {:induction false} AllKept(ids: seq<string>, keep: set<string>)
    requires forall id :: id in ids ==> id in keep
    ensures KeepIds(ids, keep) == ids
  {
    if ids != [] {
      AllKept(ids[..|ids| - 1], keep);
      assert ids[|ids| - 1] in ids;
    }
  }

  /** Retention looks at nothing but keys. */
  lemma {:induction false} RetainedIdentities(s: seq<Entry>)
    ensures Identities(Retained(s)) == Retained(Identities(s))
    ensures AllKeys(Retained(s)) == AllKeys(Retained(Identities(s)))
  {
    if s != [] {
      var front, last := s[..|s| - 1], s[|s| - 1];
      RetainedIdentities(front);
      assert Identities(s)[..|Identities(front)|] == Identities(front);
      AllKeysSnoc(Retained(front), last);
      AllKeysSnoc(Retained(Identities(front)), Identity(last));
      assert (Retained(front) + [last])[..|Retained(front)|] == Retained(front);
    }
  }

  lemma {:induction false} LackingIdentities(s: seq<Entry>, known: set<string>)
    ensures Identities(Lacking(s, known)) == Lacking(Identities(s), known)
  {
    if s != [] {
      var front, last := s[..|s| - 1], s[|s| - 1];
      LackingIdentities(front, known);
      assert (Identities(front) + [Identity(last)])[..|Identities(front)|] == Identities(front);
      if !Covered(last.keys, known) {
        assert (Lacking(front, known) + [last])[..|Lacking(front, known)|] == Lacking(front, known);
      }
    }
  }

  /** So two sides indexed without misread rows find exactly the deltas of two full scans. */
  lemma {:induction false} IncrementalDeltaIsFull(wA: World, sA: Slot, servedA: Served, wB: World, sB: Slot,
                                                  servedB: Served, every: int, nowA: int, nowB: int)
    requires Loose(wA, sA) && Genuine(wA, servedA) && NoneMisread(wA, sA, servedA, every, nowA)
    requires Loose(wB, sB) && Genuine(wB, servedB) && NoneMisread(wB, sB, servedB, every, nowB)
    ensures Identities(Delta(PassInputs(sA, servedA, every, nowA), PassInputs(sB, servedB, every, nowB)))
            == Delta(FullScan(wA, servedA.validity, SeenIds(sA, servedA, every, nowA)),
                     FullScan(wB, servedB.validity, SeenIds(sB, servedB, every, nowB)))
  {
    var inA, inB := PassInputs(sA, servedA, every, nowA), PassInputs(sB, servedB, every, nowB);
    RefinesFullIff(wA, sA, servedA, every, nowA);
    RefinesFullIff(wB, sB, servedB, every, nowB);
    RetainedIdentities(inA);
    RetainedIdentities(inB);
    LackingIdentities(Retained(inA), AllKeys(Retained(inB)));
  }

  // ---------------------------------------------------------------- what a pass leaves behind

  lemma {:induction false} PassKeepsCoherence(w: World, s: Slot, served: Served, every: int, now: int, resetAt: int,
                           faults: Faults, gone: seq<string>)
    requires Coherent(w, s) && Genuine(w, served)
    requires every > 0 || s.endpoint.Some? || s.rows == map[]
    ensures Coherent(w, AfterPass(s, served, every, now, resetAt, faults, gone))
    ensures Coherent(w, AfterReset(s, served, every, now))
  {
    FetchedMatches(w, s, served, every, now);
    var s1 := AfterReset(s, served, every, now);
    if s1.endpoint.Some? || s1.rows == map[] {
      assert RowsMatch(w, served.validity, s1.rows);
      UpsertedMatches(w, served.validity, s1.rows, Fetched(s, served, every, now));
    }
  }

  /** Exactly when a pass restores coherence, whatever the folder and the mail: a rescan
      interval is set, or the side has an endpoint row, or it has no message rows. Otherwise
      rows left by an interrupted first pass are adopted under the new validity token. */
  lemma {:induction false} CoherenceKeptIff(s: Slot, every: int, now: int, resetAt: int)
    ensures (forall w: World, served, faults, gone ::
               Coherent(w, s) && Genuine(w, served)
               ==> Coherent(w, AfterPass(s, served, every, now, resetAt, faults, gone)))
            <==> (every > 0 || s.endpoint.Some? || s.rows == map[])
  {
    if every > 0 || s.endpoint.Some? || s.rows == map[] {
      forall w: World, served, faults, gone | Coherent(w, s) && Genuine(w, served)
        ensures Coherent(w, AfterPass(s, served, every, now, resetAt, faults, gone))
      {
        PassKeepsCoherence(w, s, served, every, now, resetAt, faults, gone);
      }
    } else {
      var id :| id in s.rows;
      var w: World := (v, i) => Malformed;
      var served := Served("", [], [], true, true);
      var faults := Faults(true, true, true, 0, true);
      var after := AfterPass(s, served, every, now, resetAt, faults, []);
      assert Coherent(w, s) && Genuine(w, served);
      assert id in after.rows && !RowMatches(w, "", id, after.rows[id]);
      assert !Coherent(w, after);
    }
  }

  /** The row written after a copy matches the copy it stands for if and only if the source had
      no tag, or a tag equal to its surrogate: an untagged source gets its surrogate as the
      tag, a tagged one keeps its own. */
  lemma CopyRowMatchesIff(w: World, validity: string, row: CachedMsg, source: Header)
    requires source.Header? && row.msgID == source.msgID
    requires row.xhash == source.surrogate && row.surrogate == source.surrogate
    requires w(validity, row.id) == if source.xhash == "" then source.(xhash := source.surrogate) else source
    ensures RowMatches(w, validity, row.id, row) <==> (source.xhash == "" || source.xhash == source.surrogate)
  {
  }
}
