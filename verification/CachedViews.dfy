/** What a pass over the cache lists are views in the sense of SyncRuns: the link between the cache
    and the runs of whole passes. */
module CachedViews {
  import opened MatchKeys
  import opened Retention
  import opened State
  import opened Incremental
  import opened CacheLaws
  import opened SyncRuns
  import opened Copying
  import opened Copies
  import opened SyncPass

  predicate Distinct(ids: seq<string>) {
    forall i, j :: 0 <= i < j < |ids| ==> ids[i] != ids[j]
  }

  lemma {:induction false} DistinctCount(ids: seq<string>, x: string)
    requires Distinct(ids)
    ensures multiset(ids)[x] <= 1
  {
    if ids != [] {
      var n := |ids| - 1;
      DistinctCount(ids[..n], x);
      assert ids == ids[..n] + [ids[n]];
      if ids[n] == x {
        assert x !in ids[..n];
      }
    }
  }

  lemma {:induction false} TwiceCount(ids: seq<string>, i: nat, j: nat)
    requires i < j < |ids| && ids[i] == ids[j]
    ensures multiset(ids)[ids[i]] >= 2
  {
    assert ids == ids[..j] + ids[j..];
    assert ids[..j][i] == ids[i] && ids[j..][0] == ids[i];
    assert ids[i] in multiset(ids[..j]) && ids[i] in multiset(ids[j..]);
  }

  lemma {:induction false} SortedDistinct(ids: seq<string>)
    requires Distinct(ids)
    ensures Distinct(SortIDs(ids))
  {
    var r := SortIDs(ids);
    forall i, j | 0 <= i < j < |r| ensures r[i] != r[j] {
      if r[i] == r[j] {
        TwiceCount(r, i, j);
        DistinctCount(ids, r[i]);
      }
    }
  }

  /** The index inputs are the rows of the IDs, one each. */
  lemma {:induction false} InputsOf(ids: seq<string>, cached: map<string, CachedMsg>)
    requires Distinct(ids) && forall id :: id in ids && id in cached ==> cached[id].id == id
    ensures UniqueIds(InputsFor(ids, cached))
    ensures forall e :: e in InputsFor(ids, cached) <==> e.id in ids && e.id in cached && e == EntryOfRow(cached[e.id])
  {
    if ids != [] {
      var n := |ids| - 1;
      var front := InputsFor(ids[..n], cached);
      assert ids == ids[..n] + [ids[n]] && ids[n] in ids;
      InputsOf(ids[..n], cached);
      if ids[n] in cached {
        assert ids[n] !in Ids(front);
        UniqueSnoc(front, EntryOfRow(cached[ids[n]]));
      }
    }
  }

  // ---------------------------------------------------------------- what is listed

  /** The folder holds exactly the messages of these IDs that parse, as they are. */
  ghost predicate Holds(w: World, validity: string, folder: seq<Entry>, ids: seq<string>) {
    && (forall m :: m in folder ==> m.id in ids && Real(w, validity, m))
    && (forall id :: id in ids && w(validity, id).Header? ==> id in Ids(folder))
  }

  ghost predicate Real(w: World, validity: string, m: Entry) {
    var h := w(validity, m.id);
    h.Header? && m.msgID == h.msgID && m.surrogate == h.surrogate && m.keys == ScanEntry(m.id, h).keys
  }

  /** With the cache a pass lists the messages it can see under views of the Rows mode, as long as
      the rows it misreads are those of copies. */
  lemma {:induction false} CachedListing(w: World, s: Slot, served: Served, every: int, now: int, folder: seq<Entry>,
                                         copies: set<string>)
    requires Loose(w, s) && Genuine(w, served) && Distinct(served.listed)
    requires Holds(w, served.validity, folder, SeenIds(s, served, every, now))
    requires MisreadOnly(w, s, served, every, now, copies)
    ensures Lists(PassInputs(s, served, every, now), folder, copies, Mode.Rows)
  {
    var trusted := Trusted(s, served.validity, every, now);
    var cached := Upserted(trusted, Fetched(s, served, every, now));
    var ids, list := SortIDs(served.listed), PassInputs(s, served, every, now);
    SortIDsSorts(served.listed);
    SortedDistinct(served.listed);
    KeepIdsOf(ids, trusted.Keys + StoredIds(served));
    WorkingRows(w, s, served, every, now, cached);
    InputsOf(ids, cached);
    forall e, m | e in list && m in folder && e.id == m.id ensures IsView(e, m, e.id in copies, Mode.Rows) {
      WorkingRow(w, s, served, every, now, e.id);
      RowIsView(w, served.validity, cached[e.id], m, e.id in copies);
    }
    SameIds(w, served.validity, SeenIds(s, served, every, now), cached, list, folder);
  }

  /** Every row the pass relies on and misreads has one of these IDs. */
  ghost predicate MisreadOnly(w: World, s: Slot, served: Served, every: int, now: int, ids: set<string>) {
    forall id :: Relied(s, served, every, now, id) ==>
      Misread(w, served.validity, Trusted(s, served.validity, every, now)[id]) ==> id in ids
  }

  lemma {:induction false} RowIsView(w: World, validity: string, row: CachedMsg, m: Entry, copy: bool)
    requires RowFits(w, validity, row.id, row) && Real(w, validity, m) && m.id == row.id
    requires Misread(w, validity, row) ==> copy
    ensures IsView(EntryOfRow(row), m, copy, Mode.Rows)
  {
    var h := w(validity, m.id);
    RowShows(w, validity, row.id, row);
    CopyRowKeysIff(h.msgID, h.xhash, h.surrogate);
    CopyRowKeysIff(h.msgID, row.xhash, h.surrogate);
    var e := EntryOfRow(row);
    assert e.keys[0] in KeySet(e.keys);
  }

  lemma {:induction false} SameIds(w: World, validity: string, seen: seq<string>, cached: map<string, CachedMsg>,
                                   list: seq<Entry>, folder: seq<Entry>)
    requires Holds(w, validity, folder, seen)
    requires forall e :: e in list ==> e.id in seen && w(validity, e.id).Header?
    requires forall id :: id in seen && w(validity, id).Header? ==> id in cached && cached[id].id == id
    requires forall id :: id in seen && id in cached ==> EntryOfRow(cached[id]) in list
    ensures Ids(list) == Ids(folder)
  {
    forall m | m in folder ensures m.id in Ids(list) {
      assert EntryOfRow(cached[m.id]) in list;
    }
  }

  /** The listing is that of the stored messages: none arrived or vanished in between. */
  ghost predicate Stable(served: Served) {
    && Distinct(served.listed) && UniqueMsgs(served.stored)
    && forall id :: id in served.listed <==> id in StoredIds(served)
  }

  lemma {:induction false} EntryListed(msgs: seq<Message>, x: Message)
    requires x in msgs && x.header.Header?
    ensures EntryOf(x) in Entries(msgs)
  {
    if x != msgs[|msgs| - 1] {
      EntryListed(msgs[..|msgs| - 1], x);
    }
  }

  /** Then the pass sees the whole folder. */
  lemma {:induction false} StableHolds(w: World, s: Slot, served: Served, every: int, now: int)
    requires Genuine(w, served) && Stable(served)
    ensures SeenIds(s, served, every, now) == SortIDs(served.listed)
    ensures Holds(w, served.validity, Entries(served.stored), SeenIds(s, served, every, now))
  {
    NoneVanished(s, served, every, now);
    SortIDsSorts(served.listed);
    var folder := Entries(served.stored);
    forall m | m in folder ensures m.id in served.listed && Real(w, served.validity, m) {
      var x := EntryFrom(served.stored, m);
      assert x.id in StoredIds(served);
    }
    forall id | id in served.listed && w(served.validity, id).Header? ensures id in Ids(folder) {
      assert id in StoredIds(served);
      var x :| x in served.stored && x.id == id;
      EntryListed(served.stored, x);
    }
  }

  // ---------------------------------------------------------------- the rows a pass leaves

  /** The cache belongs to the token, holds parsed rows and copy rows, and misreads only logged copies. */
  ghost predicate Logged(w: World, validity: string, s: Slot, log: set<string>) {
    s.endpoint.Some? ==> s.endpoint.value.validity == validity && LoggedRows(w, validity, s.rows, log)
  }

  ghost predicate LoggedRows(w: World, validity: string, rows: map<string, CachedMsg>, log: set<string>) {
    forall id :: id in rows ==> RowFits(w, validity, id, rows[id]) && (Misread(w, validity, rows[id]) ==> id in log)
  }

  lemma {:induction false} LoggedMeans(w: World, s: Slot, served: Served, every: int, now: int, log: set<string>)
    requires Logged(w, served.validity, s, log)
    ensures Loose(w, s) && MisreadOnly(w, s, served, every, now, log)
  {
  }

  lemma {:induction false} UpsertedLogged(w: World, validity: string, rows: map<string, CachedMsg>,
                                          batch: seq<CachedMsg>, log: set<string>)
    requires LoggedRows(w, validity, rows, log)
    requires forall row :: row in batch ==>
               RowFits(w, validity, row.id, row) && (Misread(w, validity, row) ==> row.id in log)
    ensures LoggedRows(w, validity, Upserted(rows, batch), log)
  {
    forall id | id in Upserted(rows, batch)
      ensures var row := Upserted(rows, batch)[id];
              RowFits(w, validity, id, row) && (Misread(w, validity, row) ==> id in log)
    {
      UpsertedFrom(rows, batch, id);
    }
  }

  /** Indexing keeps that, whatever writes fail. */
  lemma {:induction false} IndexedLogged(w: World, s: Slot, served: Served, every: int, now: int, resetAt: int,
                                         faults: Faults, gone: seq<string>, log: set<string>)
    requires Logged(w, served.validity, s, log) && Genuine(w, served)
    requires every > 0 || s.endpoint.Some? || s.rows == map[]
    ensures Logged(w, served.validity, AfterPass(s, served, every, now, resetAt, faults, gone), log)
  {
    var s1, fetched := AfterReset(s, served, every, now), Fetched(s, served, every, now);
    FetchedMatches(w, s, served, every, now);
    if s1.endpoint.Some? || s1.rows == map[] {
      UpsertedLogged(w, served.validity, s1.rows, fetched, log);
    }
  }

  /** The rows written for copies keep it with the longer log. */
  lemma {:induction false} FinishedLogged(w: World, s: Slot, r: SideRun, every: int, gone: seq<string>,
                                          log: set<string>, log': set<string>, cache: seq<CachedMsg>)
    requires Logged(w, r.served.validity, s, log) && Genuine(w, r.served) && log <= log'
    requires every > 0 || s.endpoint.Some? || s.rows == map[]
    requires forall row :: row in cache ==> IsCopyRow(w, r.served.validity, row) && row.id in log'
    ensures Logged(w, r.served.validity, Finished(s, r, every, true, gone, cache), log')
  {
    IndexedLogged(w, s, r.served, every, r.now, r.resetAt, r.faults, gone, log);
    var t := Indexed(s, r, every, true, gone);
    if t.endpoint.Some? {
      UpsertedLogged(w, r.served.validity, t.rows, cache, log');
    }
  }

  /** The row that copyMissing writes for a copy is a copy row of the message it appended, and
      misread if and only if HasHeader finds at the source a tag that is neither empty nor the
      surrogate. */
  lemma {:induction false} WrittenRowIff(w: World, validity: string, src: seq<Message>, e: Entry, o: Outcome)
    requires Stored(o) && HeaderOf(src, e.id).Header?
    requires e.msgID == HeaderOf(src, e.id).msgID && e.surrogate == HeaderOf(src, e.id).surrogate
    requires w(validity, o.id) == CopyOf(src, e, o).header
    ensures IsCopyRow(w, validity, CopyRow(e, o))
    ensures Misread(w, validity, CopyRow(e, o))
            <==> && TaggedOf(src, e.id)
                 && HeaderOf(src, e.id).xhash != "" && HeaderOf(src, e.id).xhash != e.surrogate
  {
  }
}
