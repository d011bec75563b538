/** Incremental indexing of one side of a folder pair (indexFolderIncremental in
    internal/syncer/syncer.go): cached rows for known IDs, fresh parses for the others. */
module Incremental {
  import opened MatchKeys
  import opened Retention
  import opened DedupIndex
  import opened RunRows
  import opened State

  // ---------------------------------------------------------------- what the server holds

  /** What parsing a header block yields. */
  datatype Header = Malformed | Header(msgID: string, xhash: string, surrogate: string)

  /** Under one validity token an ID always names the same message. */
  type World = (string, string) -> Header

  /** A stored message, and whether HasHeader finds a tag in its bytes. */
  datatype Message = Message(id: string, flags: seq<string>, internalDate: int, header: Header, tagged: bool)

  /** What the endpoint answers during a pass: the listed IDs, and the messages a metadata fetch
      sees, which may have changed since the listing. */
  datatype Served = Served(validity: string, listed: seq<string>, stored: seq<Message>,
                           listWorks: bool, fetchWorks: bool)

  ghost predicate Genuine(w: World, s: Served) {
    forall m :: m in s.stored ==> m.header == w(s.validity, m.id)
  }

  /** The endpoint contract: no ID list at all means every message of the folder. */
  function FetchMeta(s: Served, ids: Option<seq<string>>): seq<Message> {
    if ids.None? then s.stored else WithIds(s.stored, ids.value)
  }

  function WithIds(ms: seq<Message>, ids: seq<string>): seq<Message> {
    if ms == [] then []
    else
      var front := WithIds(ms[..|ms| - 1], ids);
      if ms[|ms| - 1].id in ids then front + [ms[|ms| - 1]] else front
  }

  // ---------------------------------------------------------------- IDs are indexed in string order

  predicate StrLe(a: string, b: string) {
    a == [] || (b != [] && (a[0] < b[0] || (a[0] == b[0] && StrLe(a[1..], b[1..]))))
  }

  /** The strings agree up to k, and there the first has the smaller character. */
  predicate LessAt(a: string, b: string, k: nat) {
    k < |a| && k < |b| && a[..k] == b[..k] && a[k] < b[k]
  }

  /** String order: a prefix comes first, and otherwise the smaller character at the first
      difference. */
  lemma {:induction false} StrLeIff(a: string, b: string)
    ensures StrLe(a, b) <==> a <= b || exists k: nat :: LessAt(a, b, k)
  {
    if a != [] && b != [] && a[0] == b[0] {
      StrLeIff(a[1..], b[1..]);
      assert a == [a[0]] + a[1..] && b == [b[0]] + b[1..];
      if k: nat :| LessAt(a[1..], b[1..], k) {
        assert a[..k + 1] == [a[0]] + a[1..][..k] && b[..k + 1] == [b[0]] + b[1..][..k];
        assert LessAt(a, b, k + 1);
      }
      if k: nat :| LessAt(a, b, k) {
        assert a[1..][..k - 1] == a[..k][1..] && b[1..][..k - 1] == b[..k][1..];
        assert LessAt(a[1..], b[1..], k - 1);
      }
    } else if a != [] && b != [] {
      if a[0] < b[0] {
        assert LessAt(a, b, 0);
      }
      if k: nat :| LessAt(a, b, k) {
        assert k > 0 ==> a[..k][0] == b[..k][0];
      }
    }
  }

  predicate SortedIDs(ids: seq<string>) {
    forall i, j :: 0 <= i < j < |ids| ==> StrLe(ids[i], ids[j])
  }

  lemma StrLeTotal(a: string, b: string)
    ensures StrLe(a, b) || StrLe(b, a)
  {
  }

  lemma StrLeTransitive(a: string, b: string, c: string)
    requires StrLe(a, b) && StrLe(b, c)
    ensures StrLe(a, c)
  {
  }

  function Inserted(ids: seq<string>, id: string): (r: seq<string>)
    ensures multiset(r) == multiset(ids) + multiset{id}
  {
    if ids == [] || StrLe(ids[|ids| - 1], id) then ids + [id]
    else
      assert ids == ids[..|ids| - 1] + [ids[|ids| - 1]];
      Inserted(ids[..|ids| - 1], id) + [ids[|ids| - 1]]
  }

  lemma {:induction false} InsertedSorted(ids: seq<string>, id: string)
    requires SortedIDs(ids)
    ensures SortedIDs(Inserted(ids, id))
  {
    if ids != [] {
      var front, last := ids[..|ids| - 1], ids[|ids| - 1];
      if StrLe(last, id) {
        forall i | 0 <= i < |ids| ensures StrLe(ids[i], id) {
          if i < |front| {
            StrLeTransitive(ids[i], last, id);
          }
        }
      } else {
        InsertedSorted(front, id);
        StrLeTotal(last, id);
        forall x | x in Inserted(front, id) ensures StrLe(x, last) {
          assert x in multiset(Inserted(front, id));
          assert x == id || x in multiset(front);
        }
      }
    }
  }

  function SortIDs(ids: seq<string>): (r: seq<string>)
    ensures multiset(r) == multiset(ids)
  {
    if ids == [] then []
    else
      assert ids == ids[..|ids| - 1] + [ids[|ids| - 1]];
      Inserted(SortIDs(ids[..|ids| - 1]), ids[|ids| - 1])
  }

  lemma {:induction false} SortIDsSorts(ids: seq<string>)
    ensures SortedIDs(SortIDs(ids))
    ensures forall id :: id in SortIDs(ids) <==> id in ids
  {
    if ids != [] {
      SortIDsSorts(ids[..|ids| - 1]);
      InsertedSorted(SortIDs(ids[..|ids| - 1]), ids[|ids| - 1]);
    }
    forall id ensures id in SortIDs(ids) <==> id in ids {
      assert id in SortIDs(ids) <==> id in multiset(SortIDs(ids));
      assert id in ids <==> id in multiset(ids);
    }
  }

  // ---------------------------------------------------------------- the pass as functions

  function RowOf(m: Message): CachedMsg
    requires m.header.Header?
  {
    CachedMsg(m.id, m.header.msgID, m.header.xhash, m.header.surrogate, m.internalDate, m.flags)
  }

  /** Rows for the fetched messages that parse. */
  function FreshRows(ms: seq<Message>): seq<CachedMsg> {
    if ms == [] then []
    else
      var front := FreshRows(ms[..|ms| - 1]);
      if ms[|ms| - 1].header.Header? then front + [RowOf(ms[|ms| - 1])] else front
  }

  function EntryOfRow(row: CachedMsg): Entry {
    Entry(row.id, row.flags, row.internalDate, row.msgID, row.surrogate,
          MatchKeysFrom(row.msgID, row.xhash, row.surrogate))
  }

  /** Index inputs, in the order of the IDs; an ID without a row is skipped. */
  function InputsFor(ids: seq<string>, cached: map<string, CachedMsg>): seq<Entry> {
    if ids == [] then []
    else
      var front := InputsFor(ids[..|ids| - 1], cached);
      if ids[|ids| - 1] in cached then front + [EntryOfRow(cached[ids[|ids| - 1]])] else front
  }

  function Loaded(s: Slot): map<string, CachedMsg> {
    if s.endpoint.None? then map[] else s.rows
  }

  function ResyncAt(s: Slot): Option<int> {
    if s.endpoint.None? then None else s.endpoint.value.fullResyncAt
  }

  /** A changed validity token, or a scheduled rescan that is due. */
  predicate NeedsReset(s: Slot, validity: string, every: int, now: int) {
    || (s.endpoint.Some? && s.endpoint.value.validity != validity)
    || (every > 0 && (ResyncAt(s).None? || now - ResyncAt(s).value >= every))
  }

  /** The cached rows the pass starts from. */
  function Trusted(s: Slot, validity: string, every: int, now: int): map<string, CachedMsg> {
    if NeedsReset(s, validity, every, now) then map[] else Loaded(s)
  }

  /** A stored row is used exactly if the endpoint row is there and has this token, and no rescan is
      due: there is no interval, or a full rescan was less than the interval ago. */
  lemma LoadedIff(s: Slot, validity: string, every: int, now: int, id: string)
    ensures id in Trusted(s, validity, every, now) <==>
              && s.endpoint.Some? && s.endpoint.value.validity == validity
              && (every <= 0 || (s.endpoint.value.fullResyncAt.Some?
                                 && now - s.endpoint.value.fullResyncAt.value < every))
              && id in s.rows
    ensures id in Trusted(s, validity, every, now) ==> Trusted(s, validity, every, now)[id] == s.rows[id]
  {
  }

  function NewIDs(ids: seq<string>, cached: map<string, CachedMsg>): seq<string> {
    if ids == [] then []
    else
      var front := NewIDs(ids[..|ids| - 1], cached);
      if ids[|ids| - 1] in cached then front else front + [ids[|ids| - 1]]
  }

  /** The new IDs as the source passes them on: a nil slice when there are none. */
  function Wanted(newIDs: seq<string>): Option<seq<string>> {
    if newIDs == [] then None else Some(newIDs)
  }

  function Fetched(s: Slot, served: Served, every: int, now: int): seq<CachedMsg> {
    var newIDs := NewIDs(SortIDs(served.listed), Trusted(s, served.validity, every, now));
    FreshRows(FetchMeta(served, Wanted(newIDs)))
  }

  /** What the index is built from. */
  function PassInputs(s: Slot, served: Served, every: int, now: int): seq<Entry> {
    InputsFor(SortIDs(served.listed),
              Upserted(Trusted(s, served.validity, every, now), Fetched(s, served, every, now)))
  }

  /** Which store writes take effect; a crash makes all later ones fail. */
  datatype Faults = Faults(loadWorks: bool, resetWorks: bool, putWorks: bool, deleteChunks: nat, saveWorks: bool)

  function AfterReset(s: Slot, served: Served, every: int, now: int): Slot {
    if NeedsReset(s, served.validity, every, now) then EMPTY_SLOT else s
  }

  /** The slot after a pass whose writes took effect as told; `gone` are the IDs whose rows were
      really deleted. */
  function AfterPass(s: Slot, served: Served, every: int, now: int, resetAt: int,
                     faults: Faults, gone: seq<string>): Slot
  {
    var reset := NeedsReset(s, served.validity, every, now);
    var s1 := AfterReset(s, served, every, now);
    var rows := if faults.putWorks then Upserted(s1.rows, Fetched(s, served, every, now)) else s1.rows;
    var at := if reset then Some(resetAt) else ResyncAt(s);
    Slot(if faults.saveWorks then Some(EndpointRow(served.validity, at)) else s1.endpoint,
         rows - set id | id in gone)
  }

  // ---------------------------------------------------------------- the pass itself

  method IndexFolderIncremental(store: Store, at: Side, served: Served, every: int,
                                now: int, resetAt: int, faults: Faults)
    returns (ok: bool, idx: Index, ghost gone: seq<string>)
    modifies store
    ensures store.OnlyTouches(at) && fresh(idx)
    ensures var s := old(store.SlotOf(at));
            var reset := NeedsReset(s, served.validity, every, now);
            && (ok <==> faults.loadWorks && (reset ==> faults.resetWorks) && served.listWorks && served.fetchWorks)
            && (forall id :: id in gone ==> id in Trusted(s, served.validity, every, now) && id !in served.listed)
            && (!faults.loadWorks || (reset && !faults.resetWorks) ==> store.SlotOf(at) == s)
            && (faults.loadWorks && (reset ==> faults.resetWorks) && !ok
                ==> store.SlotOf(at) == AfterReset(s, served, every, now))
            && (ok ==> && store.SlotOf(at) == AfterPass(s, served, every, now, resetAt, faults, gone)
                       && idx.Valid() && idx.entries == Retained(PassInputs(s, served, every, now)))
    // if enough delete chunks work, no row that was loaded and is no longer listed stays
    ensures var trusted := Trusted(old(store.SlotOf(at)), served.validity, every, now);
            ok && faults.deleteChunks * 400 >= |set id | id in trusted && id !in served.listed|
            ==> forall id :: id in trusted && id !in served.listed ==> id !in store.SlotOf(at).rows
  {
    gone := [];
    idx := new Index();
    var usable, cached, resyncAt := OpenCache(store, at, served.validity, every, now, resetAt, faults);
    if !usable || !served.listWorks {
      return false, idx, [];
    }
    if !served.fetchWorks {
      return false, idx, [];
    }
    idx, gone := Refresh(store, at, served, cached, resyncAt, faults);
    ok := true;
  }

  /** Fetches what is not cached, brings the cache up to date and builds the index from it. */
  method Refresh(store: Store, at: Side, served: Served, cached: map<string, CachedMsg>, resyncAt: Option<int>,
                 faults: Faults)
    returns (idx: Index, ghost gone: seq<string>)
    modifies store
    ensures store.OnlyTouches(at) && fresh(idx) && idx.Valid()
    ensures forall id :: id in gone ==> id in cached && id !in served.listed
    ensures var lost := set id | id in cached && id !in served.listed;
            faults.deleteChunks * 400 >= |lost| ==> forall id :: id in lost ==> id in gone
    ensures var s := old(store.SlotOf(at));
            var batch := FreshRows(FetchMeta(served, Wanted(NewIDs(SortIDs(served.listed), cached))));
            && idx.entries == Retained(InputsFor(SortIDs(served.listed), Upserted(cached, batch)))
            && store.SlotOf(at)
               == Slot(if faults.saveWorks then Some(EndpointRow(served.validity, resyncAt)) else s.endpoint,
                       (if faults.putWorks then Upserted(s.rows, batch) else s.rows) - set id | id in gone)
  {
    var curIDs := SortIDs(served.listed);
    SortIDsSorts(served.listed);
    var newIDs := FindNew(curIDs, cached);
    var goneIDs := FindGone(curIDs, cached);
    assert (set id | id in cached && id !in curIDs) == set id | id in cached && id !in served.listed;
    var batch, updated := ParseFetched(FetchMeta(served, Wanted(newIDs)), cached);
    gone := WriteBack(store, at, batch, goneIDs, EndpointRow(served.validity, resyncAt), faults);
    var inputs := CollectInputs(curIDs, updated - set id | id in goneIDs);
    InputsIgnoreOthers(curIDs, updated - (set id | id in goneIDs), updated);
    idx := BuildFrom(inputs);
  }

  /** Loads the side's cache, dropping it first when it must not be used. */
  method OpenCache(store: Store, at: Side, validity: string, every: int, now: int, resetAt: int, faults: Faults)
    returns (ok: bool, cached: map<string, CachedMsg>, resyncAt: Option<int>)
    modifies store
    ensures store.OnlyTouches(at)
    ensures var s := old(store.SlotOf(at));
            var reset := NeedsReset(s, validity, every, now);
            && ok == (faults.loadWorks && (reset ==> faults.resetWorks))
            && store.SlotOf(at) == (if reset && ok then EMPTY_SLOT else s)
            && (ok ==> && cached == Trusted(s, validity, every, now)
                       && resyncAt == if reset then Some(resetAt) else ResyncAt(s))
    ensures var s := old(store.SlotOf(at));
            ok ==> forall id :: id in cached <==>
                && s.endpoint.Some? && s.endpoint.value.validity == validity
                && (every <= 0 || (s.endpoint.value.fullResyncAt.Some?
                                   && now - s.endpoint.value.fullResyncAt.value < every))
                && id in s.rows
  {
    var loaded, saved, rows := store.LoadEndpoint(at, faults.loadWorks);
    cached := rows;
    resyncAt := if saved.None? then None else saved.value.fullResyncAt;
    ok := loaded;
    if !ok {
      return;
    }
    if (saved.Some? && saved.value.validity != validity)
       || (every > 0 && (resyncAt.None? || now - resyncAt.value >= every)) {
      ok := store.ResetEndpoint(at, faults.resetWorks);
      cached, resyncAt := map[], Some(resetAt);
    }
  }

  /** The three writes that end a pass; an error is logged and the pass goes on. */
  method WriteBack(store: Store, at: Side, batch: seq<CachedMsg>, goneIDs: seq<string>, row: EndpointRow,
                   faults: Faults)
    returns (ghost gone: seq<string>)
    modifies store
    ensures store.OnlyTouches(at) && gone <= goneIDs
    ensures faults.deleteChunks * 400 >= |goneIDs| ==> gone == goneIDs
    ensures var s := old(store.SlotOf(at));
            var rows := if faults.putWorks then Upserted(s.rows, batch) else s.rows;
            store.SlotOf(at) == Slot(if faults.saveWorks then Some(row) else s.endpoint,
                                     rows - set id | id in gone)
  {
    var _ := store.PutCachedMsgs(at, batch, faults.putWorks);
    gone := [];
    if |goneIDs| > 0 {
      var _, deleted := store.DeleteCachedMsgs(at, goneIDs, faults.deleteChunks);
      gone := deleted;
    }
    var _ := store.SaveEndpoint(at, row.validity, row.fullResyncAt, faults.saveWorks);
  }

  method FindNew(curIDs: seq<string>, cached: map<string, CachedMsg>) returns (newIDs: seq<string>)
    ensures newIDs == NewIDs(curIDs, cached)
  {
    newIDs := [];
    assert curIDs[..0] == [];
    for i := 0 to |curIDs|
      invariant newIDs == NewIDs(curIDs[..i], cached)
    {
      assert curIDs[..i + 1][..i] == curIDs[..i];
      if curIDs[i] !in cached {
        newIDs := newIDs + [curIDs[i]];
      }
    }
    assert curIDs[..|curIDs|] == curIDs;
  }

  /** Parses what was fetched; a message that does not parse is left out. */
  method ParseFetched(fetched: seq<Message>, cached: map<string, CachedMsg>)
    returns (batch: seq<CachedMsg>, updated: map<string, CachedMsg>)
    ensures batch == FreshRows(fetched)
    ensures updated == Upserted(cached, batch)
  {
    batch, updated := [], cached;
    assert fetched[..0] == [];
    for i := 0 to |fetched|
      invariant batch == FreshRows(fetched[..i])
      invariant updated == Upserted(cached, batch)
    {
      assert fetched[..i + 1][..i] == fetched[..i];
      if fetched[i].header.Header? {
        var row := RowOf(fetched[i]);
        assert (batch + [row])[..|batch|] == batch;
        batch, updated := batch + [row], updated[row.id := row];
      }
    }
    assert fetched[..|fetched|] == fetched;
  }

  method CollectInputs(curIDs: seq<string>, cached: map<string, CachedMsg>) returns (inputs: seq<Entry>)
    ensures inputs == InputsFor(curIDs, cached)
  {
    inputs := [];
    assert curIDs[..0] == [];
    for i := 0 to |curIDs|
      invariant inputs == InputsFor(curIDs[..i], cached)
    {
      assert curIDs[..i + 1][..i] == curIDs[..i];
      if curIDs[i] in cached {
        inputs := inputs + [EntryOfRow(cached[curIDs[i]])];
      }
    }
    assert curIDs[..|curIDs|] == curIDs;
  }

  /** The cached IDs that are no longer listed, each once. */
  method FindGone(curIDs: seq<string>, cached: map<string, CachedMsg>) returns (gone: seq<string>)
    ensures forall id :: id in gone <==> id in cached && id !in curIDs
    ensures |gone| == |set id | id in cached && id !in curIDs|
  {
    gone := [];
    var left := cached.Keys;
    ghost var found: set<string> := {};
    while left != {}
      invariant left <= cached.Keys
      invariant |gone| == |found| && found == set id | id in cached && id !in left && id !in curIDs
      invariant forall id :: id in gone <==> id in cached && id !in left && id !in curIDs
    {
      var id :| id in left;
      left := left - {id};
      if id !in curIDs {
        gone, found := gone + [id], found + {id};
      }
    }
    assert found == set id | id in cached && id !in curIDs;
  }

  lemma {:induction false} InputsIgnoreOthers(ids: seq<string>, c: map<string, CachedMsg>, d: map<string, CachedMsg>)
    requires forall id :: id in ids ==> (id in c <==> id in d) && (id in c ==> c[id] == d[id])
    ensures InputsFor(ids, c) == InputsFor(ids, d)
  {
    if ids != [] {
      assert ids[|ids| - 1] in ids;
      InputsIgnoreOthers(ids[..|ids| - 1], c, d);
    }
  }
}
