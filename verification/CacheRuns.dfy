/** Every run of the cache of one side: passes cut off at any point, rows written for copies, and
    forgets. */
module CacheRuns {
  import opened MatchKeys
  import opened Retention
  import opened RunRows
  import opened State
  import opened Incremental
  import opened CacheLaws

  /** When a row was last written, under which validity token, and whether for a copy. */
  datatype Stamp = Stamp(at: int, token: string, copy: bool)

  /** The tables of one side with a stamp for each row; the validity token of the open session, if
      its indexing succeeded; and the clock. */
  datatype Cache = Cache(slot: Slot, stamps: map<string, Stamp>, session: Option<string>, clock: int)

  /** How far a pass gets: no write at all, only the reset, or some of the writes after it. */
  datatype Extent = Untouched | ResetOnly | Written(faults: Faults, gone: seq<string>)

  datatype CacheEvent =
    | Index(served: Served, now: int, resetAt: int, putAt: int, extent: Extent)
    | PutCopies(batch: seq<CachedMsg>, putAt: int)
    | Forget(at: int)

  function Stamped(stamps: map<string, Stamp>, batch: seq<CachedMsg>, stamp: Stamp): map<string, Stamp> {
    if batch == [] then stamps else Stamped(stamps, batch[..|batch| - 1], stamp)[batch[|batch| - 1].id := stamp]
  }

  ghost predicate CacheStep(w: World, every: int, c: Cache, e: CacheEvent, c': Cache) {
    match e
    case Index(served, now, resetAt, putAt, extent) =>
      && Genuine(w, served) && c.clock <= now <= resetAt <= putAt
      && c'.clock == putAt
      && (match extent
          case Untouched => c'.slot == c.slot && c'.stamps == c.stamps && c'.session == None
          case ResetOnly =>
            c'.slot == AfterReset(c.slot, served, every, now) && c'.stamps == c.stamps && c'.session == None
          case Written(faults, gone) =>
            && c'.slot == AfterPass(c.slot, served, every, now, resetAt, faults, gone)
            && c'.stamps == (if faults.putWorks
                             then Stamped(c.stamps, Fetched(c.slot, served, every, now),
                                          Stamp(putAt, served.validity, false))
                             else c.stamps)
            && c'.session == Some(served.validity))
    case PutCopies(batch, putAt) =>
      && c.session.Some? && (forall row :: row in batch ==> IsCopyRow(w, c.session.value, row)) && c.clock <= putAt
      && c' == Cache(c.slot.(rows := Upserted(c.slot.rows, batch)),
                     Stamped(c.stamps, batch, Stamp(putAt, c.session.value, true)), c.session, putAt)
    case Forget(at) =>
      c.clock <= at && c' == Cache(EMPTY_SLOT, c.stamps, None, at)
  }

  ghost predicate StepAt(w: World, every: int, run: seq<Cache>, events: seq<CacheEvent>, i: nat)
    requires i < |events| && |run| == |events| + 1
  {
    CacheStep(w, every, run[i], events[i], run[i + 1])
  }

  ghost predicate IsCacheRun(w: World, every: int, run: seq<Cache>, events: seq<CacheEvent>) {
    && |run| == |events| + 1
    && run[0].slot == EMPTY_SLOT && run[0].session == None
    && forall i :: 0 <= i < |events| ==> StepAt(w, every, run, events, i)
  }

  // ---------------------------------------------------------------- the invariant

  /** A row written since then under its stamp's token: parsed, or that of a copy. */
  ghost predicate GoodRow(w: World, id: string, row: CachedMsg, stamp: Stamp, token: string, since: int, clock: int) {
    && since <= stamp.at <= clock && stamp.token == token && row.id == id
    && if stamp.copy then IsCopyRow(w, token, row) else RowMatches(w, token, id, row)
  }

  ghost predicate GoodRows(w: World, rows: map<string, CachedMsg>, stamps: map<string, Stamp>,
                           token: string, since: int, clock: int)
  {
    forall id :: id in rows ==> id in stamps && GoodRow(w, id, rows[id], stamps[id], token, since, clock)
  }

  ghost predicate CacheInv(w: World, c: Cache) {
    && (c.slot.endpoint.Some? ==>
          && c.slot.endpoint.value.fullResyncAt.Some?
          && c.slot.endpoint.value.fullResyncAt.value <= c.clock
          && GoodRows(w, c.slot.rows, c.stamps, c.slot.endpoint.value.validity,
                      c.slot.endpoint.value.fullResyncAt.value, c.clock))
    && (c.session.Some? && c.slot.endpoint.Some? ==> c.slot.endpoint.value.validity == c.session.value)
  }

  lemma {:induction false} StampedGood(w: World, rows: map<string, CachedMsg>, stamps: map<string, Stamp>,
                                       batch: seq<CachedMsg>, stamp: Stamp, since: int, clock: int)
    requires GoodRows(w, rows, stamps, stamp.token, since, clock) && since <= clock <= stamp.at
    requires forall row :: row in batch ==> GoodRow(w, row.id, row, stamp, stamp.token, since, stamp.at)
    ensures GoodRows(w, Upserted(rows, batch), Stamped(stamps, batch, stamp), stamp.token, since, stamp.at)
  {
    if batch != [] {
      assert batch[|batch| - 1] in batch;
      StampedGood(w, rows, stamps, batch[..|batch| - 1], stamp, since, clock);
    }
  }

  lemma {:induction false} WrittenKeepsInv(w: World, every: int, c: Cache, e: CacheEvent, c': Cache)
    requires every > 0 && CacheInv(w, c) && CacheStep(w, every, c, e, c')
    requires e.Index? && e.extent.Written?
    ensures CacheInv(w, c')
  {
    var Index(served, now, resetAt, putAt, Written(faults, gone)) := e;
    var s1, fetched := AfterReset(c.slot, served, every, now), Fetched(c.slot, served, every, now);
    var since := if NeedsReset(c.slot, served.validity, every, now) then resetAt else ResyncAt(c.slot).value;
    var clock := if NeedsReset(c.slot, served.validity, every, now) then resetAt else c.clock;
    FetchedMatches(w, c.slot, served, every, now);
    var stamp := Stamp(putAt, served.validity, false);
    assert GoodRows(w, s1.rows, c.stamps, served.validity, since, clock);
    StampedGood(w, s1.rows, c.stamps, fetched, stamp, since, clock);
  }

  lemma {:induction false} CacheStepKeepsInv(w: World, every: int, c: Cache, e: CacheEvent, c': Cache)
    requires every > 0 && CacheInv(w, c) && CacheStep(w, every, c, e, c')
    ensures CacheInv(w, c')
  {
    match e
    case Forget(at) =>
    case PutCopies(batch, putAt) =>
      if c.slot.endpoint.Some? {
        var since := c.slot.endpoint.value.fullResyncAt.value;
        StampedGood(w, c.slot.rows, c.stamps, batch, Stamp(putAt, c.session.value, true), since, c.clock);
      }
    case Index(served, now, resetAt, putAt, extent) =>
      if extent.Written? {
        WrittenKeepsInv(w, every, c, e, c');
      }
  }

  lemma {:induction false} CacheRunKeepsInv(w: World, every: int, run: seq<Cache>, events: seq<CacheEvent>, n: nat)
    requires every > 0 && IsCacheRun(w, every, run, events) && n < |run|
    ensures CacheInv(w, run[n])
  {
    if n > 0 {
      CacheRunKeepsInv(w, every, run, events, n - 1);
      assert StepAt(w, every, run, events, n - 1);
      CacheStepKeepsInv(w, every, run[n - 1], events[n - 1], run[n]);
    }
  }

  lemma {:induction false} GoodIsLoose(w: World, c: Cache)
    requires CacheInv(w, c)
    ensures Loose(w, c.slot)
  {
    if c.slot.endpoint.Some? {
      forall id | id in c.slot.rows ensures RowFits(w, c.slot.endpoint.value.validity, id, c.slot.rows[id]) {
        assert GoodRow(w, id, c.slot.rows[id], c.stamps[id], c.slot.endpoint.value.validity,
                       c.slot.endpoint.value.fullResyncAt.value, c.clock);
      }
    }
  }

  // ---------------------------------------------------------------- what every run guarantees

  /** Crash safety and bounded staleness: in every run with a rescan interval, whatever writes fail
      or are cut off and whatever mail is copied, each cached row a pass may use was written under
      the pass's own validity token, less than one interval before the pass checked, and shows
      the message under a non-empty part of its keys; under all of them unless it was written for
      a copy that carries a tag other than its surrogate. */
  lemma {:induction false} UsedRowsAreSound(w: World, every: int, run: seq<Cache>, events: seq<CacheEvent>, n: nat,
                                            id: string)
    requires every > 0 && IsCacheRun(w, every, run, events) && n < |events| && events[n].Index?
    requires id in Trusted(run[n].slot, events[n].served.validity, every, events[n].now)
    ensures var c, served := run[n], events[n].served;
            var row, h := c.slot.rows[id], w(served.validity, id);
            && id in c.stamps && c.stamps[id].token == served.validity && events[n].now - c.stamps[id].at < every
            && h.Header? && EntryOfRow(row).keys != [] && KeySet(EntryOfRow(row).keys) <= KeySet(ScanEntry(id, h).keys)
            && (Identity(EntryOfRow(row)) == ScanEntry(id, h)
                <==> !(c.stamps[id].copy && h.xhash != "" && h.xhash != h.surrogate))
  {
    var c, v := run[n], events[n].served.validity;
    CacheRunKeepsInv(w, every, run, events, n);
    assert GoodRow(w, id, c.slot.rows[id], c.stamps[id], v, c.slot.endpoint.value.fullResyncAt.value, c.clock);
    RowShows(w, v, id, c.slot.rows[id]);
  }

  /** A row the pass relies on that was written for a copy with a tag other than its surrogate. */
  ghost predicate ForeignCopyRow(w: World, every: int, c: Cache, e: CacheEvent, id: string)
    requires e.Index?
  {
    && Relied(c.slot, e.served, every, e.now, id) && id in c.stamps && c.stamps[id].copy
    && var h := w(e.served.validity, id); h.Header? && h.xhash != "" && h.xhash != h.surrogate
  }

  /** In every such run a pass indexes exactly what a full scan of the messages it can see would
      index, if and only if it relies on no row of a copy with another tag. */
  lemma {:induction false} EveryPassRefinesFullIff(w: World, every: int, run: seq<Cache>, events: seq<CacheEvent>,
                                                   n: nat)
    requires every > 0 && IsCacheRun(w, every, run, events) && n < |events| && events[n].Index?
    ensures var c, served, now := run[n], events[n].served, events[n].now;
            Identities(PassInputs(c.slot, served, every, now))
            == FullScan(w, served.validity, SeenIds(c.slot, served, every, now))
            <==> forall id :: !ForeignCopyRow(w, every, c, events[n], id)
  {
    var c, e := run[n], events[n];
    CacheRunKeepsInv(w, every, run, events, n);
    GoodIsLoose(w, c);
    assert StepAt(w, every, run, events, n);
    RefinesFullIff(w, c.slot, e.served, every, e.now);
    forall id | Relied(c.slot, e.served, every, e.now, id)
      ensures Misread(w, e.served.validity, c.slot.rows[id]) <==> ForeignCopyRow(w, every, c, e, id)
    {
      assert GoodRow(w, id, c.slot.rows[id], c.stamps[id], e.served.validity,
                     c.slot.endpoint.value.fullResyncAt.value, c.clock);
    }
  }

  /** Then the index itself is that of the full scan. */
  lemma {:induction false} EveryPassBuildsFullIndex(w: World, every: int, run: seq<Cache>, events: seq<CacheEvent>,
                                                    n: nat)
    requires every > 0 && IsCacheRun(w, every, run, events) && n < |events| && events[n].Index?
    requires forall id :: !ForeignCopyRow(w, every, run[n], events[n], id)
    ensures var c, served, now := run[n], events[n].served, events[n].now;
            Identities(Retained(PassInputs(c.slot, served, every, now)))
            == Retained(FullScan(w, served.validity, SeenIds(c.slot, served, every, now)))
  {
    EveryPassRefinesFullIff(w, every, run, events, n);
    RetainedIdentities(PassInputs(run[n].slot, events[n].served, every, events[n].now));
  }

  // ---------------------------------------------------------------- without a rescan interval

  /** A pass over a folder of one new message. */
  lemma {:induction false} OneFetched(s: Slot, served: Served, every: int, now: int, m: Message)
    requires served.listed == [m.id] && served.stored == [m] && m.header.Header?
    requires m.id !in Trusted(s, served.validity, every, now)
    ensures Fetched(s, served, every, now) == [RowOf(m)]
  {
    var ids, ms := [m.id], [m];
    assert ids[..0] == [] && ms[..0] == [];
    assert SortIDs(ids) == [m.id] by { assert SortIDs([]) == [] && Inserted([], m.id) == [] + [m.id]; }
    assert NewIDs(ids, Trusted(s, served.validity, every, now)) == [m.id];
    assert WithIds(ms, [m.id]) == [m];
    assert FreshRows(ms) == [RowOf(m)];
  }

  lemma {:induction false} OneUpserted(rows: map<string, CachedMsg>, row: CachedMsg)
    ensures Upserted(rows, [row]) == rows[row.id := row]
  {
    assert [row][..0] == [];
  }

  /** Without a rescan interval a row can be used under the wrong token. The first pass ever stores
      the row of message 2 but not the endpoint row; the folder is rebuilt with a new token, and
      the next pass, which sees message 1 only, saves that token over both rows; when the new
      message 2 is listed, with a new message 3, the old row stands for it. */
  lemma {:induction false} AdoptedRowIsWrong(w: World) returns (run: seq<Cache>, events: seq<CacheEvent>)
    requires forall id :: w("v1", id) == Header("old", "", "s") && w("v2", id) == Header("new", "", "t")
    ensures IsCacheRun(w, 0, run, events) && |events| == 3 && events[2].Index?
    ensures var slot, served, now := run[2].slot, events[2].served, events[2].now;
            && served.validity == "v2" && Relied(slot, served, 0, now, "2")
            && slot.rows["2"].msgID == "old" && w("v2", "2").msgID == "new"
  {
    var m2, m1 := Message("2", [], 0, w("v1", "2"), true), Message("1", [], 0, w("v2", "1"), true);
    var p0, p1 := Served("v1", ["2"], [m2], true, true), Served("v2", ["1"], [m1], true, true);
    var n2, n3 := Message("2", [], 0, w("v2", "2"), true), Message("3", [], 0, w("v2", "3"), true);
    var p2 := Served("v2", ["1", "2", "3"], [m1, n2, n3], true, true);
    var c0 := Cache(EMPTY_SLOT, map[], None, 0);
    var e0, c1 := FirstStep(w, c0, p0, m2, Faults(true, true, true, 0, false));
    var e1, c2 := FirstStep(w, c1, p1, m1, Faults(true, true, true, 0, true));
    var e2, c3 := Index(p2, 0, 0, 0, Untouched), c2.(session := None);
    assert CacheStep(w, 0, c2, e2, c3);
    ThreeSteps(w, 0, c0, e0, c1, e1, c2, e2, c3);
    run, events := [c0, c1, c2, c3], [e0, e1, e2];
    OldRowRelied(c2.slot, p2);
  }

  lemma {:induction false} OldRowRelied(slot: Slot, served: Served)
    requires slot.endpoint == Some(EndpointRow(served.validity, None)) && "2" in slot.rows && "3" !in slot.rows
    requires served.listed == ["1", "2", "3"]
    ensures Relied(slot, served, 0, 0, "2")
  {
    assert served.listed[1] == "2" && served.listed[2] == "3";
  }

  lemma {:induction false} ThreeSteps(w: World, every: int, c0: Cache, e0: CacheEvent, c1: Cache, e1: CacheEvent,
                                      c2: Cache, e2: CacheEvent, c3: Cache)
    requires c0.slot == EMPTY_SLOT && c0.session == None
    requires CacheStep(w, every, c0, e0, c1) && CacheStep(w, every, c1, e1, c2) && CacheStep(w, every, c2, e2, c3)
    ensures IsCacheRun(w, every, [c0, c1, c2, c3], [e0, e1, e2])
  {
    var run, events := [c0, c1, c2, c3], [e0, e1, e2];
    assert StepAt(w, every, run, events, 0) && StepAt(w, every, run, events, 1) && StepAt(w, every, run, events, 2);
  }

  /** A pass without a rescan interval on a side that has no endpoint row. */
  lemma {:induction false} FirstStep(w: World, c: Cache, served: Served, m: Message, faults: Faults)
    returns (e: CacheEvent, c': Cache)
    requires c.slot.endpoint.None? && c.clock == 0 && served.listed == [m.id] && served.stored == [m]
    requires m.header == w(served.validity, m.id) && m.header.Header? && faults.putWorks
    ensures CacheStep(w, 0, c, e, c') && c'.clock == 0
    ensures c'.slot == Slot(if faults.saveWorks then Some(EndpointRow(served.validity, None)) else None,
                            c.slot.rows[m.id := RowOf(m)])
  {
    e := Index(served, 0, 0, 0, Written(faults, []));
    OneFetched(c.slot, served, 0, 0, m);
    OneUpserted(c.slot.rows, RowOf(m));
    var slot := AfterPass(c.slot, served, 0, 0, 0, faults, []);
    c' := Cache(slot, Stamped(c.stamps, [RowOf(m)], Stamp(0, served.validity, false)), Some(served.validity), 0);
    assert slot.rows == c.slot.rows[m.id := RowOf(m)];
  }

  // ---------------------------------------------------------------- a row of a copy with another tag

  /** The first pass over an empty folder. */
  lemma {:induction false} EmptyPass(w: World, every: int) returns (e: CacheEvent, c: Cache)
    requires every > 0
    ensures CacheStep(w, every, Cache(EMPTY_SLOT, map[], None, 0), e, c)
    ensures c == Cache(Slot(Some(EndpointRow("v", Some(0))), map[]), map[], Some("v"), 0)
  {
    var served := Served("v", [], [], true, true);
    e := Index(served, 0, 0, 0, Written(Faults(true, true, true, 0, true), []));
    c := Cache(Slot(Some(EndpointRow("v", Some(0))), map[]), map[], Some("v"), 0);
    assert SortIDs([]) == [] && Fetched(EMPTY_SLOT, served, every, 0) == [];
    var none: map<string, CachedMsg> := map[];
    assert none - (set id | id in []) == none;
  }

  /** The incremental index does differ from a full scan in some run. An empty folder is indexed, a
      message with the tag "t" is copied into it under the ID 1, and the next pass finds a new
      message 2, so that 1 is not fetched again. */
  lemma {:induction false} ForeignTagMisread(w: World, every: int) returns (run: seq<Cache>, events: seq<CacheEvent>)
    requires every > 0 && w("v", "1") == Header("m", "t", "s") && w("v", "2") == Header("n", "", "u")
    ensures IsCacheRun(w, every, run, events) && |events| == 3 && events[2].Index?
    ensures ForeignCopyRow(w, every, run[2], events[2], "1")
    ensures var c, served, now := run[2], events[2].served, events[2].now;
            Identities(PassInputs(c.slot, served, every, now))
            != FullScan(w, served.validity, SeenIds(c.slot, served, every, now))
  {
    var row := CachedMsg("1", "m", "s", "s", 0, []);
    var c0 := Cache(EMPTY_SLOT, map[], None, 0);
    var e0, c1 := EmptyPass(w, every);
    var e1, c2 := CopyPut(w, every, c1, row);
    var e2, c3 := TwoListed(w, every, c2);
    ThreeSteps(w, every, c0, e0, c1, e1, c2, e2, c3);
    run, events := [c0, c1, c2, c3], [e0, e1, e2];
    ForeignDiffers(w, every, run, events, 2, "1");
  }

  /** A pass that lists the copy and a new message. */
  lemma {:induction false} TwoListed(w: World, every: int, c: Cache) returns (e: CacheEvent, c': Cache)
    requires every > 0 && w("v", "1") == Header("m", "t", "s") && w("v", "2") == Header("n", "", "u")
    requires c.slot.endpoint == Some(EndpointRow("v", Some(0))) && c.slot.rows.Keys == {"1"} && c.clock == 0
    requires "1" in c.stamps && c.stamps["1"].copy
    ensures e.Index? && CacheStep(w, every, c, e, c') && ForeignCopyRow(w, every, c, e, "1")
  {
    var m1, m2 := Message("1", [], 0, w("v", "1"), true), Message("2", [], 0, w("v", "2"), false);
    var served := Served("v", ["1", "2"], [m1, m2], true, true);
    e, c' := Index(served, 0, 0, 0, Untouched), c.(session := None);
    assert served.listed[0] == "1" && served.listed[1] == "2" && "1"[0] != "2"[0];
    assert "2" in served.listed && "2" !in Trusted(c.slot, "v", every, 0);
  }

  lemma {:induction false} ForeignDiffers(w: World, every: int, run: seq<Cache>, events: seq<CacheEvent>, n: nat,
                                          id: string)
    requires every > 0 && IsCacheRun(w, every, run, events) && n < |events| && events[n].Index?
    requires ForeignCopyRow(w, every, run[n], events[n], id)
    ensures var c, served, now := run[n], events[n].served, events[n].now;
            Identities(PassInputs(c.slot, served, every, now))
            != FullScan(w, served.validity, SeenIds(c.slot, served, every, now))
  {
    EveryPassRefinesFullIff(w, every, run, events, n);
  }

  lemma {:induction false} CopyPut(w: World, every: int, c: Cache, row: CachedMsg) returns (e: CacheEvent, c': Cache)
    requires c == Cache(Slot(Some(EndpointRow("v", Some(0))), map[]), map[], Some("v"), 0) && IsCopyRow(w, "v", row)
    ensures CacheStep(w, every, c, e, c')
    ensures c'.slot == c.slot.(rows := map[row.id := row]) && c'.clock == 0
    ensures row.id in c'.stamps && c'.stamps[row.id].copy
  {
    e := PutCopies([row], 0);
    OneUpserted(map[], row);
    c' := Cache(c.slot.(rows := Upserted(map[], [row])), Stamped(map[], [row], Stamp(0, "v", true)), Some("v"), 0);
    assert [row][..0] == [];
    assert Stamped(map[], [row], Stamp(0, "v", true)) == map[row.id := Stamp(0, "v", true)];
  }
}
