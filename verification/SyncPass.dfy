/** One pass over one folder pair (syncPair in internal/syncer/syncer.go). */
module SyncPass {
  import opened MatchKeys
  import opened Retention
  import opened DedupIndex
  import opened RunRows
  import opened State
  import opened Incremental
  import opened SyncRuns
  import opened Copying
  import opened Copies

  // ---------------------------------------------------------------- indexing a side

  /** What a side of the pair meets in a pass: its place in the store, whether its folder can be
      selected, what its endpoint serves, the clock, failing store writes, and what becomes of the
      messages appended to it. */
  datatype SideRun = SideRun(at: Side, selects: bool, served: Served, now: int, resetAt: int, faults: Faults,
                             plan: Plan, cancelledFrom: nat, allowed: bool, putWorks: bool)

  /** The index inputs of a side. */
  function Inputs(s: Slot, r: SideRun, every: int, incremental: bool): seq<Entry> {
    if incremental then PassInputs(s, r.served, every, r.now) else Entries(r.served.stored)
  }

  predicate Indexes(s: Slot, r: SideRun, every: int, incremental: bool) {
    r.served.fetchWorks
    && (incremental ==>
          && r.faults.loadWorks && r.served.listWorks
          && (NeedsReset(s, r.served.validity, every, r.now) ==> r.faults.resetWorks))
  }

  /** The cache of the side after indexing. */
  function Indexed(s: Slot, r: SideRun, every: int, incremental: bool, gone: seq<string>): Slot {
    if incremental then AfterPass(s, r.served, every, r.now, r.resetAt, r.faults, gone) else s
  }

  /** The cache of a side that cannot be indexed: a reset that took place is all that happened. */
  function Failed(s: Slot, r: SideRun, every: int, incremental: bool): Slot {
    var reset := NeedsReset(s, r.served.validity, every, r.now);
    if incremental && r.faults.loadWorks && reset && r.faults.resetWorks then EMPTY_SLOT else s
  }

  /** Fetches and parses every message of the folder. */
  method IndexFolderFull(served: Served) returns (ok: bool, idx: Index, errors: nat)
    ensures ok == served.fetchWorks && fresh(idx)
    ensures ok ==> idx.Valid() && idx.entries == Retained(Entries(served.stored))
    ensures ok ==> errors + |Entries(served.stored)| == |served.stored|
  {
    ok, errors := served.fetchWorks, 0;
    idx := new Index();
    if !ok {
      return;
    }
    var msgs := FetchMeta(served, None);
    var inputs: seq<Entry> := [];
    assert msgs[..0] == [];
    for i := 0 to |msgs|
      invariant inputs == Entries(msgs[..i]) && errors + |inputs| == i
    {
      assert msgs[..i + 1][..i] == msgs[..i];
      if msgs[i].header.Header? {
        inputs := inputs + [EntryOf(msgs[i])];
      } else {
        errors := errors + 1;
      }
    }
    assert msgs[..|msgs|] == msgs;
    idx := BuildFrom(inputs);
  }

  method IndexFolder(store: Store, r: SideRun, every: int, incremental: bool)
    returns (ok: bool, idx: Index, ghost gone: seq<string>)
    modifies store
    ensures store.OnlyTouches(r.at) && fresh(idx)
    ensures ok == Indexes(old(store.SlotOf(r.at)), r, every, incremental)
    ensures ok ==> idx.Valid() && idx.entries == Retained(Inputs(old(store.SlotOf(r.at)), r, every, incremental))
    ensures var s := old(store.SlotOf(r.at));
            store.SlotOf(r.at)
            == if ok then Indexed(s, r, every, incremental, gone) else Failed(s, r, every, incremental)
  {
    if incremental {
      ok, idx, gone := IndexFolderIncremental(store, r.at, r.served, every, r.now, r.resetAt, r.faults);
    } else {
      var errors;
      ok, idx, errors := IndexFolderFull(r.served);
      gone := [];
    }
  }

  // ---------------------------------------------------------------- the pass

  /** The cache of a side after the pass: indexed, and with the rows of its copies. */
  function Finished(s: Slot, r: SideRun, every: int, incremental: bool, gone: seq<string>, cache: seq<CachedMsg>)
      : Slot {
    var t := Indexed(s, r, every, incremental, gone);
    if incremental && r.putWorks then t.(rows := Upserted(t.rows, cache)) else t
  }

  /** In the cached mode the table ends with the last row reported for an ID, if the write works, and
      otherwise with what indexing left; without the cache nothing is written. */
  lemma {:induction false} CopyRowsArePut(s: Slot, r: SideRun, every: int, incremental: bool, gone: seq<string>,
                                          cache: seq<CachedMsg>, id: string, last: int)
    requires -1 <= last < |cache| && (last >= 0 ==> cache[last].id == id)
    requires forall i :: last < i < |cache| ==> cache[i].id != id
    ensures var after := Finished(s, r, every, incremental, gone, cache);
            && (!incremental ==> after == s)
            && (incremental && r.putWorks && last >= 0 ==> id in after.rows && after.rows[id] == cache[last])
            && (incremental && (!r.putWorks || last < 0) ==>
                  var indexed := AfterPass(s, r.served, every, r.now, r.resetAt, r.faults, gone).rows;
                  (id in after.rows <==> id in indexed) && (id in indexed ==> after.rows[id] == indexed[id]))
  {
    UpsertedIs(Indexed(s, r, every, incremental, gone).rows, cache, id, last);
  }

  /** Synchronizes the pair both ways. Nothing is appended if a side cannot be selected or indexed.
      Both deltas are taken before anything is appended, a side gains exactly what arrives of its
      delta before the stop, and the store gains the rows of what was confirmed. Every retained
      message counts once: skipped, or due on the other side. After a full scan, what the next one
      finds to do is exactly the rest of each delta, in order, and what each side gained carries over
      the dates and flags of messages of the other side. */
  method SyncPair(store: Store, a: Mailbox, b: Mailbox, ra: SideRun, rb: SideRun, every: int, incremental: bool)
    returns (ok: bool, skipped: nat, copiedAB: nat, copiedBA: nat, ghost stopB: nat, ghost stopA: nat,
             ghost cacheB: seq<CachedMsg>, ghost cacheA: seq<CachedMsg>, ghost goneB: seq<string>,
             ghost goneA: seq<string>)
    requires a != b && ra.at != rb.at && ra.served.stored == a.msgs && rb.served.stored == b.msgs
    modifies store, a, b
    ensures ok == (ra.selects && rb.selects && Indexes(old(store.SlotOf(ra.at)), ra, every, incremental)
                   && Indexes(old(store.SlotOf(rb.at)), rb, every, incremental))
    ensures ok ==> ra.selects && rb.selects
    ensures !ok ==> a.msgs == old(a.msgs) && b.msgs == old(b.msgs)
    // a side that is read-only, or whose direction is not configured, gains nothing
    ensures b.readOnly || !rb.allowed ==> b.msgs == old(b.msgs) && copiedAB == 0
    ensures a.readOnly || !ra.allowed ==> a.msgs == old(a.msgs) && copiedBA == 0
    ensures !ok ==>
              var sA, sB := old(store.SlotOf(ra.at)), old(store.SlotOf(rb.at));
              if !ra.selects || !rb.selects then store.SlotOf(ra.at) == sA && store.SlotOf(rb.at) == sB
              else if !Indexes(sA, ra, every, incremental)
              then store.SlotOf(ra.at) == Failed(sA, ra, every, incremental) && store.SlotOf(rb.at) == sB
              else && store.SlotOf(ra.at) == Indexed(sA, ra, every, incremental, goneA)
                   && store.SlotOf(rb.at) == Failed(sB, rb, every, incremental)
    ensures forall at :: at != ra.at && at != rb.at ==> store.SlotOf(at) == old(store.SlotOf(at))
    ensures ok ==>
              var inA := Inputs(old(store.SlotOf(ra.at)), ra, every, incremental);
              var inB := Inputs(old(store.SlotOf(rb.at)), rb, every, incremental);
              var dB, dA := Delta(inA, inB), Delta(inB, inA);
              && Sent(old(a.msgs), old(b.msgs), b.msgs, dB, rb.plan, rb.cancelledFrom, rb.allowed && !b.readOnly,
                      stopB, copiedAB, cacheB, incremental)
              && Sent(b.msgs, old(a.msgs), a.msgs, dA, ra.plan, ra.cancelledFrom, ra.allowed && !a.readOnly,
                      stopA, copiedBA, cacheA, incremental)
              && store.SlotOf(rb.at) == Finished(old(store.SlotOf(rb.at)), rb, every, incremental, goneB, cacheB)
              && store.SlotOf(ra.at) == Finished(old(store.SlotOf(ra.at)), ra, every, incremental, goneA, cacheA)
              && skipped + |dB| + |dA| == |Retained(inA)| + |Retained(inB)|
    ensures ok && !incremental && UniqueMsgs(old(a.msgs)) && UniqueMsgs(old(b.msgs)) ==>
              && Delta(Entries(a.msgs), Entries(b.msgs))
                 == Residue(Delta(Entries(old(a.msgs)), Entries(old(b.msgs))),
                            Flags(old(a.msgs), Delta(Entries(old(a.msgs)), Entries(old(b.msgs))), rb.plan, stopB))
              && Delta(Entries(b.msgs), Entries(a.msgs))
                 == Residue(Delta(Entries(old(b.msgs)), Entries(old(a.msgs))),
                            Flags(b.msgs, Delta(Entries(old(b.msgs)), Entries(old(a.msgs))), ra.plan, stopA))
    ensures ok && !incremental && UniqueMsgs(old(a.msgs)) && UniqueMsgs(old(b.msgs)) ==>
              && Gains(old(b.msgs), b.msgs, old(a.msgs)) && Gains(old(a.msgs), a.msgs, old(b.msgs))
  {
    skipped, copiedAB, copiedBA, stopB, stopA, cacheB, cacheA := 0, 0, 0, 0, 0, [], [];
    if !ra.selects || !rb.selects {
      ok, goneB, goneA := false, [], [];
      return;
    }
    var idxA, idxB;
    ok, idxA, idxB, goneB, goneA := IndexBoth(store, ra, rb, every, incremental);
    if !ok {
      return;
    }
    var missingOnB, missingOnA := Deltas(idxA, idxB);
    skipped := Skipped(idxA, idxB, missingOnB, missingOnA);
    var rowsB, rowsA;
    copiedAB, copiedBA, rowsB, rowsA, stopB, stopA := CopyBoth(a, b, missingOnB, missingOnA, ra, rb, incremental);
    cacheB, cacheA := rowsB, rowsA;
    if incremental {
      PutRows(store, ra, rb, rowsB, rowsA);
    } else if UniqueMsgs(old(a.msgs)) && UniqueMsgs(old(b.msgs)) {
      FullResidue(old(a.msgs), old(b.msgs), a.msgs, b.msgs, rb.plan, stopB, ra.plan, stopA);
      FullGains(old(a.msgs), old(b.msgs), a.msgs, b.msgs, rb.plan, stopB, ra.plan, stopA);
    }
  }

  method Skipped(a: Index, b: Index, missingOnB: seq<Entry>, missingOnA: seq<Entry>) returns (skipped: nat)
    requires missingOnB == Lacking(a.entries, AllKeys(b.entries))
    requires missingOnA == Lacking(b.entries, AllKeys(a.entries))
    ensures skipped + |missingOnB| + |missingOnA| == |a.entries| + |b.entries|
  {
    LackingSize(a.entries, AllKeys(b.entries));
    LackingSize(b.entries, AllKeys(a.entries));
    skipped := (|a.entries| - |missingOnB|) + (|b.entries| - |missingOnA|);
  }

  method CopyBoth(a: Mailbox, b: Mailbox, missingOnB: seq<Entry>, missingOnA: seq<Entry>, ra: SideRun, rb: SideRun,
                  incremental: bool)
    returns (copiedAB: nat, copiedBA: nat, rowsB: seq<CachedMsg>, rowsA: seq<CachedMsg>, ghost stopB: nat,
             ghost stopA: nat)
    requires a != b
    modifies a, b
    ensures Sent(old(a.msgs), old(b.msgs), b.msgs, missingOnB, rb.plan, rb.cancelledFrom, rb.allowed && !b.readOnly,
                 stopB, copiedAB, rowsB, incremental)
    ensures Sent(b.msgs, old(a.msgs), a.msgs, missingOnA, ra.plan, ra.cancelledFrom, ra.allowed && !a.readOnly,
                 stopA, copiedBA, rowsA, incremental)
    ensures b.readOnly || !rb.allowed ==> b.msgs == old(b.msgs) && copiedAB == 0
    ensures a.readOnly || !ra.allowed ==> a.msgs == old(a.msgs) && copiedBA == 0
  {
    copiedAB, rowsB, stopB := Direction(a, b, missingOnB, rb.plan, rb.cancelledFrom, incremental,
                                        rb.allowed && !b.readOnly);
    copiedBA, rowsA, stopA := Direction(b, a, missingOnA, ra.plan, ra.cancelledFrom, incremental,
                                        ra.allowed && !a.readOnly);
  }

  method IndexBoth(store: Store, ra: SideRun, rb: SideRun, every: int, incremental: bool)
    returns (ok: bool, idxA: Index, idxB: Index, ghost goneB: seq<string>, ghost goneA: seq<string>)
    requires ra.at != rb.at
    modifies store
    ensures ok == (Indexes(old(store.SlotOf(ra.at)), ra, every, incremental)
                   && Indexes(old(store.SlotOf(rb.at)), rb, every, incremental))
    ensures forall at :: at != ra.at && at != rb.at ==> store.SlotOf(at) == old(store.SlotOf(at))
    ensures !ok ==>
              var sA, sB := old(store.SlotOf(ra.at)), old(store.SlotOf(rb.at));
              if !Indexes(sA, ra, every, incremental)
              then store.SlotOf(ra.at) == Failed(sA, ra, every, incremental) && store.SlotOf(rb.at) == sB
              else && store.SlotOf(ra.at) == Indexed(sA, ra, every, incremental, goneA)
                   && store.SlotOf(rb.at) == Failed(sB, rb, every, incremental)
    ensures fresh(idxA) && fresh(idxB)
    ensures ok ==> && idxA.Valid() && idxA.entries == Retained(Inputs(old(store.SlotOf(ra.at)), ra, every, incremental))
                   && idxB.Valid() && idxB.entries == Retained(Inputs(old(store.SlotOf(rb.at)), rb, every, incremental))
                   && store.SlotOf(ra.at) == Indexed(old(store.SlotOf(ra.at)), ra, every, incremental, goneA)
                   && store.SlotOf(rb.at) == Indexed(old(store.SlotOf(rb.at)), rb, every, incremental, goneB)
  {
    ok, idxA, goneA := IndexFolder(store, ra, every, incremental);
    idxB, goneB := idxA, [];
    if ok {
      ok, idxB, goneB := IndexFolder(store, rb, every, incremental);
    }
  }

  method PutRows(store: Store, ra: SideRun, rb: SideRun, rowsB: seq<CachedMsg>, rowsA: seq<CachedMsg>)
    requires ra.at != rb.at
    modifies store
    ensures forall at :: at != ra.at && at != rb.at ==> store.SlotOf(at) == old(store.SlotOf(at))
    ensures var s := old(store.SlotOf(rb.at));
            store.SlotOf(rb.at) == if rb.putWorks then s.(rows := Upserted(s.rows, rowsB)) else s
    ensures var s := old(store.SlotOf(ra.at));
            store.SlotOf(ra.at) == if ra.putWorks then s.(rows := Upserted(s.rows, rowsA)) else s
  {
    var _ := store.PutCachedMsgs(rb.at, rowsB, rb.putWorks);
    var _ := store.PutCachedMsgs(ra.at, rowsA, ra.putWorks);
  }

  lemma {:induction false} DeltaReads(msgs: seq<Message>, other: seq<Entry>, more: seq<Message>)
    requires UniqueMsgs(msgs)
    ensures forall e :: e in Delta(Entries(msgs), other) ==> Reads(msgs + more, e) && e.keys != []
  {
    DeltaFacts(Entries(msgs), other);
    forall e | e in Delta(Entries(msgs), other) ensures Reads(msgs + more, e) && e.keys != [] {
      EntriesRead(msgs, more, e);
    }
  }

  lemma {:induction false} FullResidue(a: seq<Message>, b: seq<Message>, a': seq<Message>, b': seq<Message>,
                                       planB: Plan, stopB: nat, planA: Plan, stopA: nat)
    requires UniqueMsgs(a) && UniqueMsgs(b)
    requires b' == b + Arrived(a, Delta(Entries(a), Entries(b)), planB, stopB)
    requires a' == a + Arrived(b', Delta(Entries(b), Entries(a)), planA, stopA)
    ensures Delta(Entries(a'), Entries(b'))
            == Residue(Delta(Entries(a), Entries(b)), Flags(a, Delta(Entries(a), Entries(b)), planB, stopB))
    ensures Delta(Entries(b'), Entries(a'))
            == Residue(Delta(Entries(b), Entries(a)), Flags(b', Delta(Entries(b), Entries(a)), planA, stopA))
  {
    var eA, eB := Entries(a), Entries(b);
    var dB, dA := Delta(eA, eB), Delta(eB, eA);
    var toB, toA := Arrived(a, dB, planB, stopB), Arrived(b', dA, planA, stopA);
    DeltaReads(a, eB, []);
    assert a + [] == a;
    DeltaReads(b, eA, toB);
    ArrivedParts(a, dB, planB, stopB);
    ArrivedParts(b', dA, planA, stopA);
    EntriesConcat(b, toB);
    EntriesConcat(a, toA);
    var okB, okA := Flags(a, dB, planB, stopB), Flags(b', dA, planA, stopA);
    var addedB := AppendedGrows(eB, Entries(toB), Picked(dB, okB));
    var addedA := AppendedGrows(eA, Entries(toA), Picked(dA, okA));
    ExactResidue(eA, eB, okB, okA, Entries(a'), Entries(b'), addedA, addedB);
  }

  lemma {:induction false} FullGains(a: seq<Message>, b: seq<Message>, a': seq<Message>, b': seq<Message>,
                                     planB: Plan, stopB: nat, planA: Plan, stopA: nat)
    requires UniqueMsgs(a) && UniqueMsgs(b)
    requires b' == b + Arrived(a, Delta(Entries(a), Entries(b)), planB, stopB)
    requires a' == a + Arrived(b', Delta(Entries(b), Entries(a)), planA, stopA)
    ensures Gains(b, b', a) && Gains(a, a', b)
  {
    var sentB := Arrived(a, Delta(Entries(a), Entries(b)), planB, stopB);
    var sentA := Arrived(b', Delta(Entries(b), Entries(a)), planA, stopA);
    assert a + [] == a;
    FullPassCarries(a, [], Entries(b), planB, stopB);
    FullPassCarries(b, sentB, Entries(a), planA, stopA);
    assert b'[|b|..] == sentB && a'[|a|..] == sentA;
  }

  lemma {:induction false} LackingSize(s: seq<Entry>, known: set<string>)
    ensures |Lacking(s, known)| <= |s|
  {
    if s != [] {
      LackingSize(s[..|s| - 1], known);
    }
  }

  /** Convergence: after a full pass in both directions in which everything arrives, neither side
      owes the other anything. */
  lemma {:induction false} ErrorFreePassConverges(a: seq<Message>, b: seq<Message>, a': seq<Message>, b': seq<Message>,
                                                  planB: Plan, planA: Plan)
    requires UniqueMsgs(a) && UniqueMsgs(b)
    requires var dB, dA := Delta(Entries(a), Entries(b)), Delta(Entries(b), Entries(a));
             && b' == b + Arrived(a, dB, planB, |dB|) && a' == a + Arrived(b', dA, planA, |dA|)
             && (forall i :: 0 <= i < |dB| ==> Stored(planB(i))) && (forall i :: 0 <= i < |dA| ==> Stored(planA(i)))
    ensures Delta(Entries(a'), Entries(b')) == [] && Delta(Entries(b'), Entries(a')) == []
  {
    var dB, dA := Delta(Entries(a), Entries(b)), Delta(Entries(b), Entries(a));
    FullResidue(a, b, a', b', planB, |dB|, planA, |dA|);
    DeltaReads(a, Entries(b), []);
    assert a + [] == a;
    DeltaReads(b, Entries(a), Arrived(a, dB, planB, |dB|));
    AllArrivedNothingLeft(a, dB, planB);
    AllArrivedNothingLeft(b', dA, planA);
  }

  lemma {:induction false} AllArrivedNothingLeft(src: seq<Message>, delta: seq<Entry>, plan: Plan)
    requires forall e :: e in delta ==> Reads(src, e)
    requires forall i :: 0 <= i < |delta| ==> Stored(plan(i))
    ensures Residue(delta, Flags(src, delta, plan, |delta|)) == []
  {
    var ok := Negated(Flags(src, delta, plan, |delta|));
    forall i | 0 <= i < |delta| ensures !ok[i] {
      assert delta[i] in delta;
    }
    PickedNoMore(delta, ok, 0);
    assert delta[..0] == [] && ok[..0] == [];
  }

  // ---------------------------------------------------------------- the pass as a step of a run

  /** The log with the copies added. */
  function LogAll(log: map<string, string>, copies: seq<Entry>, picked: seq<Entry>): map<string, string>
    requires |copies| == |picked|
  {
    if copies == [] then log
    else
      var n := |copies| - 1;
      LogAll(log, copies[..n], picked[..n])[copies[n].id := picked[n].id]
  }

  lemma {:induction false} LogAllLogs(log: map<string, string>, copies: seq<Entry>, picked: seq<Entry>)
    requires |copies| == |picked| && UniqueIds(copies) && Ids(copies) !! log.Keys
    ensures Logs(log, LogAll(log, copies, picked), copies, picked)
  {
    if copies == [] {
      assert Ids(copies) == {};
    } else {
      var n := |copies| - 1;
      assert copies == copies[..n] + [copies[n]] && picked == picked[..n] + [picked[n]];
      LastIsNew(copies);
      IdsSnoc(copies[..n], copies[n]);
      LogAllLogs(log, copies[..n], picked[..n]);
      OneMoreLogged(log, LogAll(log, copies[..n], picked[..n]), copies[..n], picked[..n], copies[n], picked[n]);
    }
  }

  lemma {:induction false} OneMoreLogged(log: map<string, string>, log': map<string, string>, copies: seq<Entry>,
                                         picked: seq<Entry>, c: Entry, p: Entry)
    requires |copies| == |picked| && Logs(log, log', copies, picked) && c.id !in Ids(copies) && c.id !in log
    ensures Logs(log, log'[c.id := p.id], copies + [c], picked + [p])
  {
    IdsSnoc(copies, c);
    forall i | 0 <= i < |copies| ensures copies[i].id != c.id {
      assert copies[i] in copies;
    }
  }

  /** The real message behind a listed one: opening its ID gives it. */
  lemma {:induction false} RealShows(msgs: seq<Message>, more: seq<Message>, m: Entry, c: Entry, mode: Mode)
    requires UniqueMsgs(msgs) && m in Entries(msgs) && ShowsSource(c, msgs + more, m.id)
    requires mode.Full? ==> NoneHidden(msgs)
    ensures IsCopy(c, m, mode)
  {
    EntriesRead(msgs, more, m);
    var x := EntryFrom(msgs, m);
    TaggedOfMember(msgs, more, x);
    HeaderOfMember(msgs, x);
    HeaderOfMore(msgs, more, m.id);
    assert c.keys[0] in KeySet(c.keys);
  }

  /** HasHeader finds every tag that is not the surrogate, as it does in messages with CRLF lines. */
  predicate NoneHidden(msgs: seq<Message>) {
    forall m :: m in msgs ==> !Hides(m.header, m.tagged)
  }

  /** One direction: what arrives of the delta of two listings are copies of the real messages. */
  lemma {:induction false} DirectionSends(src: seq<Message>, more: seq<Message>, dst: seq<Entry>, copied: set<string>,
                                          listSrc: seq<Entry>, listDst: seq<Entry>, plan: Plan, stop: nat, mode: Mode)
    requires UniqueMsgs(src) && Lists(listSrc, Entries(src), copied, mode) && (mode.Full? ==> NoneHidden(src))
    requires var sent := Entries(Arrived(src + more, Delta(listSrc, listDst), plan, stop));
             UniqueIds(sent) && Ids(sent) !! Ids(dst)
    ensures var delta := Delta(listSrc, listDst);
            Sends(Entries(src), dst, Picked(delta, Flags(src + more, delta, plan, stop)),
                  Entries(Arrived(src + more, delta, plan, stop)), mode)
  {
    var delta := Delta(listSrc, listDst);
    var picked := Picked(delta, Flags(src + more, delta, plan, stop));
    DeltaFacts(listSrc, listDst);
    forall e | e in delta ensures HeaderOf(src + more, e.id).Header? {
      assert e in listSrc && e.id in Ids(listSrc);
      var m :| m in Entries(src) && m.id == e.id;
      EntriesRead(src, more, m);
    }
    ArrivedEntries(src + more, delta, plan, stop);
    var sent := Entries(Arrived(src + more, delta, plan, stop));
    forall i, m | 0 <= i < |sent| && m in Entries(src) && m.id == picked[i].id ensures IsCopy(sent[i], m, mode) {
      RealShows(src, more, m, sent[i], mode);
    }
  }

  /** What a pass of SyncPair leaves in the folders, given what it listed. */
  ghost predicate Leaves(a: seq<Message>, b: seq<Message>, listA: seq<Entry>, listB: seq<Entry>,
                         planB: Plan, stopB: nat, planA: Plan, stopA: nat, a': seq<Message>, b': seq<Message>)
  {
    && b' == b + Arrived(a, Delta(listA, listB), planB, stopB)
    && a' == a + Arrived(b', Delta(listB, listA), planA, stopA)
  }

  /** A pass of SyncPair is a step of the runs of SyncRuns: if both listings show the folders, as a
      full scan does and CachedViews proves of the cache, and the endpoints hand out fresh IDs,
      then the folders it leaves are those of the next state. */
  lemma {:induction false} PassIsStep(s: System, a: seq<Message>, b: seq<Message>, listA: seq<Entry>, listB: seq<Entry>,
                                      planB: Plan, stopB: nat, planA: Plan, stopA: nat,
                                      a': seq<Message>, b': seq<Message>, mode: Mode)
    returns (e: SyncRuns.Event, s': System)
    requires Inv(s, mode) && s.a == Entries(a) && s.b == Entries(b) && UniqueMsgs(a) && UniqueMsgs(b)
    requires mode.Full? ==> NoneHidden(a) && NoneHidden(b)
    requires Lists(listA, s.a, s.toA.Keys, mode) && Lists(listB, s.b, s.toB.Keys, mode)
    requires Leaves(a, b, listA, listB, planB, stopB, planA, stopA, a', b')
    requires var toB, toA := Entries(b'[|b|..]), Entries(a'[|a|..]);
             UniqueIds(toB) && Ids(toB) !! Ids(s.b) && UniqueIds(toA) && Ids(toA) !! Ids(s.a)
    ensures Step(s, e, s', mode) && s'.a == Entries(a') && s'.b == Entries(b') && s'.deliveries == s.deliveries
    ensures e.Pass? && s'.toB.Keys == s.toB.Keys + Ids(Entries(b'[|b|..]))
    ensures s'.toA.Keys == s.toA.Keys + Ids(Entries(a'[|a|..]))
  {
    var dB, dA := Delta(listA, listB), Delta(listB, listA);
    var mB, mA := Arrived(a, dB, planB, stopB), Arrived(b', dA, planA, stopA);
    var toB, toA := Entries(mB), Entries(mA);
    var okB, okA := Flags(a, dB, planB, stopB), Flags(b', dA, planA, stopA);
    assert b'[|b|..] == mB && a'[|a|..] == mA && a + [] == a;
    DirectionSends(a, [], s.b, s.toA.Keys, listA, listB, planB, stopB, mode);
    DirectionSends(b, mB, s.a, s.toB.Keys, listB, listA, planA, stopA, mode);
    LogAllLogs(s.toB, toB, Picked(dB, okB));
    LogAllLogs(s.toA, toA, Picked(dA, okA));
    EntriesConcat(a, mA);
    EntriesConcat(b, mB);
    e := Pass(listA, listB, okB, okA, toB, toA);
    s' := System(s.a + toA, s.b + toB, LogAll(s.toB, toB, Picked(dB, okB)), LogAll(s.toA, toA, Picked(dA, okA)),
                 s.deliveries, s.appends + |toB| + |toA|);
    assert Copied(s, Picked(dB, okB), Picked(dA, okA), toB, toA, s', mode);
  }

  /** A full scan lists the folder as it is. */
  lemma {:induction false} ScanLists(msgs: seq<Message>, copies: set<string>, mode: Mode)
    requires UniqueIds(Entries(msgs))
    ensures Lists(Entries(msgs), Entries(msgs), copies, mode)
  {
    forall e, m | e in Entries(msgs) && m in Entries(msgs) && e.id == m.id ensures IsView(e, m, e.id in copies, mode) {
      SameId(Entries(msgs), e, m);
      var x := EntryFrom(msgs, m);
      CopyRowKeysIff(x.header.msgID, x.header.xhash, x.header.surrogate);
      assert m.keys[0] in KeySet(m.keys);
    }
  }
}
