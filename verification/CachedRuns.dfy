/** Whole passes over the cache: each is a step of the runs of SyncRuns, and the cache it leaves is
    fit for the next one. */
module CachedRuns {
  import opened MatchKeys
  import opened Retention
  import opened State
  import opened Incremental
  import opened CacheLaws
  import opened SyncRuns
  import opened Copying
  import opened Copies
  import opened SyncPass
  import opened CachedViews

  // ---------------------------------------------------------------- one pass

  lemma {:induction false} EntriesUnique(msgs: seq<Message>)
    requires UniqueMsgs(msgs)
    ensures UniqueIds(Entries(msgs))
  {
    if msgs != [] {
      var n := |msgs| - 1;
      EntriesUnique(msgs[..n]);
      if msgs[n].header.Header? {
        forall e | e in Entries(msgs[..n]) ensures e.id != msgs[n].id {
          var x := EntryFrom(msgs[..n], e);
          var i :| 0 <= i < n && msgs[i] == x;
        }
        UniqueSnoc(Entries(msgs[..n]), EntryOf(msgs[n]));
      }
    }
  }

  lemma {:induction false} UniqueParts(s: seq<Entry>, t: seq<Entry>)
    requires UniqueIds(s + t)
    ensures UniqueIds(s) && UniqueIds(t) && Ids(s) !! Ids(t)
  {
    assert forall i :: 0 <= i < |s| ==> (s + t)[i] == s[i];
    assert forall i :: 0 <= i < |t| ==> (s + t)[|s| + i] == t[i];
    forall x, y | x in s && y in t ensures x.id != y.id {
      var i :| 0 <= i < |s| && s[i] == x;
      var j :| 0 <= j < |t| && t[j] == y;
    }
  }

  /** The new messages of a folder in which no ID occurs twice have fresh IDs. */
  lemma {:induction false} FreshIds(old': seq<Message>, now: seq<Message>)
    requires old' <= now && UniqueMsgs(now)
    ensures UniqueMsgs(old') && UniqueIds(Entries(old'))
    ensures UniqueIds(Entries(now[|old'|..])) && Ids(Entries(now[|old'|..])) !! Ids(Entries(old'))
  {
    var more := now[|old'|..];
    assert now == old' + more;
    EntriesUnique(now);
    EntriesConcat(old', more);
    UniqueParts(Entries(old'), Entries(more));
    assert forall i :: 0 <= i < |old'| ==> now[i] == old'[i];
  }

  /** The cache rows of a direction are copy rows of messages that arrived. */
  lemma {:induction false} RowsOfCopies(w: World, validity: string, src: seq<Message>, more: seq<Message>,
                                        copied: set<string>, list: seq<Entry>, other: seq<Entry>, plan: Plan,
                                        stop: nat, cache: seq<CachedMsg>)
    requires UniqueMsgs(src) && Lists(list, Entries(src), copied, Mode.Rows)
    requires var delta := Delta(list, other);
             var eff := Effective(src + more, delta, plan);
             cache == Picked(CopyRows(delta, eff), Reported(|delta|, eff, stop))
    requires forall m :: m in Arrived(src + more, Delta(list, other), plan, stop) ==> m.header == w(validity, m.id)
    ensures forall row :: row in cache ==>
              && IsCopyRow(w, validity, row)
              && row.id in Ids(Entries(Arrived(src + more, Delta(list, other), plan, stop)))
  {
    var delta := Delta(list, other);
    var eff := Effective(src + more, delta, plan);
    var arrived := Arrived(src + more, delta, plan, stop);
    DeltaFacts(list, other);
    forall row | row in cache ensures IsCopyRow(w, validity, row) && row.id in Ids(Entries(arrived)) {
      var j := PickedMember(CopyRows(delta, eff), Reported(|delta|, eff, stop), row);
      var e, o := delta[j], eff(j);
      assert e in delta && e in list && e.id in Ids(list);
      var m :| m in Entries(src) && m.id == e.id;
      EntriesRead(src, more, m);
      assert IsView(e, m, e.id in copied, Mode.Rows);
      PickedHas(CopiesOf(src + more, delta, eff), Flags(src + more, delta, plan, stop), j);
      var c := CopyOf(src + more, e, o);
      assert c in arrived;
      WrittenRowIff(w, validity, src + more, e, o);
      EntryListed(arrived, c);
    }
  }

  /** What one side brings to a cached pass: the folder as the endpoint serves it, and a cache that
      misreads only logged copies. */
  ghost predicate Fit(w: World, s: Slot, r: SideRun, log: set<string>, every: int) {
    && Logged(w, r.served.validity, s, log) && Genuine(w, r.served) && Stable(r.served)
    && (every > 0 || s.endpoint.Some? || s.rows == map[])
  }

  /** The folder a pass leaves: what it was and more, each message under an ID of its own that the
      endpoint will go on serving. */
  ghost predicate GrewInto(w: World, validity: string, old': seq<Message>, now: seq<Message>) {
    && old' <= now && UniqueMsgs(now) && forall m :: m in now ==> m.header == w(validity, m.id)
  }

  lemma {:induction false} FitLists(w: World, s: Slot, r: SideRun, log: set<string>, every: int)
    requires Fit(w, s, r, log, every)
    ensures Lists(Inputs(s, r, every, true), Entries(r.served.stored), log, Mode.Rows)
  {
    LoggedMeans(w, s, r.served, every, r.now, log);
    StableHolds(w, s, r.served, every, r.now);
    CachedListing(w, s, r.served, every, r.now, Entries(r.served.stored), log);
  }

  /** Both directions of a cached pass, as SyncPair reports them. */
  ghost predicate Passed(sA: Slot, sB: Slot, ra: SideRun, rb: SideRun, every: int, stopB: nat, stopA: nat,
                         a': seq<Message>, b': seq<Message>, cacheB: seq<CachedMsg>, cacheA: seq<CachedMsg>)
  {
    var inA, inB := Inputs(sA, ra, every, true), Inputs(sB, rb, every, true);
    var dB, dA := Delta(inA, inB), Delta(inB, inA);
    exists allowB, allowA, copiedB, copiedA ::
      && Sent(ra.served.stored, rb.served.stored, b', dB, rb.plan, rb.cancelledFrom, allowB, stopB, copiedB, cacheB,
              true)
      && Sent(b', ra.served.stored, a', dA, ra.plan, ra.cancelledFrom, allowA, stopA, copiedA, cacheA, true)
  }

  lemma {:induction false} PassedLeaves(sA: Slot, sB: Slot, ra: SideRun, rb: SideRun, every: int, stopB: nat,
                                        stopA: nat, a': seq<Message>, b': seq<Message>, cacheB: seq<CachedMsg>,
                                        cacheA: seq<CachedMsg>)
    requires Passed(sA, sB, ra, rb, every, stopB, stopA, a', b', cacheB, cacheA)
    ensures var inA, inB := Inputs(sA, ra, every, true), Inputs(sB, rb, every, true);
            var dB, dA := Delta(inA, inB), Delta(inB, inA);
            var effB, effA := Effective(ra.served.stored, dB, rb.plan), Effective(b', dA, ra.plan);
            && Leaves(ra.served.stored, rb.served.stored, inA, inB, rb.plan, stopB, ra.plan, stopA, a', b')
            && cacheB == Picked(CopyRows(dB, effB), Reported(|dB|, effB, stopB))
            && cacheA == Picked(CopyRows(dA, effA), Reported(|dA|, effA, stopA))
  {
  }

  /** The rows a pass writes are copy rows of the copies that arrived. */
  lemma {:induction false} PassedRows(wA: World, wB: World, sA: Slot, sB: Slot, ra: SideRun, rb: SideRun,
                                      logA: set<string>, logB: set<string>, every: int, stopB: nat, stopA: nat,
                                      a': seq<Message>, b': seq<Message>, cacheB: seq<CachedMsg>,
                                      cacheA: seq<CachedMsg>)
    requires Fit(wA, sA, ra, logA, every) && Fit(wB, sB, rb, logB, every)
    requires Passed(sA, sB, ra, rb, every, stopB, stopA, a', b', cacheB, cacheA)
    requires GrewInto(wA, ra.served.validity, ra.served.stored, a')
    requires GrewInto(wB, rb.served.validity, rb.served.stored, b')
    ensures var toB, toA := Ids(Entries(b'[|rb.served.stored|..])), Ids(Entries(a'[|ra.served.stored|..]));
            && (forall row :: row in cacheB ==> IsCopyRow(wB, rb.served.validity, row) && row.id in toB)
            && (forall row :: row in cacheA ==> IsCopyRow(wA, ra.served.validity, row) && row.id in toA)
  {
    var a, b := ra.served.stored, rb.served.stored;
    var inA, inB := Inputs(sA, ra, every, true), Inputs(sB, rb, every, true);
    PassedLeaves(sA, sB, ra, rb, every, stopB, stopA, a', b', cacheB, cacheA);
    FitLists(wA, sA, ra, logA, every);
    FitLists(wB, sB, rb, logB, every);
    var mB, mA := Arrived(a, Delta(inA, inB), rb.plan, stopB), Arrived(b', Delta(inB, inA), ra.plan, stopA);
    assert b'[|b|..] == mB && a'[|a|..] == mA && a + [] == a;
    RowsOfCopies(wB, rb.served.validity, a, [], logA, inA, inB, rb.plan, stopB, cacheB);
    RowsOfCopies(wA, ra.served.validity, b, mB, logB, inB, inA, ra.plan, stopA, cacheA);
  }

  lemma {:induction false} PassedStep(s: System, wA: World, wB: World, sA: Slot, sB: Slot, ra: SideRun, rb: SideRun,
                                      every: int, stopB: nat, stopA: nat, a': seq<Message>, b': seq<Message>,
                                      cacheB: seq<CachedMsg>, cacheA: seq<CachedMsg>)
    returns (e: Event, s': System)
    requires Inv(s, Mode.Rows) && s.a == Entries(ra.served.stored) && s.b == Entries(rb.served.stored)
    requires Fit(wA, sA, ra, s.toA.Keys, every) && Fit(wB, sB, rb, s.toB.Keys, every)
    requires Passed(sA, sB, ra, rb, every, stopB, stopA, a', b', cacheB, cacheA)
    requires GrewInto(wA, ra.served.validity, ra.served.stored, a')
    requires GrewInto(wB, rb.served.validity, rb.served.stored, b')
    ensures e.Pass? && Step(s, e, s', Mode.Rows) && s'.deliveries == s.deliveries
    ensures s'.a == Entries(a') && s'.b == Entries(b')
    ensures s'.toB.Keys == s.toB.Keys + Ids(Entries(b'[|rb.served.stored|..]))
    ensures s'.toA.Keys == s.toA.Keys + Ids(Entries(a'[|ra.served.stored|..]))
  {
    var a, b := ra.served.stored, rb.served.stored;
    PassedLeaves(sA, sB, ra, rb, every, stopB, stopA, a', b', cacheB, cacheA);
    FitLists(wA, sA, ra, s.toA.Keys, every);
    FitLists(wB, sB, rb, s.toB.Keys, every);
    FreshIds(a, a');
    FreshIds(b, b');
    e, s' := PassIsStep(s, a, b, Inputs(sA, ra, every, true), Inputs(sB, rb, every, true), rb.plan, stopB,
                        ra.plan, stopA, a', b', Mode.Rows);
  }

  /** A cached pass is a step of the runs in the Rows mode, with the folders it leaves as the next
      state, and the caches it leaves misread only logged copies again. */
  lemma {:induction false} CachedPassIsStep(s: System, wA: World, wB: World, sA: Slot, sB: Slot, ra: SideRun,
                                            rb: SideRun, every: int, stopB: nat, stopA: nat, a': seq<Message>,
                                            b': seq<Message>, cacheB: seq<CachedMsg>, cacheA: seq<CachedMsg>,
                                            goneB: seq<string>, goneA: seq<string>)
    returns (e: Event, s': System)
    requires Inv(s, Mode.Rows) && s.a == Entries(ra.served.stored) && s.b == Entries(rb.served.stored)
    requires Fit(wA, sA, ra, s.toA.Keys, every) && Fit(wB, sB, rb, s.toB.Keys, every)
    requires Passed(sA, sB, ra, rb, every, stopB, stopA, a', b', cacheB, cacheA)
    requires GrewInto(wA, ra.served.validity, ra.served.stored, a')
    requires GrewInto(wB, rb.served.validity, rb.served.stored, b')
    ensures e.Pass? && Step(s, e, s', Mode.Rows) && s'.deliveries == s.deliveries
    ensures s'.a == Entries(a') && s'.b == Entries(b')
    ensures Logged(wA, ra.served.validity, Finished(sA, ra, every, true, goneA, cacheA), s'.toA.Keys)
    ensures Logged(wB, rb.served.validity, Finished(sB, rb, every, true, goneB, cacheB), s'.toB.Keys)
  {
    e, s' := PassedStep(s, wA, wB, sA, sB, ra, rb, every, stopB, stopA, a', b', cacheB, cacheA);
    PassedRows(wA, wB, sA, sB, ra, rb, s.toA.Keys, s.toB.Keys, every, stopB, stopA, a', b', cacheB, cacheA);
    FinishedLogged(wB, sB, rb, every, goneB, s.toB.Keys, s'.toB.Keys, cacheB);
    FinishedLogged(wA, sA, ra, every, goneA, s.toA.Keys, s'.toA.Keys, cacheA);
  }

  // ---------------------------------------------------------------- every run

  /** One side as it is known to the endpoint: what each ID says, under its one validity token. */
  datatype Place = Place(w: World, validity: string)

  /** Both folders, both caches, and how many readable messages have arrived. */
  datatype Joint = Joint(a: seq<Message>, b: seq<Message>, slotA: Slot, slotB: Slot, arrived: nat)

  datatype JointEvent =
    | ArriveA(m: Message)
    | ArriveB(m: Message)
    | Cycle(ra: SideRun, rb: SideRun, stopB: nat, stopA: nat, cacheB: seq<CachedMsg>, cacheA: seq<CachedMsg>,
            goneB: seq<string>, goneA: seq<string>)
    | CutOff(servedA: Served, servedB: Served, slotA: Slot, slotB: Slot)

  ghost predicate IsNew(p: Place, msgs: seq<Message>, m: Message) {
    m.header == p.w(p.validity, m.id) && forall x :: x in msgs ==> x.id != m.id
  }

  /** What a pass that is cut off before it copies, or a forget, leaves of a cache. */
  ghost predicate MayBecome(p: Place, s: Slot, served: Served, every: int, s': Slot) {
    || s' == s || s' == EMPTY_SLOT
    || (Genuine(p.w, served) && served.validity == p.validity
        && exists now, resetAt, faults, gone :: s' == AfterPass(s, served, every, now, resetAt, faults, gone))
  }

  /** A side takes part in a pass with the folder as it is, listed while nothing changes. */
  ghost predicate TakesPart(p: Place, msgs: seq<Message>, r: SideRun, msgs': seq<Message>) {
    && r.served.stored == msgs && r.served.validity == p.validity && Stable(r.served)
    && GrewInto(p.w, p.validity, msgs, msgs')
  }

  ghost predicate JointStep(pA: Place, pB: Place, every: int, j: Joint, e: JointEvent, j': Joint) {
    match e
    case ArriveA(m) =>
      IsNew(pA, j.a, m) && j' == j.(a := j.a + [m], arrived := j.arrived + if m.header.Header? then 1 else 0)
    case ArriveB(m) =>
      IsNew(pB, j.b, m) && j' == j.(b := j.b + [m], arrived := j.arrived + if m.header.Header? then 1 else 0)
    case Cycle(ra, rb, stopB, stopA, cacheB, cacheA, goneB, goneA) =>
      && TakesPart(pA, j.a, ra, j'.a) && TakesPart(pB, j.b, rb, j'.b)
      && Passed(j.slotA, j.slotB, ra, rb, every, stopB, stopA, j'.a, j'.b, cacheB, cacheA)
      && j'.slotA == Finished(j.slotA, ra, every, true, goneA, cacheA)
      && j'.slotB == Finished(j.slotB, rb, every, true, goneB, cacheB)
      && j'.arrived == j.arrived
    case CutOff(servedA, servedB, slotA, slotB) =>
      && MayBecome(pA, j.slotA, servedA, every, slotA) && MayBecome(pB, j.slotB, servedB, every, slotB)
      && j' == j.(slotA := slotA, slotB := slotB)
  }

  ghost predicate JointStepAt(pA: Place, pB: Place, every: int, run: seq<Joint>, events: seq<JointEvent>, i: nat)
    requires i < |events| && |run| == |events| + 1
  {
    JointStep(pA, pB, every, run[i], events[i], run[i + 1])
  }

  ghost predicate IsJointRun(pA: Place, pB: Place, every: int, run: seq<Joint>, events: seq<JointEvent>) {
    && |run| == |events| + 1 && run[0] == Joint([], [], EMPTY_SLOT, EMPTY_SLOT, 0)
    && forall i :: 0 <= i < |events| ==> JointStepAt(pA, pB, every, run, events, i)
  }

  /** The message carries no tag, or its surrogate as the tag. */
  predicate SafeMessage(m: Message) {
    m.header.Header? ==> m.header.xhash == "" || m.header.xhash == m.header.surrogate
  }

  ghost predicate SafeEvent(e: JointEvent) {
    e.ArriveA? || e.ArriveB? ==> SafeMessage(e.m)
  }

  /** The state of the abstract run that the folders and caches are in. */
  ghost predicate Tracks(pA: Place, pB: Place, j: Joint, s: System) {
    && s.a == Entries(j.a) && s.b == Entries(j.b) && s.deliveries == j.arrived
    && TracksSide(pA, j.a, j.slotA, s.toA.Keys) && TracksSide(pB, j.b, j.slotB, s.toB.Keys)
  }

  ghost predicate TracksSide(p: Place, msgs: seq<Message>, slot: Slot, log: set<string>) {
    && UniqueMsgs(msgs) && (forall m :: m in msgs ==> m.header == p.w(p.validity, m.id))
    && Logged(p.w, p.validity, slot, log)
  }

  ghost predicate Tracked(pA: Place, pB: Place, j: Joint, safe: bool) {
    exists s :: Reached(s, Mode.Rows, safe) && Tracks(pA, pB, j, s)
  }

  /** One arrival on one side. */
  lemma {:induction false} ArrivalTracks(p: Place, msgs: seq<Message>, slot: Slot, log: set<string>, m: Message)
    requires TracksSide(p, msgs, slot, log) && IsNew(p, msgs, m)
    ensures TracksSide(p, msgs + [m], slot, log)
    ensures Entries(msgs + [m]) == if m.header.Header? then Entries(msgs) + [EntryOf(m)] else Entries(msgs)
    ensures m.id !in Ids(Entries(msgs))
  {
    assert (msgs + [m])[..|msgs|] == msgs;
    forall e | e in Entries(msgs) ensures e.id != m.id {
      var x := EntryFrom(msgs, e);
    }
  }

  lemma {:induction false} SafeEntry(m: Message)
    requires m.header.Header?
    ensures EntryOf(m).keys != [] && (SafeMessage(m) ==> Safe(EntryOf(m), Mode.Rows))
  {
    CopyRowKeysIff(m.header.msgID, m.header.xhash, m.header.surrogate);
  }

  lemma {:induction false} ArriveATracked(pA: Place, pB: Place, j: Joint, m: Message, j': Joint, safe: bool, every: int)
    requires Tracked(pA, pB, j, safe) && JointStep(pA, pB, every, j, ArriveA(m), j') && (safe ==> SafeMessage(m))
    ensures Tracked(pA, pB, j', safe)
  {
    var s :| Reached(s, Mode.Rows, safe) && Tracks(pA, pB, j, s);
    ArrivalTracks(pA, j.a, j.slotA, s.toA.Keys, m);
    if m.header.Header? {
      SafeEntry(m);
      var s' := s.(a := s.a + [EntryOf(m)], deliveries := s.deliveries + 1);
      ReachedNext(s, DeliverA(EntryOf(m)), s', Mode.Rows, safe);
      assert Tracks(pA, pB, j', s');
    } else {
      assert Tracks(pA, pB, j', s);
    }
  }

  lemma {:induction false} ArriveBTracked(pA: Place, pB: Place, j: Joint, m: Message, j': Joint, safe: bool, every: int)
    requires Tracked(pA, pB, j, safe) && JointStep(pA, pB, every, j, ArriveB(m), j') && (safe ==> SafeMessage(m))
    ensures Tracked(pA, pB, j', safe)
  {
    var s :| Reached(s, Mode.Rows, safe) && Tracks(pA, pB, j, s);
    ArrivalTracks(pB, j.b, j.slotB, s.toB.Keys, m);
    if m.header.Header? {
      SafeEntry(m);
      var s' := s.(b := s.b + [EntryOf(m)], deliveries := s.deliveries + 1);
      ReachedNext(s, DeliverB(EntryOf(m)), s', Mode.Rows, safe);
      assert Tracks(pA, pB, j', s');
    } else {
      assert Tracks(pA, pB, j', s);
    }
  }

  lemma {:induction false} CutOffTracked(p: Place, s: Slot, served: Served, every: int, s': Slot, log: set<string>)
    requires every > 0 && Logged(p.w, p.validity, s, log) && MayBecome(p, s, served, every, s')
    ensures Logged(p.w, p.validity, s', log)
  {
    if s' != s && s' != EMPTY_SLOT {
      var now, resetAt, faults, gone :| s' == AfterPass(s, served, every, now, resetAt, faults, gone);
      IndexedLogged(p.w, s, served, every, now, resetAt, faults, gone, log);
    }
  }

  lemma {:induction false} CycleTracked(pA: Place, pB: Place, every: int, j: Joint, e: JointEvent, j': Joint,
                                        safe: bool)
    requires every > 0 && Tracked(pA, pB, j, safe) && e.Cycle? && JointStep(pA, pB, every, j, e, j')
    ensures Tracked(pA, pB, j', safe)
  {
    var s :| Reached(s, Mode.Rows, safe) && Tracks(pA, pB, j, s);
    var Cycle(ra, rb, stopB, stopA, cacheB, cacheA, goneB, goneA) := e;
    ReachedKeepsInv(s, Mode.Rows, safe);
    var step, s' := CachedPassIsStep(s, pA.w, pB.w, j.slotA, j.slotB, ra, rb, every, stopB, stopA, j'.a, j'.b,
                                     cacheB, cacheA, goneB, goneA);
    ReachedNext(s, step, s', Mode.Rows, safe);
    assert Tracks(pA, pB, j', s');
  }

  lemma {:induction false} JointStepTracked(pA: Place, pB: Place, every: int, j: Joint, e: JointEvent, j': Joint,
                                            safe: bool)
    requires every > 0 && Tracked(pA, pB, j, safe) && JointStep(pA, pB, every, j, e, j') && (safe ==> SafeEvent(e))
    ensures Tracked(pA, pB, j', safe)
  {
    match e
    case ArriveA(m) => ArriveATracked(pA, pB, j, m, j', safe, every);
    case ArriveB(m) => ArriveBTracked(pA, pB, j, m, j', safe, every);
    case Cycle(_, _, _, _, _, _, _, _) => CycleTracked(pA, pB, every, j, e, j', safe);
    case CutOff(servedA, servedB, slotA, slotB) =>
      var s :| Reached(s, Mode.Rows, safe) && Tracks(pA, pB, j, s);
      CutOffTracked(pA, j.slotA, servedA, every, slotA, s.toA.Keys);
      CutOffTracked(pB, j.slotB, servedB, every, slotB, s.toB.Keys);
      assert Tracks(pA, pB, j', s);
  }

  lemma {:induction false} StartTracked(pA: Place, pB: Place, safe: bool)
    ensures Tracked(pA, pB, Joint([], [], EMPTY_SLOT, EMPTY_SLOT, 0), safe)
  {
    var run, events: seq<Event> := [EMPTY], [];
    assert IsRun(run, events, Mode.Rows) && run[|events|] == EMPTY && SafeMail(events, Mode.Rows);
    assert Reached(EMPTY, Mode.Rows, safe);
    assert Tracks(pA, pB, Joint([], [], EMPTY_SLOT, EMPTY_SLOT, 0), EMPTY);
  }

  /** Every run of mail arriving on both sides, cached passes in which anything may fail, passes cut
      off and forgets is a run of SyncRuns in the Rows mode. */
  lemma {:induction false} CachedRunIsRun(pA: Place, pB: Place, every: int, run: seq<Joint>, events: seq<JointEvent>,
                                          safe: bool, n: nat)
    requires every > 0 && IsJointRun(pA, pB, every, run, events) && n < |run|
    requires safe ==> forall i :: 0 <= i < |events| ==> SafeEvent(events[i])
    ensures Tracked(pA, pB, run[n], safe)
  {
    if n == 0 {
      StartTracked(pA, pB, safe);
    } else {
      CachedRunIsRun(pA, pB, every, run, events, safe, n - 1);
      assert JointStepAt(pA, pB, every, run, events, n - 1);
      JointStepTracked(pA, pB, every, run[n - 1], events[n - 1], run[n], safe);
    }
  }

  /** So with the cache, too, mail without a tag of its own is copied at most once and its copies are
      never sent back: the two folders never hold more than two messages per arrival. */
  lemma {:induction false} CachedRunCopiesOnce(pA: Place, pB: Place, every: int, run: seq<Joint>,
                                               events: seq<JointEvent>, n: nat)
    requires every > 0 && IsJointRun(pA, pB, every, run, events) && n < |run|
    requires forall i :: 0 <= i < |events| ==> SafeEvent(events[i])
    ensures |Entries(run[n].a)| + |Entries(run[n].b)| <= 2 * run[n].arrived
  {
    CachedRunIsRun(pA, pB, every, run, events, true, n);
    var s :| Reached(s, Mode.Rows, true) && Tracks(pA, pB, run[n], s);
    ReachedKeepsInv(s, Mode.Rows, true);
  }
}
