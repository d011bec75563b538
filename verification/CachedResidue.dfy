/** What a cached pass leaves to do: exactly the rest of each delta, although the copies that arrived
    are listed anywhere among the old messages, in the order of their IDs. */
module CachedResidue {
  import opened MatchKeys
  import opened Retention
  import opened State
  import opened Incremental
  import opened CacheLaws
  import opened SyncRuns
  import opened Copying
  import opened Copies
  import opened SyncPass
  import opened CachedViews
  import opened CachedRuns

  // ---------------------------------------------------------------- one order per set of IDs

  lemma {:induction false} StrLeBoth(s: string, t: string)
    requires StrLe(s, t) && StrLe(t, s)
    ensures s == t
  {
    if s != [] && t != [] {
      StrLeBoth(s[1..], t[1..]);
      assert s == [s[0]] + s[1..] && t == [t[0]] + t[1..];
    }
  }

  /** Distinct IDs have one sorted order. */
  lemma {:induction false} OneSortedOrder(s: seq<string>, t: seq<string>)
    requires SortedIDs(s) && SortedIDs(t) && Distinct(s) && Distinct(t) && SameIDs(s, t)
    ensures s == t
  {
    if t != [] {
      HasMember(t, s);
    }
    if s != [] {
      HasMember(s, t);
      SameLast(s, t);
      FrontsSame(s, t);
      OneSortedOrder(s[..|s| - 1], t[..|t| - 1]);
      assert s == s[..|s| - 1] + [s[|s| - 1]] && t == t[..|t| - 1] + [t[|t| - 1]];
    }
  }

  predicate AllIn(s: seq<string>, t: seq<string>) {
    forall id :: id in s ==> id in t
  }

  predicate SameIDs(s: seq<string>, t: seq<string>) {
    AllIn(s, t) && AllIn(t, s)
  }

  lemma HasMember(s: seq<string>, t: seq<string>)
    requires AllIn(s, t) && s != []
    ensures t != []
  {
    assert s[0] in t;
  }

  lemma {:induction false} SameLast(s: seq<string>, t: seq<string>)
    requires SortedIDs(s) && SortedIDs(t) && SameIDs(s, t) && s != [] && t != []
    ensures s[|s| - 1] == t[|t| - 1]
  {
    assert s[|s| - 1] in t && t[|t| - 1] in s;
    LastIsGreatest(s, t[|t| - 1]);
    LastIsGreatest(t, s[|s| - 1]);
    StrLeBoth(s[|s| - 1], t[|t| - 1]);
  }

  lemma {:induction false} FrontsSame(s: seq<string>, t: seq<string>)
    requires Distinct(s) && Distinct(t) && SameIDs(s, t) && s != [] && t != [] && s[|s| - 1] == t[|t| - 1]
    ensures SameIDs(s[..|s| - 1], t[..|t| - 1])
  {
    FrontIn(s, t);
    FrontIn(t, s);
  }

  lemma {:induction false} FrontIn(s: seq<string>, t: seq<string>)
    requires Distinct(s) && AllIn(s, t) && s != [] && t != [] && s[|s| - 1] == t[|t| - 1]
    ensures AllIn(s[..|s| - 1], t[..|t| - 1])
  {
    var front := s[..|s| - 1];
    forall id | id in front ensures id in t[..|t| - 1] {
      var i :| 0 <= i < |s| - 1 && s[i] == id;
      assert id in t;
      var j :| 0 <= j < |t| && t[j] == id;
      assert j < |t| - 1;
    }
  }

  lemma {:induction false} LastIsGreatest(s: seq<string>, id: string)
    requires SortedIDs(s) && id in s
    ensures StrLe(id, s[|s| - 1])
  {
    var i :| 0 <= i < |s| && s[i] == id;
    if i == |s| - 1 {
      StrLeTotal(id, id);
    }
  }

  lemma {:induction false} KeptSorted(ids: seq<string>, keep: set<string>)
    requires SortedIDs(ids) && Distinct(ids)
    ensures SortedIDs(KeepIds(ids, keep)) && Distinct(KeepIds(ids, keep))
  {
    if ids != [] {
      var n := |ids| - 1;
      KeptSorted(ids[..n], keep);
      KeepIdsOf(ids[..n], keep);
      var front := KeepIds(ids[..n], keep);
      forall i | 0 <= i < |front| ensures StrLe(front[i], ids[n]) && front[i] != ids[n] {
        assert front[i] in front;
        var k :| 0 <= k < n && ids[k] == front[i];
      }
    }
  }

  /** The sorted IDs of a folder that has grown, without the new ones, are those it had. */
  lemma {:induction false} OldIdsStay(old': seq<string>, now: seq<string>)
    requires Distinct(old') && Distinct(now) && forall id :: id in old' ==> id in now
    ensures KeepIds(SortIDs(now), IdSet(old')) == SortIDs(old')
  {
    SortIDsSorts(old');
    SortIDsSorts(now);
    SortedDistinct(old');
    SortedDistinct(now);
    KeptSorted(SortIDs(now), IdSet(old'));
    KeepIdsOf(SortIDs(now), IdSet(old'));
    OneSortedOrder(KeepIds(SortIDs(now), IdSet(old')), SortIDs(old'));
  }

  function IdSet(ids: seq<string>): set<string> {
    set id | id in ids
  }

  // ---------------------------------------------------------------- one side, listed again

  /** Which of the listed messages are new. */
  function NewOnes(list: seq<Entry>, old': set<string>): seq<bool> {
    seq(|list|, i requires 0 <= i < |list| => list[i].id !in old')
  }

  /** The rows of the old IDs show their messages as they are. */
  ghost predicate OldRowsRight(w: World, validity: string, ids: seq<string>, cached: map<string, CachedMsg>,
                               old': set<string>) {
    && (forall id :: id in ids ==> (id in cached <==> w(validity, id).Header?))
    && (forall id :: id in ids && id in cached ==> RowFits(w, validity, id, cached[id]))
    && (forall id :: id in ids && id in cached && id in old' ==> !Misread(w, validity, cached[id]))
  }

  /** Without the new messages the listing is a scan of the old ones. */
  lemma {:induction false} OldAreScanned(w: World, validity: string, ids: seq<string>, cached: map<string, CachedMsg>,
                                         old': set<string>)
    requires OldRowsRight(w, validity, ids, cached, old')
    ensures var list := Identities(InputsFor(ids, cached));
            Residue(list, NewOnes(list, old')) == FullScan(w, validity, KeepIds(ids, old'))
  {
    var list := Identities(InputsFor(ids, cached));
    if ids == [] {
      assert list == [] && NewOnes(list, old') == [];
    } else {
      var n := |ids| - 1;
      var id, front := ids[n], Identities(InputsFor(ids[..n], cached));
      assert ids == ids[..n] + [id];
      OldAreScanned(w, validity, ids[..n], cached, old');
      if id in cached {
        RowShows(w, validity, id, cached[id]);
        IdentitiesSnoc(InputsFor(ids[..n], cached), EntryOfRow(cached[id]));
        LastOne(front, Identity(EntryOfRow(cached[id])), old');
      }
    }
  }

  lemma {:induction false} LastOne(front: seq<Entry>, e: Entry, old': set<string>)
    ensures var list := front + [e];
            && Residue(list, NewOnes(list, old'))
               == Residue(front, NewOnes(front, old')) + (if e.id in old' then [e] else [])
            && Picked(list, NewOnes(list, old'))
               == Picked(front, NewOnes(front, old')) + (if e.id in old' then [] else [e])
  {
    var list := front + [e];
    assert list[..|front|] == front && NewOnes(list, old')[..|front|] == NewOnes(front, old');
    ResidueLast(list, NewOnes(list, old'));
  }

  /** The new messages of a listing. */
  lemma {:induction false} NewAreThose(list: seq<Entry>, old': set<string>)
    ensures var added := Picked(list, NewOnes(list, old'));
            && (forall e :: e in added <==> e in list && e.id !in old') && (UniqueIds(list) ==> UniqueIds(added))
  {
    if list == [] {
      assert NewOnes(list, old') == [];
    } else {
      var n := |list| - 1;
      var front, e := list[..n], list[n];
      assert list == front + [e];
      NewAreThose(front, old');
      LastOne(front, e, old');
      if UniqueIds(list) && e.id !in old' {
        LastIsNew(list);
        UniqueSnoc(Picked(front, NewOnes(front, old')), e);
      }
    }
  }

  /** What stands for sent messages, found by the IDs of their copies. */
  lemma {:induction false} PairsById(added: seq<Entry>, copies: seq<Entry>, sent: seq<Entry>)
    requires UniqueIds(added) && UniqueIds(copies) && Ids(added) == Ids(copies) && |copies| == |sent|
    requires forall i, k :: 0 <= i < |added| && 0 <= k < |copies| && added[i].id == copies[k].id
               ==> PartOf(added[i], sent[k])
    ensures exists at :: Pairs(added, sent, at)
  {
    IdsSize(added);
    IdsSize(copies);
    forall i | 0 <= i < |added| ensures added[i].id in Ids(copies) {
      assert added[i] in added && added[i].id in Ids(added);
    }
    var at := seq(|added|, i requires 0 <= i < |added| => IndexOf(copies, added[i].id));
    forall k | 0 <= k < |sent| ensures Hit(at, k) {
      assert copies[k] in copies && copies[k].id in Ids(added);
      var e :| e in added && e.id == copies[k].id;
      var i :| 0 <= i < |added| && added[i] == e;
      SameIndex(copies, at[i], k);
    }
    forall i, j | 0 <= i < j < |at| ensures at[i] != at[j] {
      assert added[i].id != added[j].id;
    }
    assert Pairs(added, sent, at);
  }

  function IndexOf(s: seq<Entry>, id: string): (i: nat)
    requires id in Ids(s)
    ensures i < |s| && s[i].id == id
  {
    var n := |s| - 1;
    assert s == s[..n] + [s[n]];
    if s[n].id == id then n else IndexOf(s[..n], id)
  }

  lemma SameIndex(s: seq<Entry>, i: nat, j: nat)
    requires UniqueIds(s) && i < |s| && j < |s| && s[i].id == s[j].id
    ensures i == j
  {
    assert i < j || j < i || i == j;
  }

  // ---------------------------------------------------------------- identities

  lemma {:induction false} IdentitiesAt(s: seq<Entry>)
    ensures |Identities(s)| == |s| && forall i :: 0 <= i < |s| ==> Identities(s)[i] == Identity(s[i])
  {
    if s != [] {
      IdentitiesAt(s[..|s| - 1]);
    }
  }

  lemma {:induction false} DeltaIdentities(s: seq<Entry>, t: seq<Entry>)
    ensures Delta(Identities(s), Identities(t)) == Identities(Delta(s, t))
  {
    RetainedIdentities(s);
    RetainedIdentities(t);
    LackingIdentities(Retained(s), AllKeys(Retained(t)));
  }

  lemma {:induction false} PickedIdentities(s: seq<Entry>, ok: seq<bool>)
    requires |ok| == |s|
    ensures |Identities(s)| == |s| && Picked(Identities(s), ok) == Identities(Picked(s, ok))
  {
    IdentitiesAt(s);
    if s != [] {
      var n := |s| - 1;
      PickedIdentities(s[..n], ok[..n]);
      IdentitiesSnoc(Picked(s[..n], ok[..n]), s[n]);
    }
  }

  // ---------------------------------------------------------------- two passes

  /** A side whose cache shows every listed message as it is. */
  ghost predicate Clean(w: World, s: Slot, r: SideRun, every: int) {
    Loose(w, s) && Genuine(w, r.served) && Stable(r.served) && NoneMisread(w, s, r.served, every, r.now)
  }

  /** The same side in the next pass: its folder has grown by the copies only, and the rows that are
      misread now are theirs. */
  ghost predicate NextPass(w: World, r: SideRun, s2: Slot, r2: SideRun, every: int, more: seq<Message>) {
    && Loose(w, s2) && Genuine(w, r2.served) && Stable(r2.served)
    && r2.served.validity == r.served.validity && r2.served.stored == r.served.stored + more
    && forall id :: Relied(s2, r2.served, every, r2.now, id) ==>
         Misread(w, r2.served.validity, Trusted(s2, r2.served.validity, every, r2.now)[id]) ==> id !in r.served.listed
  }

  lemma {:induction false} ScanMembers(w: World, validity: string, ids: seq<string>, x: Entry)
    requires x in FullScan(w, validity, ids)
    ensures x.id in ids && w(validity, x.id).Header? && x == ScanEntry(x.id, w(validity, x.id))
  {
    var n := |ids| - 1;
    if x in FullScan(w, validity, ids[..n]) {
      ScanMembers(w, validity, ids[..n], x);
    }
  }

  lemma {:induction false} CleanScan(w: World, s: Slot, r: SideRun, every: int)
    requires Clean(w, s, r, every)
    ensures Identities(Inputs(s, r, every, true)) == FullScan(w, r.served.validity, SortIDs(r.served.listed))
  {
    RefinesFullIff(w, s, r.served, every, r.now);
    StableHolds(w, s, r.served, every, r.now);
  }

  /** What a clean side lists reads the messages of its folder. */
  lemma {:induction false} CleanReads(w: World, s: Slot, r: SideRun, every: int, more: seq<Message>, e: Entry)
    requires Clean(w, s, r, every) && e in Inputs(s, r, every, true)
    ensures Reads(r.served.stored + more, e)
  {
    var list := Inputs(s, r, every, true);
    CleanScan(w, s, r, every);
    IdentitiesAt(list);
    var i :| 0 <= i < |list| && list[i] == e;
    assert Identity(e) in Identities(list);
    ScanMembers(w, r.served.validity, SortIDs(r.served.listed), Identity(e));
    SortIDsSorts(r.served.listed);
    assert e.id in StoredIds(r.served);
    var x :| x in r.served.stored && x.id == e.id;
    HeaderOfMember(r.served.stored, x);
    HeaderOfMore(r.served.stored, more, e.id);
  }

  lemma {:induction false} DeltaReadsAll(w: World, s: Slot, r: SideRun, every: int, more: seq<Message>,
                                         other: seq<Entry>)
    requires Clean(w, s, r, every)
    ensures forall e :: e in Delta(Inputs(s, r, every, true), other) ==> Reads(r.served.stored + more, e)
  {
    DeltaFacts(Inputs(s, r, every, true), other);
    forall e | e in Delta(Inputs(s, r, every, true), other) ensures Reads(r.served.stored + more, e) {
      CleanReads(w, s, r, every, more, e);
    }
  }

  /** The next listing of a side, without what is new, is the last one; the new ones are the copies. */
  lemma {:induction false} NextListing(w: World, s: Slot, r: SideRun, s2: Slot, r2: SideRun, every: int,
                                       more: seq<Message>)
    requires Clean(w, s, r, every) && NextPass(w, r, s2, r2, every, more)
    ensures var now, old' := Identities(Inputs(s2, r2, every, true)), IdSet(r.served.listed);
            && Residue(now, NewOnes(now, old')) == Identities(Inputs(s, r, every, true))
            && UniqueIds(now)
            && (forall e :: e in now ==> e.id in r2.served.listed && w(r.served.validity, e.id).Header?
                                         && PartOf(e, ScanEntry(e.id, w(r.served.validity, e.id))))
            && (forall id :: id in r2.served.listed && w(r.served.validity, id).Header? ==> id in Ids(now))
  {
    var v, ids2 := r.served.validity, SortIDs(r2.served.listed);
    var trusted := Trusted(s2, v, every, r2.now);
    var cached := Upserted(trusted, Fetched(s2, r2.served, every, r2.now));
    var list, old' := InputsFor(ids2, cached), IdSet(r.served.listed);
    SortIDsSorts(r2.served.listed);
    SortedDistinct(r2.served.listed);
    NextRows(w, r, s2, r2, every, more, cached);
    OldAreScanned(w, v, ids2, cached, old');
    ListedStay(r.served, r2.served, more);
    OldIdsStay(r.served.listed, r2.served.listed);
    CleanScan(w, s, r, every);
    InputsOf(ids2, cached);
    IdentitiesAt(list);
    NowShows(w, v, ids2, cached, list);
  }

  lemma {:induction false} ListedStay(served: Served, served2: Served, more: seq<Message>)
    requires Stable(served) && Stable(served2) && served2.stored == served.stored + more
    ensures forall id :: id in served.listed ==> id in served2.listed
  {
    forall id | id in served.listed ensures id in served2.listed {
      assert id in StoredIds(served);
      var x :| x in served.stored && x.id == id;
      assert x in served2.stored;
    }
  }

  lemma {:induction false} NextRows(w: World, r: SideRun, s2: Slot, r2: SideRun, every: int, more: seq<Message>,
                                    cached: map<string, CachedMsg>)
    requires NextPass(w, r, s2, r2, every, more)
    requires cached == Upserted(Trusted(s2, r2.served.validity, every, r2.now), Fetched(s2, r2.served, every, r2.now))
    ensures OldRowsRight(w, r.served.validity, SortIDs(r2.served.listed), cached, IdSet(r.served.listed))
  {
    SortIDsSorts(r2.served.listed);
    forall id | id in r2.served.listed
      ensures id in cached <==> w(r.served.validity, id).Header?
      ensures id in cached ==> RowFits(w, r.served.validity, id, cached[id])
      ensures id in cached && id in IdSet(r.served.listed) ==> !Misread(w, r.served.validity, cached[id])
    {
      WorkingRow(w, s2, r2.served, every, r2.now, id);
    }
  }

  lemma {:induction false} NowShows(w: World, validity: string, ids: seq<string>, cached: map<string, CachedMsg>,
                                    list: seq<Entry>)
    requires forall id :: id in ids ==> (id in cached <==> w(validity, id).Header?)
    requires forall id :: id in ids && id in cached ==> RowFits(w, validity, id, cached[id])
    requires UniqueIds(list) && |Identities(list)| == |list|
    requires forall i :: 0 <= i < |list| ==> Identities(list)[i] == Identity(list[i])
    requires forall e :: e in list <==> e.id in ids && e.id in cached && e == EntryOfRow(cached[e.id])
    ensures var now := Identities(list);
            && UniqueIds(now)
            && (forall e :: e in now ==> e.id in ids && w(validity, e.id).Header?
                                         && PartOf(e, ScanEntry(e.id, w(validity, e.id))))
            && (forall id :: id in ids && w(validity, id).Header? ==> id in Ids(now))
  {
    var now := Identities(list);
    forall e | e in now
      ensures e.id in ids && w(validity, e.id).Header? && PartOf(e, ScanEntry(e.id, w(validity, e.id)))
    {
      var i :| 0 <= i < |now| && now[i] == e;
      assert list[i] in list;
      RowShows(w, validity, e.id, cached[e.id]);
    }
    forall id | id in ids && w(validity, id).Header? ensures id in Ids(now) {
      assert EntryOfRow(cached[id]) in list;
      var i :| 0 <= i < |list| && list[i] == EntryOfRow(cached[id]);
      assert now[i] in now;
    }
  }

  /** So the side has grown as the exact residue asks for. */
  lemma {:induction false} SideGrows(w: World, s: Slot, r: SideRun, s2: Slot, r2: SideRun, every: int,
                                     more: seq<Message>, sent: seq<Entry>) returns (added: seq<bool>)
    requires Clean(w, s, r, every) && NextPass(w, r, s2, r2, every, more)
    requires |Entries(more)| == |sent| && forall k :: 0 <= k < |sent| ==> PartOf(Entries(more)[k], sent[k])
    ensures Grown(Identities(Inputs(s, r, every, true)), Identities(Inputs(s2, r2, every, true)), added, sent)
  {
    var now, old', copies := Identities(Inputs(s2, r2, every, true)), IdSet(r.served.listed), Entries(more);
    NextListing(w, s, r, s2, r2, every, more);
    added := NewOnes(now, old');
    NewAreThose(now, old');
    var news := Picked(now, added);
    FreshIds(r.served.stored, r2.served.stored);
    assert r2.served.stored[|r.served.stored|..] == more;
    NewIdsAreCopies(w, r, r2, more, now, news);
    forall i, k | 0 <= i < |news| && 0 <= k < |copies| && news[i].id == copies[k].id ensures PartOf(news[i], sent[k]) {
      assert news[i] in news && copies[k] in copies;
      var x := EntryFrom(more, copies[k]);
      assert x in r2.served.stored;
    }
    PairsById(news, copies, sent);
  }

  lemma {:induction false} NewIdsAreCopies(w: World, r: SideRun, r2: SideRun, more: seq<Message>, now: seq<Entry>,
                                           news: seq<Entry>)
    requires Stable(r.served) && Stable(r2.served) && Genuine(w, r2.served)
    requires r2.served.validity == r.served.validity && r2.served.stored == r.served.stored + more
    requires forall e :: e in news <==> e in now && e.id !in IdSet(r.served.listed)
    requires forall e :: e in now ==> e.id in r2.served.listed && w(r.served.validity, e.id).Header?
    requires forall id :: id in r2.served.listed && w(r.served.validity, id).Header? ==> id in Ids(now)
    ensures Ids(news) == Ids(Entries(more))
  {
    forall e | e in news ensures e.id in Ids(Entries(more)) {
      assert e.id in StoredIds(r2.served) && e.id !in StoredIds(r.served);
      var x :| x in r2.served.stored && x.id == e.id;
      assert x !in r.served.stored && x in more;
      EntryListed(more, x);
    }
    forall c | c in Entries(more) ensures c.id in Ids(news) {
      var x := EntryFrom(more, c);
      assert x in r2.served.stored && c.id in StoredIds(r2.served);
      NotBefore(r.served.stored, more, x);
      var e :| e in now && e.id == c.id;
      assert e in news;
    }
  }

  lemma {:induction false} NotBefore(old': seq<Message>, more: seq<Message>, x: Message)
    requires UniqueMsgs(old' + more) && x in more
    ensures forall m :: m in old' ==> m.id != x.id
  {
    var j :| 0 <= j < |more| && more[j] == x;
    assert (old' + more)[|old'| + j] == x;
    forall m | m in old' ensures m.id != x.id {
      var i :| 0 <= i < |old'| && old'[i] == m;
      assert (old' + more)[i] == m;
    }
  }

  /** Exact residue with the cache: the next cached pass has exactly the rest of each delta to do. */
  lemma {:induction false} CachedResidueExact(wA: World, wB: World, sA: Slot, sB: Slot, ra: SideRun, rb: SideRun,
                                              every: int, stopB: nat, stopA: nat, sA2: Slot, sB2: Slot, ra2: SideRun,
                                              rb2: SideRun)
    requires Clean(wA, sA, ra, every) && Clean(wB, sB, rb, every)
    requires Leaves(ra.served.stored, rb.served.stored, Inputs(sA, ra, every, true), Inputs(sB, rb, every, true),
                    rb.plan, stopB, ra.plan, stopA, ra2.served.stored, rb2.served.stored)
    requires NextPass(wA, ra, sA2, ra2, every, ra2.served.stored[|ra.served.stored|..])
    requires NextPass(wB, rb, sB2, rb2, every, rb2.served.stored[|rb.served.stored|..])
    ensures var inA, inB := Inputs(sA, ra, every, true), Inputs(sB, rb, every, true);
            var inA2, inB2 := Inputs(sA2, ra2, every, true), Inputs(sB2, rb2, every, true);
            var okB := Flags(ra.served.stored, Delta(inA, inB), rb.plan, stopB);
            var okA := Flags(rb2.served.stored, Delta(inB, inA), ra.plan, stopA);
            && Identities(Delta(inA2, inB2)) == Identities(Residue(Delta(inA, inB), okB))
            && Identities(Delta(inB2, inA2)) == Identities(Residue(Delta(inB, inA), okA))
  {
    var a, b, b2 := ra.served.stored, rb.served.stored, rb2.served.stored;
    var inA, inB := Inputs(sA, ra, every, true), Inputs(sB, rb, every, true);
    var inA2, inB2 := Inputs(sA2, ra2, every, true), Inputs(sB2, rb2, every, true);
    var dB, dA := Delta(inA, inB), Delta(inB, inA);
    var okB, okA := Flags(a, dB, rb.plan, stopB), Flags(b2, dA, ra.plan, stopA);
    var mB, mA := Arrived(a, dB, rb.plan, stopB), Arrived(b2, dA, ra.plan, stopA);
    assert b2[|b|..] == mB && ra2.served.stored[|a|..] == mA && a + [] == a;
    DeltaReadsAll(wA, sA, ra, every, [], inB);
    DeltaReadsAll(wB, sB, rb, every, mB, inA);
    DeltaIdentities(inA, inB);
    DeltaIdentities(inB, inA);
    DeltaIdentities(inA2, inB2);
    DeltaIdentities(inB2, inA2);
    PickedIdentities(dB, okB);
    PickedIdentities(dA, okA);
    PickedIdentities(dB, Negated(okB));
    PickedIdentities(dA, Negated(okA));
    PartsOfIdentities(a, dB, rb.plan, stopB);
    PartsOfIdentities(b2, dA, ra.plan, stopA);
    var addedB := SideGrows(wB, sB, rb, sB2, rb2, every, mB, Identities(Picked(dB, okB)));
    var addedA := SideGrows(wA, sA, ra, sA2, ra2, every, mA, Identities(Picked(dA, okA)));
    ExactResidue(Identities(inA), Identities(inB), okB, okA, Identities(inA2), Identities(inB2), addedA, addedB);
  }

  lemma {:induction false} PartsOfIdentities(src: seq<Message>, delta: seq<Entry>, plan: Plan, stop: nat)
    requires forall e :: e in delta ==> Reads(src, e)
    ensures var sent := Identities(Picked(delta, Flags(src, delta, plan, stop)));
            var copies := Entries(Arrived(src, delta, plan, stop));
            |copies| == |sent| && forall k :: 0 <= k < |sent| ==> PartOf(copies[k], sent[k])
  {
    ArrivedParts(src, delta, plan, stop);
    IdentitiesAt(Picked(delta, Flags(src, delta, plan, stop)));
  }

  // ---------------------------------------------------------------- the cache a pass leaves

  /** The endpoint serves the grown folder in the next pass. */
  ghost predicate ServesNext(w: World, r: SideRun, r2: SideRun, msgs: seq<Message>) {
    && Genuine(w, r2.served) && Stable(r2.served)
    && r2.served.validity == r.served.validity && r2.served.stored == msgs
  }

  lemma {:induction false} FitIsClean(w: World, s: Slot, r: SideRun, every: int)
    requires Fit(w, s, r, {}, every)
    ensures Clean(w, s, r, every)
  {
    LoggedMeans(w, s, r.served, every, r.now, {});
  }

  /** From a cache that misreads nothing, what a pass leaves misreads only copies that are new. */
  lemma {:induction false} NextFromFinished(w: World, s: Slot, r: SideRun, every: int, gone: seq<string>,
                                            cache: seq<CachedMsg>, r2: SideRun, now: seq<Message>)
    requires Fit(w, s, r, {}, every) && ServesNext(w, r, r2, now)
    requires GrewInto(w, r.served.validity, r.served.stored, now)
    requires forall row :: row in cache ==>
               IsCopyRow(w, r.served.validity, row) && row.id in Ids(Entries(now[|r.served.stored|..]))
    ensures NextPass(w, r, Finished(s, r, every, true, gone, cache), r2, every, now[|r.served.stored|..])
  {
    var more := now[|r.served.stored|..];
    var fresh' := Ids(Entries(more));
    assert now == r.served.stored + more;
    FinishedLogged(w, s, r, every, gone, {}, fresh', cache);
    LoggedMeans(w, Finished(s, r, every, true, gone, cache), r2.served, every, r2.now, fresh');
    forall id | id in fresh' ensures id !in r.served.listed {
      var c :| c in Entries(more) && c.id == id;
      var x := EntryFrom(more, c);
      NotBefore(r.served.stored, more, x);
    }
  }

  /** Two cached passes in a row: if the caches misread nothing before the first, then, whatever fails
      in it and whether or not a rescan is due, the second has exactly the rest of each delta to
      do. */
  lemma {:induction false} CachedPassLeavesRest(wA: World, wB: World, sA: Slot, sB: Slot, ra: SideRun, rb: SideRun,
                                                every: int, stopB: nat, stopA: nat, a': seq<Message>,
                                                b': seq<Message>, cacheB: seq<CachedMsg>, cacheA: seq<CachedMsg>,
                                                goneB: seq<string>, goneA: seq<string>, ra2: SideRun, rb2: SideRun)
    requires Fit(wA, sA, ra, {}, every) && Fit(wB, sB, rb, {}, every)
    requires Passed(sA, sB, ra, rb, every, stopB, stopA, a', b', cacheB, cacheA)
    requires GrewInto(wA, ra.served.validity, ra.served.stored, a') && ServesNext(wA, ra, ra2, a')
    requires GrewInto(wB, rb.served.validity, rb.served.stored, b') && ServesNext(wB, rb, rb2, b')
    ensures var inA, inB := Inputs(sA, ra, every, true), Inputs(sB, rb, every, true);
            var inA2 := Inputs(Finished(sA, ra, every, true, goneA, cacheA), ra2, every, true);
            var inB2 := Inputs(Finished(sB, rb, every, true, goneB, cacheB), rb2, every, true);
            var okB := Flags(ra.served.stored, Delta(inA, inB), rb.plan, stopB);
            var okA := Flags(b', Delta(inB, inA), ra.plan, stopA);
            && Identities(Delta(inA2, inB2)) == Identities(Residue(Delta(inA, inB), okB))
            && Identities(Delta(inB2, inA2)) == Identities(Residue(Delta(inB, inA), okA))
  {
    FitIsClean(wA, sA, ra, every);
    FitIsClean(wB, sB, rb, every);
    PassedLeaves(sA, sB, ra, rb, every, stopB, stopA, a', b', cacheB, cacheA);
    PassedRows(wA, wB, sA, sB, ra, rb, {}, {}, every, stopB, stopA, a', b', cacheB, cacheA);
    NextFromFinished(wA, sA, ra, every, goneA, cacheA, ra2, a');
    NextFromFinished(wB, sB, rb, every, goneB, cacheB, rb2, b');
    CachedResidueExact(wA, wB, sA, sB, ra, rb, every, stopB, stopA, Finished(sA, ra, every, true, goneA, cacheA),
                       Finished(sB, rb, every, true, goneB, cacheB), ra2, rb2);
  }

  /** Convergence with the cache: after a cached pass in which everything arrives, the next one has
      nothing to do. */
  lemma {:induction false} CachedPassConverges(wA: World, wB: World, sA: Slot, sB: Slot, ra: SideRun, rb: SideRun,
                                               every: int, a': seq<Message>, b': seq<Message>, cacheB: seq<CachedMsg>,
                                               cacheA: seq<CachedMsg>, goneB: seq<string>, goneA: seq<string>,
                                               ra2: SideRun, rb2: SideRun)
    requires Fit(wA, sA, ra, {}, every) && Fit(wB, sB, rb, {}, every)
    requires var dB := Delta(Inputs(sA, ra, every, true), Inputs(sB, rb, every, true));
             var dA := Delta(Inputs(sB, rb, every, true), Inputs(sA, ra, every, true));
             && Passed(sA, sB, ra, rb, every, |dB|, |dA|, a', b', cacheB, cacheA)
             && (forall i :: 0 <= i < |dB| ==> Stored(rb.plan(i))) && (forall i :: 0 <= i < |dA| ==> Stored(ra.plan(i)))
    requires GrewInto(wA, ra.served.validity, ra.served.stored, a') && ServesNext(wA, ra, ra2, a')
    requires GrewInto(wB, rb.served.validity, rb.served.stored, b') && ServesNext(wB, rb, rb2, b')
    ensures var inA2 := Inputs(Finished(sA, ra, every, true, goneA, cacheA), ra2, every, true);
            var inB2 := Inputs(Finished(sB, rb, every, true, goneB, cacheB), rb2, every, true);
            Delta(inA2, inB2) == [] && Delta(inB2, inA2) == []
  {
    var inA, inB := Inputs(sA, ra, every, true), Inputs(sB, rb, every, true);
    var dB, dA := Delta(inA, inB), Delta(inB, inA);
    CachedPassLeavesRest(wA, wB, sA, sB, ra, rb, every, |dB|, |dA|, a', b', cacheB, cacheA, goneB, goneA, ra2, rb2);
    PassedLeaves(sA, sB, ra, rb, every, |dB|, |dA|, a', b', cacheB, cacheA);
    assert ra.served.stored + [] == ra.served.stored;
    NothingRemains(wA, sA, ra, every, [], inB, rb.plan);
    NothingRemains(wB, sB, rb, every, Arrived(ra.served.stored, dB, rb.plan, |dB|), inA, ra.plan);
    IdentitiesAt(Delta(Inputs(Finished(sA, ra, every, true, goneA, cacheA), ra2, every, true),
                       Inputs(Finished(sB, rb, every, true, goneB, cacheB), rb2, every, true)));
    IdentitiesAt(Delta(Inputs(Finished(sB, rb, every, true, goneB, cacheB), rb2, every, true),
                       Inputs(Finished(sA, ra, every, true, goneA, cacheA), ra2, every, true)));
  }

  /** If everything is stored, nothing of a delta remains. */
  lemma {:induction false} NothingRemains(w: World, s: Slot, r: SideRun, every: int, more: seq<Message>,
                                          other: seq<Entry>, plan: Plan)
    requires Fit(w, s, r, {}, every)
    requires forall i :: 0 <= i < |Delta(Inputs(s, r, every, true), other)| ==> Stored(plan(i))
    ensures var delta := Delta(Inputs(s, r, every, true), other);
            Residue(delta, Flags(r.served.stored + more, delta, plan, |delta|)) == []
  {
    FitIsClean(w, s, r, every);
    DeltaReadsAll(w, s, r, every, more, other);
    AllArrivedNothingLeft(r.served.stored + more, Delta(Inputs(s, r, every, true), other), plan);
  }
}
