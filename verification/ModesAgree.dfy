/** The two modes of indexing find the same work: a full scan lists a folder in the order of the
    endpoint with the flags of the day, the cache in the order of the IDs with flags it has kept. */
module ModesAgree {
  import opened MatchKeys
  import opened Retention
  import opened OrderIndependence
  import opened State
  import opened Incremental
  import opened CacheLaws
  import opened SyncRuns
  import opened Copying
  import opened Copies
  import opened SyncPass
  import opened CachedViews
  import opened CachedRuns
  import opened CachedResidue

  lemma {:induction false} CountById(s: seq<Entry>, e: Entry)
    requires UniqueIds(s)
    ensures multiset(s)[e] == if e in s then 1 else 0
  {
    if s != [] {
      var n := |s| - 1;
      var front, last := s[..n], s[n];
      assert s == front + [last];
      CountById(front, e);
      LastIsNew(s);
      if e == last {
        assert e in front ==> e.id in Ids(front);
      }
    }
  }

  lemma {:induction false} SameByIds(s: seq<Entry>, t: seq<Entry>)
    requires UniqueIds(s) && UniqueIds(t) && forall e :: e in s <==> e in t
    ensures multiset(s) == multiset(t)
  {
    forall e ensures multiset(s)[e] == multiset(t)[e] {
      CountById(s, e);
      CountById(t, e);
    }
  }

  lemma {:induction false} ScanHas(w: World, validity: string, ids: seq<string>, id: string)
    requires id in ids && w(validity, id).Header?
    ensures ScanEntry(id, w(validity, id)) in FullScan(w, validity, ids)
  {
    var n := |ids| - 1;
    assert ids == ids[..n] + [ids[n]];
    if id in ids[..n] {
      ScanHas(w, validity, ids[..n], id);
    }
  }

  lemma {:induction false} IdentityIds(s: seq<Entry>)
    requires UniqueIds(s)
    ensures UniqueIds(Identities(s))
  {
    IdentitiesAt(s);
  }

  /** Both modes list the same identities. */
  lemma {:induction false} SameIdentities(w: World, s: Slot, r: SideRun, every: int)
    requires Clean(w, s, r, every)
    ensures multiset(Identities(Entries(r.served.stored))) == multiset(Identities(Inputs(s, r, every, true)))
  {
    var v, msgs, full := r.served.validity, r.served.stored, Entries(r.served.stored);
    var scan := FullScan(w, v, SortIDs(r.served.listed));
    CleanScan(w, s, r, every);
    SortIDsSorts(r.served.listed);
    SortedDistinct(r.served.listed);
    ScanUnique(w, v, SortIDs(r.served.listed));
    EntriesUnique(msgs);
    IdentityIds(full);
    IdentitiesAt(full);
    forall e ensures e in Identities(full) <==> e in scan {
      if e in Identities(full) {
        var i :| 0 <= i < |full| && Identities(full)[i] == e;
        assert full[i] in full;
        var x := EntryFrom(msgs, full[i]);
        assert x.id in StoredIds(r.served);
        ScanHas(w, v, SortIDs(r.served.listed), e.id);
      }
      if e in scan {
        ScanMembers(w, v, SortIDs(r.served.listed), e);
        assert e.id in StoredIds(r.served);
        var x :| x in msgs && x.id == e.id;
        EntryListed(msgs, x);
        var i :| 0 <= i < |full| && full[i] == EntryOf(x);
        assert Identities(full)[i] == e;
      }
    }
    SameByIds(Identities(full), scan);
  }

  lemma {:induction false} ScanUnique(w: World, validity: string, ids: seq<string>)
    requires Distinct(ids)
    ensures UniqueIds(FullScan(w, validity, ids))
  {
    if ids != [] {
      var n := |ids| - 1;
      ScanUnique(w, validity, ids[..n]);
      if w(validity, ids[n]).Header? {
        forall x | x in FullScan(w, validity, ids[..n]) ensures x.id != ids[n] {
          ScanMembers(w, validity, ids[..n], x);
        }
        UniqueSnoc(FullScan(w, validity, ids[..n]), ScanEntry(ids[n], w(validity, ids[n])));
      }
    }
  }

  /** So when sharing a key is an equivalence on the identities of both folders, the two modes build
      indexes of the same size, drop as many duplicates, and send the same classes of messages. */
  lemma {:induction false} ModesFindTheSame(u: set<Entry>, wA: World, wB: World, sA: Slot, sB: Slot, ra: SideRun,
                                            rb: SideRun, every: int)
    requires Clean(wA, sA, ra, every) && Clean(wB, sB, rb, every) && SharingIsEquivalence(u)
    requires Within(u, Identities(Entries(ra.served.stored))) && Within(u, Identities(Entries(rb.served.stored)))
    ensures var fullA, fullB := Entries(ra.served.stored), Entries(rb.served.stored);
            var inA, inB := Inputs(sA, ra, every, true), Inputs(sB, rb, every, true);
            && |Retained(fullA)| == |Retained(inA)| && |fullA| - |Retained(fullA)| == |inA| - |Retained(inA)|
            && |Delta(fullA, fullB)| == |Delta(inA, inB)|
            && Classes(u, Identities(Delta(fullA, fullB))) == Classes(u, Identities(Delta(inA, inB)))
  {
    var fullA, fullB := Entries(ra.served.stored), Entries(rb.served.stored);
    var inA, inB := Inputs(sA, ra, every, true), Inputs(sB, rb, every, true);
    SameIdentities(wA, sA, ra, every);
    SameIdentities(wB, sB, rb, every);
    AnyOrderSameDelta(u, Identities(fullA), Identities(inA), Identities(fullB), Identities(inB));
    DeltaIdentities(fullA, fullB);
    DeltaIdentities(inA, inB);
    SizesOfIdentities(fullA, fullB);
    SizesOfIdentities(inA, inB);
  }

  lemma {:induction false} SizesOfIdentities(s: seq<Entry>, t: seq<Entry>)
    ensures |Identities(s)| == |s| && |Retained(Identities(s))| == |Retained(s)|
    ensures |Delta(Identities(s), Identities(t))| == |Delta(s, t)|
  {
    RetainedIdentities(s);
    DeltaIdentities(s, t);
    IdentitiesSize(s);
    IdentitiesSize(Retained(s));
    IdentitiesSize(Delta(s, t));
  }
}
