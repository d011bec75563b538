/** What internal/dedup/index.go computes, as functions on sequences: which messages of a
    folder an index retains, and which retained messages the other side lacks. */
module Retention {
  import opened MatchKeys

  /** A message as the index sees it. */
  datatype Entry = Entry(id: string, flags: seq<string>, internalDate: int,
                         msgID: string, surrogate: string, keys: seq<string>)

  function AllKeys(s: seq<Entry>): set<string> {
    if s == [] then {} else AllKeys(s[..|s| - 1]) + KeySet(s[|s| - 1].keys)
  }

  predicate Covered(keys: seq<string>, known: set<string>) {
    exists k :: k in keys && k in known
  }

  /** Every parsed message has at least its surrogate key. */
  predicate Keyed(s: seq<Entry>) {
    forall e :: e in s ==> e.keys != []
  }

  predicate PairwiseDisjoint(s: seq<Entry>) {
    forall i, j :: 0 <= i < j < |s| ==> KeySet(s[i].keys) !! KeySet(s[j].keys)
  }

  /** The greedy filter: a message is kept unless a kept earlier one has one of its keys. */
  function Retained(s: seq<Entry>): seq<Entry> {
    if s == [] then []
    else
      var kept := Retained(s[..|s| - 1]);
      var e := s[|s| - 1];
      if Covered(e.keys, AllKeys(kept)) then kept else kept + [e]
  }

  /** The messages of `s`, in order, none of whose keys is known. */
  function Lacking(s: seq<Entry>, known: set<string>): seq<Entry> {
    if s == [] then []
    else
      var front := Lacking(s[..|s| - 1], known);
      var e := s[|s| - 1];
      if Covered(e.keys, known) then front else front + [e]
  }

  /** The delta of a whole folder: what `src` must send to `dst`. */
  function Delta(src: seq<Entry>, dst: seq<Entry>): seq<Entry> {
    Lacking(Retained(src), AllKeys(Retained(dst)))
  }

  // ---------------------------------------------------------------- basic facts

  lemma {:induction false} KeyOwner(s: seq<Entry>, k: string) returns (i: nat)
    requires k in AllKeys(s)
    ensures i < |s| && k in s[i].keys
  {
    if k in s[|s| - 1].keys {
      i := |s| - 1;
    } else {
      i := KeyOwner(s[..|s| - 1], k);
    }
  }

  lemma {:induction false} OwnerKeys(s: seq<Entry>, e: Entry)
    requires e in s
    ensures KeySet(e.keys) <= AllKeys(s)
  {
    if e != s[|s| - 1] {
      OwnerKeys(s[..|s| - 1], e);
    }
  }

  /** A list whose members all occur in another has no other keys. */
  lemma {:induction false} PartKeys(part: seq<Entry>, s: seq<Entry>)
    requires forall e :: e in part ==> e in s
    ensures AllKeys(part) <= AllKeys(s)
  {
    if part != [] {
      PartKeys(part[..|part| - 1], s);
      OwnerKeys(s, part[|part| - 1]);
    }
  }

  lemma {:induction false} AllKeysSnoc(s: seq<Entry>, e: Entry)
    ensures AllKeys(s + [e]) == AllKeys(s) + KeySet(e.keys)
  {
    assert (s + [e])[..|s|] == s;
  }

  lemma {:induction false} AllKeysConcat(s: seq<Entry>, t: seq<Entry>)
    ensures AllKeys(s + t) == AllKeys(s) + AllKeys(t)
  {
    if t == [] {
      assert s + t == s;
    } else {
      AllKeysConcat(s, t[..|t| - 1]);
      SplitLast(s, t);
      AllKeysSnoc(s + t[..|t| - 1], t[|t| - 1]);
    }
  }

  lemma {:induction false} SplitLast<T>(s: seq<T>, t: seq<T>)
    requires t != []
    ensures s + t == s + t[..|t| - 1] + [t[|t| - 1]]
  {
  }

  lemma {:induction false} RetainedIsPart(s: seq<Entry>)
    ensures multiset(Retained(s)) <= multiset(s)
    ensures forall e :: e in Retained(s) ==> e in s
    ensures |Retained(s)| <= |s|
  {
    if s != [] {
      RetainedIsPart(s[..|s| - 1]);
      assert s == s[..|s| - 1] + [s[|s| - 1]];
    }
  }

  lemma {:induction false} LackingIsPart(s: seq<Entry>, known: set<string>)
    ensures multiset(Lacking(s, known)) <= multiset(s)
    ensures forall e :: e in Lacking(s, known) <==> e in s && !Covered(e.keys, known)
  {
    if s != [] {
      LackingIsPart(s[..|s| - 1], known);
      assert s == s[..|s| - 1] + [s[|s| - 1]];
    }
  }

  /** No key belongs to two retained messages. */
  lemma {:induction false} RetainedDisjoint(s: seq<Entry>)
    ensures PairwiseDisjoint(Retained(s))
  {
    if s != [] {
      RetainedDisjoint(s[..|s| - 1]);
      var kept := Retained(s[..|s| - 1]);
      var e := s[|s| - 1];
      if !Covered(e.keys, AllKeys(kept)) {
        forall i | 0 <= i < |kept|
          ensures KeySet(kept[i].keys) !! KeySet(e.keys)
        {
          OwnerKeys(kept, kept[i]);
        }
      }
    }
  }

  /** Coverage: every message of the folder, retained or not, meets a retained key. */
  lemma {:induction false} Coverage(s: seq<Entry>, e: Entry)
    requires Keyed(s) && e in s
    ensures Covered(e.keys, AllKeys(Retained(s)))
  {
    var front, last := s[..|s| - 1], s[|s| - 1];
    assert s == front + [last];
    if e in front {
      Coverage(front, e);
    } else if !Covered(last.keys, AllKeys(Retained(front))) {
      AllKeysSnoc(Retained(front), last);
      assert e.keys[0] in KeySet(e.keys);
    }
    AllKeysSnoc(Retained(front), last);
  }

  lemma {:induction false} LackingConcat(s: seq<Entry>, t: seq<Entry>, known: set<string>)
    ensures Lacking(s + t, known) == Lacking(s, known) + Lacking(t, known)
  {
    if t == [] {
      assert s + t == s;
    } else {
      LackingConcat(s, t[..|t| - 1], known);
      assert (s + t)[..|s + t| - 1] == s + t[..|t| - 1];
    }
  }

  /** Filtering by two key sets in turn is filtering by their union. */
  lemma {:induction false} LackingTwice(s: seq<Entry>, k1: set<string>, k2: set<string>)
    ensures Lacking(s, k1 + k2) == Lacking(Lacking(s, k1), k2)
  {
    if s != [] {
      LackingTwice(s[..|s| - 1], k1, k2);
      var e := s[|s| - 1];
      LackingConcat(Lacking(s[..|s| - 1], k1), [e], k2);
    }
  }

  /** Filtering keeps disjointness. */
  lemma {:induction false} LackingDisjoint(s: seq<Entry>, known: set<string>)
    requires PairwiseDisjoint(s)
    ensures PairwiseDisjoint(Lacking(s, known))
  {
    if s != [] {
      var front, last := s[..|s| - 1], s[|s| - 1];
      LackingDisjoint(front, known);
      LackingIsPart(front, known);
      var kept := Lacking(front, known);
      forall i | 0 <= i < |kept|
        ensures KeySet(kept[i].keys) !! KeySet(last.keys)
      {
        assert kept[i] in front;
      }
    }
  }

  lemma {:induction false} RetainedStep(s: seq<Entry>, e: Entry, kept: seq<Entry>)
    requires Retained(s) == kept && !Covered(e.keys, AllKeys(kept))
    ensures Retained(s + [e]) == kept + [e]
  {
    assert (s + [e])[..|s|] == s;
  }

  /** In a disjoint sequence the last message meets none of the others. */
  lemma {:induction false} LastMeetsNone(s: seq<Entry>)
    requires s != [] && PairwiseDisjoint(s)
    ensures !Covered(s[|s| - 1].keys, AllKeys(s[..|s| - 1]))
  {
    var n := |s| - 1;
    forall k | k in AllKeys(s[..n])
      ensures k !in KeySet(s[n].keys)
    {
      var i := KeyOwner(s[..n], k);
      assert k in KeySet(s[i].keys);
    }
  }

  // ---------------------------------------------------------------- when is a message present?

  /** The README calls a message present when any destination message has one of its keys.
      A duplicate dropped while building the index does not add its extra keys, so the index
      agrees with that reading for all messages if and only if dropped duplicates carry no
      key that is not also a retained key. */
  lemma {:induction false} PresenceIff(dst: seq<Entry>)
    ensures (forall keys: seq<string> :: Covered(keys, AllKeys(Retained(dst))) <==> Covered(keys, AllKeys(dst)))
            <==> AllKeys(dst) <= AllKeys(Retained(dst))
  {
    PartKeys(Retained(dst), dst) by { RetainedIsPart(dst); }
    if forall keys: seq<string> :: Covered(keys, AllKeys(Retained(dst))) <==> Covered(keys, AllKeys(dst)) {
      forall k | k in AllKeys(dst)
        ensures k in AllKeys(Retained(dst))
      {
        assert Covered([k], AllKeys(dst));
        assert Covered([k], AllKeys(Retained(dst)));
      }
    }
  }

  /** One direction always holds: what is found in the index is really there. */
  lemma {:induction false} FoundIsPresent(dst: seq<Entry>, keys: seq<string>)
    requires Covered(keys, AllKeys(Retained(dst)))
    ensures exists e, k :: e in dst && k in e.keys && k in keys
  {
    RetainedIsPart(dst);
    var k :| k in keys && k in AllKeys(Retained(dst));
    var i := KeyOwner(Retained(dst), k);
    assert Retained(dst)[i] in dst;
  }

  // ---------------------------------------------------------------- exact residue of a pass

  /** The elements whose flag is set, and the others, both in order. */
  function Picked<T>(s: seq<T>, ok: seq<bool>): (r: seq<T>)
    requires |ok| == |s|
    ensures |r| <= |s|
    ensures forall x :: x in r ==> x in s
  {
    if s == [] then []
    else
      var front := Picked(s[..|s| - 1], ok[..|s| - 1]);
      if ok[|s| - 1] then front + [s[|s| - 1]] else front
  }

  function Negated(ok: seq<bool>): seq<bool> {
    seq(|ok|, i requires 0 <= i < |ok| => !ok[i])
  }

  /** What a pass that delivered exactly the flagged messages leaves to do. */
  function Residue<T>(s: seq<T>, ok: seq<bool>): seq<T>
    requires |ok| == |s|
  {
    Picked(s, Negated(ok))
  }

  lemma {:induction false} PickedSizes<T>(s: seq<T>, ok: seq<bool>)
    requires |ok| == |s|
    ensures |Picked(s, ok)| + |Residue(s, ok)| == |s|
  {
    if s != [] {
      PickedSizes(s[..|s| - 1], ok[..|s| - 1]);
      assert Negated(ok)[..|s| - 1] == Negated(ok[..|s| - 1]);
    }
  }

  lemma {:induction false} PickedDisjoint(s: seq<Entry>, ok: seq<bool>)
    requires |ok| == |s| && PairwiseDisjoint(s)
    ensures PairwiseDisjoint(Picked(s, ok))
  {
    if s != [] {
      var front, last := s[..|s| - 1], s[|s| - 1];
      PickedDisjoint(front, ok[..|s| - 1]);
      var kept := Picked(front, ok[..|s| - 1]);
      forall i | 0 <= i < |kept|
        ensures KeySet(kept[i].keys) !! KeySet(last.keys)
      {
        assert kept[i] in front;
      }
    }
  }

  lemma {:induction false} LackingByFlags(s: seq<Entry>, ok: seq<bool>, known: set<string>)
    requires |ok| == |s|
    requires forall i :: 0 <= i < |s| ==> (Covered(s[i].keys, known) <==> ok[i])
    ensures Lacking(s, known) == Residue(s, ok)
  {
    if s != [] {
      LackingByFlags(s[..|s| - 1], ok[..|s| - 1], known);
      assert Negated(ok)[..|s| - 1] == Negated(ok[..|s| - 1]);
    }
  }

  lemma {:induction false} PickedMember<T>(s: seq<T>, ok: seq<bool>, x: T) returns (i: nat)
    requires |ok| == |s| && x in Picked(s, ok)
    ensures i < |s| && s[i] == x && ok[i]
  {
    var n := |s| - 1;
    if ok[n] && s[n] == x {
      i := n;
    } else {
      i := PickedMember(s[..n], ok[..n], x);
    }
  }

  lemma {:induction false} PickedHas<T>(s: seq<T>, ok: seq<bool>, i: nat)
    requires |ok| == |s| && i < |s| && ok[i]
    ensures s[i] in Picked(s, ok)
  {
    if i < |s| - 1 {
      PickedHas(s[..|s| - 1], ok[..|s| - 1], i);
    }
  }

  lemma {:induction false} OneOwner(s: seq<Entry>, i: nat, j: nat, k: string)
    requires PairwiseDisjoint(s) && i < |s| && j < |s| && i != j && k in s[j].keys
    ensures k !in s[i].keys
  {
    assert k in KeySet(s[j].keys);
    assert i < j || j < i;
    assert k !in KeySet(s[i].keys);
  }

  /** The delta is a disjoint part of the source that the destination does not know. */
  lemma {:induction false} DeltaFacts(src: seq<Entry>, dst: seq<Entry>)
    ensures PairwiseDisjoint(Delta(src, dst))
    ensures multiset(Delta(src, dst)) <= multiset(src)
    ensures forall e :: e in Delta(src, dst) <==> e in Retained(src) && !Covered(e.keys, AllKeys(Retained(dst)))
    ensures forall e :: e in Delta(src, dst) ==> e in src
  {
    RetainedDisjoint(src);
    RetainedIsPart(src);
    LackingDisjoint(Retained(src), AllKeys(Retained(dst)));
    LackingIsPart(Retained(src), AllKeys(Retained(dst)));
  }

  /** Each of the added messages has a non-empty part of the keys of one sent message, and each sent
      message is behind one of them: the i-th added one stands for the one at at[i]. */
  predicate Pairs(added: seq<Entry>, sent: seq<Entry>, at: seq<nat>) {
    && |added| == |at| == |sent|
    && (forall i :: 0 <= i < |at| ==> at[i] < |sent| && PartOf(added[i], sent[at[i]]))
    && (forall i, j :: 0 <= i < j < |at| ==> at[i] != at[j])
    && (forall k :: 0 <= k < |sent| ==> Hit(at, k))
  }

  predicate Hit(at: seq<nat>, k: nat) {
    exists p :: 0 <= p < |at| && at[p] == k
  }

  predicate PartOf(c: Entry, m: Entry) {
    c.keys != [] && KeySet(c.keys) <= KeySet(m.keys)
  }

  /** The folder has kept its messages in order, and among them, anywhere, it has gained copies of
      the sent ones: those that are flagged. */
  ghost predicate Grown(old': seq<Entry>, now: seq<Entry>, added: seq<bool>, sent: seq<Entry>) {
    && |added| == |now| && Residue(now, added) == old'
    && exists at :: Pairs(Picked(now, added), sent, at)
  }

  /** The index of a folder with added messages knows their keys besides, and what knows them lacks
      nothing more of it. */
  ghost predicate Merged(now: seq<Entry>, before: seq<Entry>, added: seq<Entry>, known: set<string>) {
    && AllKeys(Retained(now)) == AllKeys(Retained(before)) + AllKeys(added)
    && (AllCovered(added, known) ==> Lacking(Retained(now), known) == Lacking(Retained(before), known))
  }

  predicate AllCovered(s: seq<Entry>, known: set<string>) {
    forall e :: e in s ==> Covered(e.keys, known)
  }

  predicate NoneCovered(s: seq<Entry>, known: set<string>) {
    forall e :: e in s ==> !Covered(e.keys, known)
  }

  /** Messages that nothing retained knows, nor one another, are retained wherever they stand, and
      change nothing else. */
  lemma {:induction false} AddedAreRetained(now: seq<Entry>, added: seq<bool>, before: seq<Entry>, ins: seq<Entry>,
                                            known: set<string>)
    requires |added| == |now| && before == Residue(now, added) && ins == Picked(now, added)
    requires PairwiseDisjoint(ins) && NoneCovered(ins, AllKeys(Retained(before)))
    ensures Merged(now, before, ins, known)
    decreases |now|
  {
    if now != [] {
      var front, flags, before0, ins0, e, isNew := WithoutLast(now, added);
      FrontIsFit(before0, ins0, e, isNew, before, ins);
      AddedAreRetained(front, flags, before0, ins0, known);
      OneMore(front, before0, ins0, e, isNew, before, ins, known);
    }
  }

  lemma {:induction false} WithoutLast(now: seq<Entry>, added: seq<bool>)
    returns (front: seq<Entry>, flags: seq<bool>, before: seq<Entry>, ins: seq<Entry>, e: Entry, isNew: bool)
    requires |added| == |now| && now != []
    ensures now == front + [e] && |flags| == |front| && before == Residue(front, flags) && ins == Picked(front, flags)
    ensures Extends(before, ins, e, isNew, Residue(now, added), Picked(now, added))
  {
    var n := |now| - 1;
    front, flags, e, isNew := now[..n], added[..n], now[n], added[n];
    before, ins := Residue(front, flags), Picked(front, flags);
    ResidueLast(now, added);
  }

  /** One message more, old or added. */
  predicate Extends(before: seq<Entry>, ins: seq<Entry>, e: Entry, isNew: bool, before': seq<Entry>, ins': seq<Entry>) {
    before' == before + (if isNew then [] else [e]) && ins' == ins + (if isNew then [e] else [])
  }

  lemma {:induction false} FrontIsFit(before: seq<Entry>, ins: seq<Entry>, e: Entry, isNew: bool, before': seq<Entry>,
                                      ins': seq<Entry>)
    requires Extends(before, ins, e, isNew, before', ins')
    requires PairwiseDisjoint(ins') && NoneCovered(ins', AllKeys(Retained(before')))
    ensures PairwiseDisjoint(ins) && NoneCovered(ins, AllKeys(Retained(before)))
  {
    assert forall i :: 0 <= i < |ins| ==> ins'[i] == ins[i];
    assert forall x :: x in ins ==> x in ins';
    RetainedGrows(before, e);
    assert before + [] == before;
    StillNoneCovered(ins, AllKeys(Retained(before)), AllKeys(Retained(before')));
  }

  lemma {:induction false} OneMore(front: seq<Entry>, before: seq<Entry>, ins: seq<Entry>, e: Entry, isNew: bool,
                                   before': seq<Entry>, ins': seq<Entry>, known: set<string>)
    requires Extends(before, ins, e, isNew, before', ins')
    requires PairwiseDisjoint(ins') && NoneCovered(ins', AllKeys(Retained(before')))
    requires Merged(front, before, ins, known)
    ensures Merged(front + [e], before', ins', known)
  {
    assert before + [] == before && ins + [] == ins;
    if isNew {
      assert e in ins';
      LastAdded(front, ins, before, e, known);
    } else {
      LastKept(front, ins, before, e, known);
    }
  }

  lemma StillNoneCovered(s: seq<Entry>, known: set<string>, more: set<string>)
    requires known <= more
    ensures NoneCovered(s, more) ==> NoneCovered(s, known)
  {
    if NoneCovered(s, more) {
      forall e | e in s ensures !Covered(e.keys, known) {
        assert !Covered(e.keys, more);
      }
    }
  }

  lemma {:induction false} ResidueLast<T>(s: seq<T>, ok: seq<bool>)
    requires |ok| == |s| && s != []
    ensures var n := |s| - 1;
            && Residue(s, ok) == Residue(s[..n], ok[..n]) + (if ok[n] then [] else [s[n]])
            && Picked(s, ok) == Picked(s[..n], ok[..n]) + (if ok[n] then [s[n]] else [])
  {
    var n := |s| - 1;
    assert Negated(ok)[..n] == Negated(ok[..n]);
  }

  lemma {:induction false} RetainedGrows(s: seq<Entry>, e: Entry)
    ensures Retained(s + [e]) == if Covered(e.keys, AllKeys(Retained(s))) then Retained(s) else Retained(s) + [e]
    ensures AllKeys(Retained(s)) <= AllKeys(Retained(s + [e]))
  {
    assert (s + [e])[..|s|] == s;
    AllKeysSnoc(Retained(s), e);
  }

  lemma {:induction false} LackingSnoc(s: seq<Entry>, e: Entry, known: set<string>)
    ensures Lacking(s + [e], known) == if Covered(e.keys, known) then Lacking(s, known) else Lacking(s, known) + [e]
  {
    assert (s + [e])[..|s|] == s;
  }

  lemma {:induction false} LastAdded(front: seq<Entry>, ins: seq<Entry>, before: seq<Entry>, e: Entry,
                                     known: set<string>)
    requires PairwiseDisjoint(ins + [e]) && !Covered(e.keys, AllKeys(Retained(before)))
    requires Merged(front, before, ins, known)
    ensures Merged(front + [e], before, ins + [e], known)
  {
    NewMeetsNone(ins, e);
    assert !Covered(e.keys, AllKeys(Retained(before)) + AllKeys(ins));
    RetainedGrows(front, e);
    AllKeysSnoc(Retained(front), e);
    AllKeysSnoc(ins, e);
    if AllCovered(ins + [e], known) {
      CoveredParts(ins, e, known);
      LackingSnoc(Retained(front), e, known);
    }
  }

  lemma {:induction false} NewMeetsNone(ins: seq<Entry>, e: Entry)
    requires PairwiseDisjoint(ins + [e])
    ensures !Covered(e.keys, AllKeys(ins))
  {
    LastMeetsNone(ins + [e]);
    assert (ins + [e])[..|ins|] == ins;
  }

  lemma CoveredParts(ins: seq<Entry>, e: Entry, known: set<string>)
    requires AllCovered(ins + [e], known)
    ensures AllCovered(ins, known) && Covered(e.keys, known)
  {
    assert e in ins + [e] && forall x :: x in ins ==> x in ins + [e];
  }

  lemma {:induction false} LastKept(front: seq<Entry>, ins: seq<Entry>, before: seq<Entry>, e: Entry,
                                    known: set<string>)
    requires NoneCovered(ins, AllKeys(Retained(before + [e]))) && Merged(front, before, ins, known)
    ensures Merged(front + [e], before + [e], ins, known)
  {
    RetainedGrows(front, e);
    RetainedGrows(before, e);
    if Covered(e.keys, AllKeys(Retained(before))) {
      var k :| k in e.keys && k in AllKeys(Retained(before));
      assert k in AllKeys(Retained(front));
    } else {
      AllKeysSnoc(Retained(before), e);
      ApartFrom(ins, e, AllKeys(Retained(before) + [e]));
      assert !Covered(e.keys, AllKeys(Retained(front))) by {
        assert forall k :: k in e.keys ==> k in KeySet(e.keys);
      }
      BothGrow(Retained(front), Retained(before), ins, e, known);
    }
  }

  lemma {:induction false} BothGrow(s: seq<Entry>, t: seq<Entry>, ins: seq<Entry>, e: Entry, known: set<string>)
    requires AllKeys(s) == AllKeys(t) + AllKeys(ins)
    requires AllCovered(ins, known) ==> Lacking(s, known) == Lacking(t, known)
    ensures AllKeys(s + [e]) == AllKeys(t + [e]) + AllKeys(ins)
    ensures AllCovered(ins, known) ==> Lacking(s + [e], known) == Lacking(t + [e], known)
  {
    AllKeysSnoc(s, e);
    AllKeysSnoc(t, e);
    LackingSnoc(s, e, known);
    LackingSnoc(t, e, known);
  }

  /** Messages that none of the known keys covers have no key of a message whose keys are known. */
  lemma {:induction false} ApartFrom(ins: seq<Entry>, e: Entry, known: set<string>)
    requires NoneCovered(ins, known) && KeySet(e.keys) <= known
    ensures forall k :: k in AllKeys(ins) ==> k !in KeySet(e.keys)
  {
    forall k | k in AllKeys(ins) ensures k !in KeySet(e.keys) {
      var i := KeyOwner(ins, k);
      assert ins[i] in ins;
    }
  }

  /** What stands for part of a delta is disjoint, unknown at the destination, and known to the source. */
  lemma {:induction false} PairsFacts(src: seq<Entry>, dst: seq<Entry>, ok: seq<bool>, added: seq<Entry>, at: seq<nat>)
    requires |ok| == |Delta(src, dst)| && Pairs(added, Picked(Delta(src, dst), ok), at)
    ensures PairwiseDisjoint(added)
    ensures NoneCovered(added, AllKeys(Retained(dst))) && AllCovered(added, AllKeys(Retained(src)))
  {
    var delta, sent := Delta(src, dst), Picked(Delta(src, dst), ok);
    DeltaFacts(src, dst);
    PickedDisjoint(delta, ok);
    forall i, j | 0 <= i < j < |added| ensures KeySet(added[i].keys) !! KeySet(added[j].keys) {
      assert at[i] < at[j] || at[j] < at[i];
    }
    forall e | e in added
      ensures !Covered(e.keys, AllKeys(Retained(dst))) && Covered(e.keys, AllKeys(Retained(src)))
    {
      var i :| 0 <= i < |added| && added[i] == e;
      var m := sent[at[i]];
      assert m in sent && m in delta;
      PartSays(e, m, AllKeys(Retained(dst)));
      OwnerKeys(Retained(src), m);
      assert e.keys[0] in KeySet(e.keys);
    }
  }

  lemma PartSays(e: Entry, m: Entry, known: set<string>)
    requires PartOf(e, m) && !Covered(m.keys, known)
    ensures !Covered(e.keys, known)
  {
    forall k | k in e.keys ensures k !in known {
      assert k in KeySet(e.keys) && k in KeySet(m.keys);
    }
  }

  /** Of the delta, exactly the sent messages share a key with what stands for them. */
  lemma {:induction false} SentMeetAdded(s: seq<Entry>, ok: seq<bool>, added: seq<Entry>, at: seq<nat>, i: nat)
    requires |ok| == |s| && PairwiseDisjoint(s) && Pairs(added, Picked(s, ok), at) && i < |s|
    ensures Covered(s[i].keys, AllKeys(added)) <==> ok[i]
  {
    var sent := Picked(s, ok);
    if ok[i] {
      PickedHas(s, ok, i);
      var k :| 0 <= k < |sent| && sent[k] == s[i];
      assert Hit(at, k);
      var p :| 0 <= p < |at| && at[p] == k;
      OwnerKeys(added, added[p]);
      var key := added[p].keys[0];
      assert key in KeySet(added[p].keys) && key in KeySet(s[i].keys);
    } else {
      forall k | k in AllKeys(added) ensures k !in s[i].keys {
        var p := KeyOwner(added, k);
        assert k in KeySet(added[p].keys) && sent[at[p]] in sent;
        var j := PickedMember(s, ok, sent[at[p]]);
        OneOwner(s, i, j, k);
      }
    }
  }

  lemma {:induction false} RestIsLacking(src: seq<Entry>, dst: seq<Entry>, ok: seq<bool>, added: seq<Entry>,
                                         at: seq<nat>)
    requires |ok| == |Delta(src, dst)| && Pairs(added, Picked(Delta(src, dst), ok), at)
    ensures Lacking(Retained(src), AllKeys(Retained(dst)) + AllKeys(added)) == Residue(Delta(src, dst), ok)
  {
    var delta := Delta(src, dst);
    DeltaFacts(src, dst);
    LackingTwice(Retained(src), AllKeys(Retained(dst)), AllKeys(added));
    forall i | 0 <= i < |delta| ensures Covered(delta[i].keys, AllKeys(added)) <==> ok[i] {
      SentMeetAdded(delta, ok, added, at, i);
    }
    LackingByFlags(delta, ok, AllKeys(added));
  }

  lemma {:induction false} ResidueOneWay(a: seq<Entry>, b: seq<Entry>, okB: seq<bool>, okA: seq<bool>, a': seq<Entry>,
                                         b': seq<Entry>, addedA: seq<bool>, addedB: seq<bool>)
    requires |okB| == |Delta(a, b)| && |okA| == |Delta(b, a)|
    requires Grown(b, b', addedB, Picked(Delta(a, b), okB)) && Grown(a, a', addedA, Picked(Delta(b, a), okA))
    ensures Delta(a', b') == Residue(Delta(a, b), okB)
  {
    var toB, toA := Picked(b', addedB), Picked(a', addedA);
    var atB :| Pairs(toB, Picked(Delta(a, b), okB), atB);
    var atA :| Pairs(toA, Picked(Delta(b, a), okA), atA);
    PairsFacts(a, b, okB, toB, atB);
    PairsFacts(b, a, okA, toA, atA);
    AddedAreRetained(b', addedB, b, toB, {});
    var known := AllKeys(Retained(b'));
    CoveredMore(toA, AllKeys(Retained(b)), known);
    AddedAreRetained(a', addedA, a, toA, known);
    RestIsLacking(a, b, okB, toB, atB);
  }

  lemma CoveredMore(s: seq<Entry>, known: set<string>, more: set<string>)
    requires known <= more && AllCovered(s, known)
    ensures AllCovered(s, more)
  {
    forall e | e in s ensures Covered(e.keys, more) {
      var k :| k in e.keys && k in known;
      assert k in more;
    }
  }

  lemma {:induction false} PairsSize(added: seq<Entry>, sent: seq<Entry>)
    requires exists at :: Pairs(added, sent, at)
    ensures |added| == |sent|
  {
  }

  /** Exact residue: when exactly the flagged parts of both deltas arrive, each copy anywhere among the
      old messages and seen under any non-empty part of its source's keys, the next pass has
      exactly the unflagged parts to do, in the same order, and nothing bounces back. */
  lemma {:induction false} ExactResidue(a: seq<Entry>, b: seq<Entry>, okB: seq<bool>, okA: seq<bool>, a': seq<Entry>,
                                        b': seq<Entry>, addedA: seq<bool>, addedB: seq<bool>)
    requires |okB| == |Delta(a, b)| && |okA| == |Delta(b, a)|
    requires Grown(b, b', addedB, Picked(Delta(a, b), okB)) && Grown(a, a', addedA, Picked(Delta(b, a), okA))
    ensures Delta(a', b') == Residue(Delta(a, b), okB) && Delta(b', a') == Residue(Delta(b, a), okA)
    ensures |Delta(a', b')| + |Delta(b', a')|
            == |Delta(a, b)| + |Delta(b, a)| - |Picked(b', addedB)| - |Picked(a', addedA)|
  {
    ResidueOneWay(a, b, okB, okA, a', b', addedA, addedB);
    ResidueOneWay(b, a, okA, okB, b', a', addedB, addedA);
    PairsSize(Picked(b', addedB), Picked(Delta(a, b), okB));
    PairsSize(Picked(a', addedA), Picked(Delta(b, a), okA));
    PickedSizes(Delta(a, b), okB);
    PickedSizes(Delta(b, a), okA);
  }

  /** Copies appended at the end, each under a part of its source's keys, are one way to grow. */
  lemma {:induction false} AppendedGrows(old': seq<Entry>, copies: seq<Entry>, sent: seq<Entry>)
      returns (added: seq<bool>)
    requires |copies| == |sent| && forall i :: 0 <= i < |copies| ==> PartOf(copies[i], sent[i])
    ensures Grown(old', old' + copies, added, sent)
  {
    added := AllOf(|old'|, false) + AllOf(|copies|, true);
    AppendedFlags(old', copies);
    var at := seq(|sent|, (i: nat) => i);
    forall k | 0 <= k < |sent| ensures Hit(at, k) {
      assert at[k] == k;
    }
    assert Pairs(copies, sent, at);
  }

  function AllOf(n: nat, x: bool): seq<bool> {
    seq(n, i => x)
  }

  lemma {:induction false} AppendedFlags(old': seq<Entry>, copies: seq<Entry>)
    ensures var added := AllOf(|old'|, false) + AllOf(|copies|, true);
            Residue(old' + copies, added) == old' && Picked(old' + copies, added) == copies
  {
    var now, added := old' + copies, AllOf(|old'|, false) + AllOf(|copies|, true);
    if copies != [] {
      var n := |copies| - 1;
      AppendedFlags(old', copies[..n]);
      assert now[..|now| - 1] == old' + copies[..n];
      assert added[..|now| - 1] == AllOf(|old'|, false) + AllOf(n, true);
      ResidueLast(now, added);
    } else if old' != [] {
      var n := |old'| - 1;
      AppendedFlags(old'[..n], []);
      assert now[..n] == old'[..n] + [];
      assert added[..n] == AllOf(n, false) + AllOf(0, true);
      ResidueLast(now, added);
    }
  }

  // ---------------------------------------------------------------- small folders

  /** The delta between folders of two messages each. */
  lemma {:induction false} TwoDelta(p: Entry, q: Entry, r: Entry, t: Entry, known: set<string>)
    requires known == KeySet(r.keys) + if Covered(t.keys, KeySet(r.keys)) then {} else KeySet(t.keys)
    ensures Delta([p, q], [r, t])
            == (if Covered(p.keys, known) then [] else [p])
             + (if Covered(q.keys, KeySet(p.keys)) || Covered(q.keys, known) then [] else [q])
  {
    TwoRetained(r, t);
    TwoLacking(p, q, known);
    OneLacking(p, known);
    assert Retained([p, q]) == (if Covered(q.keys, KeySet(p.keys)) then [p] else [p, q]) by { TwoRetained(p, q); }
  }

  lemma {:induction false} TwoLacking(p: Entry, q: Entry, known: set<string>)
    ensures Lacking([p, q], known)
            == (if Covered(p.keys, known) then [] else [p]) + (if Covered(q.keys, known) then [] else [q])
  {
    LackingConcat([p], [q], known);
    OneLacking(p, known);
    OneLacking(q, known);
    assert [p] + [q] == [p, q];
  }

  lemma {:induction false} TwoRetained(x: Entry, y: Entry)
    ensures Retained([x, y]) == if Covered(y.keys, KeySet(x.keys)) then [x] else [x, y]
    ensures AllKeys(Retained([x, y]))
            == KeySet(x.keys) + if Covered(y.keys, KeySet(x.keys)) then {} else KeySet(y.keys)
  {
    AllKeysSnoc([], x);
    AllKeysSnoc([x], y);
    assert [] + [x] == [x] && [x] + [y] == [x, y];
    assert [x, y][..1] == [x] && [x][..0] == [];
    assert !Covered(x.keys, AllKeys([]));
    assert Retained([x]) == [x];
  }

  lemma {:induction false} OneLacking(x: Entry, known: set<string>)
    ensures Lacking([x], known) == if Covered(x.keys, known) then [] else [x]
  {
    assert [x][..0] == [];
  }

  lemma {:induction false} OneRetained(e: Entry)
    ensures Retained([e]) == [e] && AllKeys([e]) == KeySet(e.keys)
  {
    assert [e][..0] == [];
    assert !Covered(e.keys, AllKeys([]));
  }

  /** A message that all the others share a key with is retained alone. */
  lemma {:induction false} FirstOnly(e: Entry, rest: seq<Entry>)
    requires forall m :: m in rest ==> Covered(m.keys, KeySet(e.keys))
    ensures Retained([e] + rest) == [e] && AllKeys([e]) == KeySet(e.keys)
  {
    OneRetained(e);
    if rest == [] {
      assert [e] + rest == [e];
    } else {
      FirstOnly(e, rest[..|rest| - 1]);
      assert ([e] + rest)[..|rest|] == [e] + rest[..|rest| - 1];
      assert rest[|rest| - 1] in rest;
    }
  }

  lemma {:induction false} OneDelta(e: Entry, dst: seq<Entry>, known: set<string>)
    requires known == AllKeys(Retained(dst))
    ensures Delta([e], dst) == if Covered(e.keys, known) then [] else [e]
  {
    OneRetained(e);
    OneLacking(e, known);
  }

  /** A key of a dropped duplicate is in the folder but not in the index: the second message
      shares one key with the first, and what is looked up under its other key is sent again. */
  lemma {:induction false} DroppedKeyNotFound(x: Entry, y: Entry, z: Entry)
    requires x.keys == MatchKeysFrom("m", "", "x") && y.keys == MatchKeysFrom("m", "", "y")
    requires z.keys == MatchKeysFrom("", "", "y")
    ensures Covered(z.keys, AllKeys([x, y])) && !Covered(z.keys, AllKeys(Retained([x, y])))
    ensures Delta([z], [x, y]) == [z]
  {
    var m, hx, hy := "mid:" + "m", "hash:" + "x", "hash:" + "y";
    assert m[0] == 'm' && hx[0] == 'h' && hy[0] == 'h' && hx[5] == 'x' && hy[5] == 'y';
    PlainKeys("m", "x");
    PlainKeys("m", "y");
    DroppedKey(x, y, z, m, hx, hy);
  }

  lemma {:induction false} DroppedKey(x: Entry, y: Entry, z: Entry, m: string, hx: string, hy: string)
    requires m != hy && hx != hy && x.keys == [m, hx] && y.keys == [m, hy] && z.keys == [hy]
    ensures Covered(z.keys, AllKeys([x, y])) && !Covered(z.keys, AllKeys(Retained([x, y])))
    ensures Delta([z], [x, y]) == [z]
  {
    OwnerKeys([x, y], y);
    Covering(z.keys, AllKeys([x, y]), hy) by { assert hy in KeySet(y.keys); }
    Covering(y.keys, KeySet(x.keys), m);
    TwoRetained(x, y);
    OneDelta(z, [x, y], KeySet(x.keys));
  }

  lemma Covering(keys: seq<string>, known: set<string>, k: string)
    requires k in keys && k in known
    ensures Covered(keys, known)
  {
  }
}
