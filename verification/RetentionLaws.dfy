/** When the order in which a folder is listed does not matter. */
module OrderIndependence {
  import opened MatchKeys
  import opened Retention

  predicate Shares(x: Entry, y: Entry) {
    exists k :: k in x.keys && k in y.keys
  }

  /** Sharing a key is reflexive and symmetric on parsed messages; this adds transitivity. */
  ghost predicate SharingIsEquivalence(u: set<Entry>) {
    && (forall x :: x in u ==> x.keys != [])
    && (forall x, y, z :: x in u && y in u && z in u && Shares(x, y) && Shares(y, z) ==> Shares(x, z))
  }

  /** The messages of the universe that are the same message as `e`. */
  ghost function Class(u: set<Entry>, e: Entry): set<Entry> {
    set x | x in u && Shares(x, e)
  }

  ghost function Classes(u: set<Entry>, s: seq<Entry>): set<set<Entry>> {
    set e | e in s :: Class(u, e)
  }

  ghost predicate Within(u: set<Entry>, s: seq<Entry>) {
    forall e :: e in s ==> e in u
  }

  lemma {:induction false} SharesIffSameClass(u: set<Entry>, x: Entry, y: Entry)
    requires SharingIsEquivalence(u) && x in u && y in u
    ensures Shares(x, y) <==> Class(u, x) == Class(u, y)
  {
    assert x.keys[0] in x.keys;
    assert Shares(x, x);
    if Shares(x, y) {
      assert Shares(y, x);
      forall z | z in u ensures Shares(z, x) <==> Shares(z, y) {
      }
    } else {
      assert x in Class(u, x) && x !in Class(u, y);
    }
  }

  /** A message meets the keys of a list exactly if its class is represented there. */
  lemma {:induction false} CoveredIffClass(u: set<Entry>, s: seq<Entry>, e: Entry)
    requires SharingIsEquivalence(u) && Within(u, s) && e in u
    ensures Covered(e.keys, AllKeys(s)) <==> Class(u, e) in Classes(u, s)
  {
    if Covered(e.keys, AllKeys(s)) {
      var k :| k in e.keys && k in AllKeys(s);
      var i := KeyOwner(s, k);
      assert s[i] in s && Shares(e, s[i]);
      SharesIffSameClass(u, e, s[i]);
    }
    if Class(u, e) in Classes(u, s) {
      var x :| x in s && Class(u, x) == Class(u, e);
      SharesIffSameClass(u, e, x);
      var k :| k in e.keys && k in x.keys;
      OwnerKeys(s, x);
      assert k in KeySet(x.keys);
    }
  }

  lemma {:induction false} ClassesSnoc(u: set<Entry>, s: seq<Entry>, e: Entry)
    ensures Classes(u, s + [e]) == Classes(u, s) + {Class(u, e)}
  {
    forall c | c in Classes(u, s) + {Class(u, e)}
      ensures c in Classes(u, s + [e])
    {
      if c == Class(u, e) {
        assert e in s + [e];
      } else {
        var x :| x in s && Class(u, x) == c;
        assert x in s + [e];
      }
    }
  }

  /** Disjoint messages are all in different classes. */
  lemma {:induction false} DisjointClasses(u: set<Entry>, s: seq<Entry>)
    requires SharingIsEquivalence(u) && Within(u, s) && PairwiseDisjoint(s)
    ensures |Classes(u, s)| == |s|
  {
    if s == [] {
      assert Classes(u, s) == {};
    } else {
      var front, last := s[..|s| - 1], s[|s| - 1];
      assert s == front + [last];
      DisjointClasses(u, front);
      LastMeetsNone(s);
      CoveredIffClass(u, front, last);
      ClassesSnoc(u, front, last);
    }
  }

  /** The index retains one message of every class. */
  lemma {:induction false} RetainedClasses(u: set<Entry>, s: seq<Entry>)
    requires SharingIsEquivalence(u) && Within(u, s)
    ensures Classes(u, Retained(s)) == Classes(u, s)
    ensures |Retained(s)| == |Classes(u, s)|
  {
    RetainedIsPart(s);
    RetainedDisjoint(s);
    DisjointClasses(u, Retained(s));
    RetainedSameClasses(u, s);
  }

  lemma {:induction false} RetainedSameClasses(u: set<Entry>, s: seq<Entry>)
    requires SharingIsEquivalence(u) && Within(u, s)
    ensures Classes(u, Retained(s)) == Classes(u, s)
  {
    if s != [] {
      var front, last := s[..|s| - 1], s[|s| - 1];
      assert s == front + [last];
      RetainedSameClasses(u, front);
      RetainedIsPart(front);
      CoveredIffClass(u, Retained(front), last);
      ClassesSnoc(u, front, last);
      ClassesSnoc(u, Retained(front), last);
    }
  }

  /** The delta is one message of every class the destination lacks. */
  lemma {:induction false} DeltaClasses(u: set<Entry>, src: seq<Entry>, dst: seq<Entry>)
    requires SharingIsEquivalence(u) && Within(u, src) && Within(u, dst)
    ensures Classes(u, Delta(src, dst)) == Classes(u, src) - Classes(u, dst)
    ensures |Delta(src, dst)| == |Classes(u, src) - Classes(u, dst)|
  {
    DeltaFacts(src, dst);
    DisjointClasses(u, Delta(src, dst));
    RetainedSameClasses(u, src);
    RetainedSameClasses(u, dst);
    RetainedIsPart(src);
    RetainedIsPart(dst);
    forall e | e in Retained(src)
      ensures Covered(e.keys, AllKeys(Retained(dst))) <==> Class(u, e) in Classes(u, dst)
    {
      CoveredIffClass(u, Retained(dst), e);
    }
    forall c | c in Classes(u, src) - Classes(u, dst)
      ensures c in Classes(u, Delta(src, dst))
    {
      var e :| e in Retained(src) && Class(u, e) == c;
      assert e in Delta(src, dst);
    }
  }

  /** Order independence: if sharing a key is an equivalence on the messages of both folders,
      listing the folders in any other order gives indexes of the same size, the same number
      of duplicates and deltas of the same size that carry the same classes. */
  lemma {:induction false} AnyOrderSameDelta(u: set<Entry>, a: seq<Entry>, a': seq<Entry>,
                                             b: seq<Entry>, b': seq<Entry>)
    requires multiset(a) == multiset(a') && multiset(b) == multiset(b')
    requires SharingIsEquivalence(u) && Within(u, a) && Within(u, b)
    ensures |Retained(a)| == |Retained(a')| == |Classes(u, a)|
    ensures |a| - |Retained(a)| == |a'| - |Retained(a')|
    ensures Classes(u, Delta(a, b)) == Classes(u, Delta(a', b')) == Classes(u, a) - Classes(u, b)
    ensures |Delta(a, b)| == |Delta(a', b')|
  {
    SameClasses(u, a, a');
    SameClasses(u, b, b');
    RetainedClasses(u, a);
    RetainedClasses(u, a');
    DeltaClasses(u, a, b);
    DeltaClasses(u, a', b');
  }

  lemma {:induction false} SameClasses(u: set<Entry>, s: seq<Entry>, t: seq<Entry>)
    requires multiset(s) == multiset(t) && Within(u, s)
    ensures Within(u, t) && Classes(u, s) == Classes(u, t) && |s| == |t|
  {
    SameMembers(s, t);
    assert |multiset(s)| == |s| && |multiset(t)| == |t|;
  }

  lemma {:induction false} SameMembers<T>(s: seq<T>, t: seq<T>)
    requires multiset(s) == multiset(t)
    ensures forall x :: x in s <==> x in t
  {
    forall x ensures x in s <==> x in t {
      assert x in s <==> x in multiset(s);
      assert x in t <==> x in multiset(t);
    }
  }
}

/** A Message-ID that appears on a message after it was copied. */
module LateMessageID {
  import opened MatchKeys
  import opened Retention

  /** The keys the index holds after the first `n` messages. */
  function IndexKeys(s: seq<Entry>, n: nat): set<string>
    requires n <= |s|
    decreases n, 0
  {
    if n == 0 then {}
    else IndexKeys(s, n - 1) + if Kept(s, n - 1) then KeySet(s[n - 1].keys) else {}
  }

  /** Whether the index keeps the message at position `i`. */
  predicate Kept(s: seq<Entry>, i: nat)
    requires i < |s|
    decreases i, 1
  {
    !Covered(s[i].keys, IndexKeys(s, i))
  }

  lemma {:induction false} PrefixStep(s: seq<Entry>, n: nat, kept: seq<Entry>)
    requires n < |s| && kept == Retained(s[..n])
    ensures Retained(s[..n + 1]) == if Covered(s[n].keys, AllKeys(kept)) then kept else kept + [s[n]]
  {
    assert s[..n + 1][..n] == s[..n];
  }

  function KeptUpTo(s: seq<Entry>, n: nat): seq<Entry>
    requires n <= |s|
  {
    if n == 0 then []
    else if Kept(s, n - 1) then KeptUpTo(s, n - 1) + [s[n - 1]]
    else KeptUpTo(s, n - 1)
  }

  lemma {:induction false} KeptAreRetained(s: seq<Entry>, n: nat)
    requires n <= |s|
    ensures KeptUpTo(s, n) == Retained(s[..n])
    ensures IndexKeys(s, n) == AllKeys(KeptUpTo(s, n))
  {
    if n > 0 {
      KeptAreRetained(s, n - 1);
      PrefixStep(s, n - 1, KeptUpTo(s, n - 1));
      AllKeysSnoc(KeptUpTo(s, n - 1), s[n - 1]);
    }
  }

  lemma {:induction false} KeptMembers(s: seq<Entry>, n: nat)
    requires n <= |s|
    ensures forall e :: e in KeptUpTo(s, n) ==> exists i :: 0 <= i < n && Kept(s, i) && s[i] == e
    ensures forall i :: 0 <= i < n && Kept(s, i) ==> s[i] in KeptUpTo(s, n)
  {
    if n > 0 {
      KeptMembers(s, n - 1);
    }
  }

  function Gain(s: seq<Entry>, j: nat, k: string): seq<Entry>
    requires j < |s|
  {
    s[j := s[j].(keys := [k] + s[j].keys)]
  }

  /** Retention is the same position by position. */
  ghost predicate SameRetention(s: seq<Entry>, t: seq<Entry>)
    requires |s| == |t|
  {
    forall i :: 0 <= i < |s| ==> (Kept(s, i) <==> Kept(t, i))
  }

  /** The new key is harmless: its owner is a dropped duplicate, or no other kept message
      already has it. */
  ghost predicate Harmless(s: seq<Entry>, j: nat, k: string)
    requires j < |s|
  {
    !Kept(s, j) || forall i :: 0 <= i < |s| && i != j && Kept(s, i) ==> k !in s[i].keys
  }

  lemma {:induction false} KeptKeysStay(s: seq<Entry>, i: nat, n: nat)
    requires i < n <= |s| && Kept(s, i)
    ensures KeySet(s[i].keys) <= IndexKeys(s, n)
  {
    if i < n - 1 {
      KeptKeysStay(s, i, n - 1);
    }
  }

  /** If no kept message other than `j` has the key, no prefix up to `j` holds it. */
  lemma {:induction false} NoneHas(s: seq<Entry>, j: nat, k: string, n: nat)
    requires n <= j < |s|
    requires forall i :: 0 <= i < |s| && i != j && Kept(s, i) ==> k !in s[i].keys
    ensures k !in IndexKeys(s, n)
  {
    if n > 0 {
      NoneHas(s, j, k, n - 1);
    }
  }

  /** A harmless key changes the index keys by itself at most, and no decision. */
  lemma {:induction false} PrefixAgrees(s: seq<Entry>, j: nat, k: string, n: nat)
    requires j < |s| && n <= |s| && Harmless(s, j, k)
    ensures IndexKeys(Gain(s, j, k), n) == IndexKeys(s, n) + if j < n && Kept(s, j) then {k} else {}
    ensures n < |s| ==> (Kept(s, n) <==> Kept(Gain(s, j, k), n))
  {
    if n > 0 {
      PrefixAgrees(s, j, k, n - 1);
      assert KeySet(Gain(s, j, k)[j].keys) == KeySet(s[j].keys) + {k};
    }
    if n == j && Kept(s, j) {
      NoneHas(s, j, k, j);
    }
  }

  /** Retention is unchanged if and only if the new key is harmless. */
  lemma {:induction false} RetentionUnchangedIff(s: seq<Entry>, j: nat, k: string)
    requires j < |s|
    ensures SameRetention(s, Gain(s, j, k)) <==> Harmless(s, j, k)
  {
    var t := Gain(s, j, k);
    if Harmless(s, j, k) {
      forall i | 0 <= i < |s| ensures Kept(s, i) <==> Kept(t, i) {
        PrefixAgrees(s, j, k, i);
      }
    }
    if SameRetention(s, t) && Kept(s, j) {
      forall i | 0 <= i < |s| && i != j && Kept(s, i)
        ensures k !in s[i].keys
      {
        assert Kept(t, i) && Kept(t, j) && k in KeySet(t[j].keys);
        if i < j {
          KeptKeysStay(t, i, j);
          assert k !in KeySet(t[i].keys);
        } else {
          KeptKeysStay(t, j, i);
        }
      }
    }
  }

  /** After a harmless gain the index still knows what it knew, and whatever covered the kept
      messages before still covers them. */
  lemma {:induction false} GainKeepsCover(s: seq<Entry>, j: nat, k: string, known: set<string>)
    requires j < |s| && Harmless(s, j, k)
    ensures AllKeys(Retained(s)) <= AllKeys(Retained(Gain(s, j, k)))
    ensures (forall e :: e in Retained(s) ==> Covered(e.keys, known))
            ==> (forall e :: e in Retained(Gain(s, j, k)) ==> Covered(e.keys, known))
  {
    var t := Gain(s, j, k);
    RetentionUnchangedIff(s, j, k);
    PrefixAgrees(s, j, k, |s|);
    KeptAreRetained(s, |s|);
    KeptAreRetained(t, |t|);
    assert s[..|s|] == s && t[..|t|] == t;
    if forall e :: e in Retained(s) ==> Covered(e.keys, known) {
      KeptMembers(s, |s|);
      KeptMembers(t, |t|);
      forall e | e in KeptUpTo(t, |t|)
        ensures Covered(e.keys, known)
      {
        var i :| 0 <= i < |t| && Kept(t, i) && t[i] == e;
        assert s[i] in KeptUpTo(s, |s|);
        var key :| key in s[i].keys && key in known;
        assert key in t[i].keys;
      }
    }
  }

  /** Late Message-ID stability: if neither side has anything to send and a message gains a
      harmless key, neither side has anything to send. */
  lemma {:induction false} LateKeyKeepsDeltasEmpty(s: seq<Entry>, other: seq<Entry>, j: nat, k: string)
    requires j < |s| && Harmless(s, j, k)
    requires Delta(s, other) == [] && Delta(other, s) == []
    ensures Delta(Gain(s, j, k), other) == [] && Delta(other, Gain(s, j, k)) == []
  {
    GainKeepsCover(s, j, k, AllKeys(Retained(other)));
    EmptyIffCovered(Retained(s), AllKeys(Retained(other)));
    EmptyIffCovered(Retained(Gain(s, j, k)), AllKeys(Retained(other)));
    EmptyIffCovered(Retained(other), AllKeys(Retained(s)));
    EmptyIffCovered(Retained(other), AllKeys(Retained(Gain(s, j, k))));
  }

  lemma {:induction false} EmptyIffCovered(s: seq<Entry>, known: set<string>)
    ensures Lacking(s, known) == [] <==> forall e :: e in s ==> Covered(e.keys, known)
  {
    if s != [] {
      EmptyIffCovered(s[..|s| - 1], known);
      assert s == s[..|s| - 1] + [s[|s| - 1]];
    }
  }

  // ---------------------------------------------------------------- exactly when

  /** Both deltas are empty. */
  predicate InStep(s: seq<Entry>, other: seq<Entry>) {
    Delta(s, other) == [] && Delta(other, s) == []
  }

  /** Whatever was in step with s is in step with t. */
  ghost predicate KeepsStep(s: seq<Entry>, t: seq<Entry>) {
    forall other :: Keyed(other) && InStep(s, other) ==> InStep(t, other)
  }

  /** One message per key, each with that key alone. */
  function Singles(keys: seq<string>): seq<Entry> {
    if keys == [] then []
    else Singles(keys[..|keys| - 1]) + [Entry("", [], 0, "", "", [keys[|keys| - 1]])]
  }

  /** One key of every message. */
  predicate Chosen(keys: seq<string>, s: seq<Entry>) {
    |keys| == |s| && forall i :: 0 <= i < |s| ==> keys[i] in s[i].keys
  }

  lemma {:induction false} SinglesFacts(keys: seq<string>)
    ensures |Singles(keys)| == |keys| && forall i :: 0 <= i < |keys| ==> Singles(keys)[i].keys == [keys[i]]
  {
    if keys != [] {
      SinglesFacts(keys[..|keys| - 1]);
    }
  }

  lemma {:induction false} SinglesKeys(keys: seq<string>)
    ensures AllKeys(Singles(keys)) == KeySet(keys)
  {
    if keys != [] {
      var front, last := keys[..|keys| - 1], keys[|keys| - 1];
      SinglesKeys(front);
      AllKeysSnoc(Singles(front), Entry("", [], 0, "", "", [last]));
      assert keys == front + [last];
    }
  }

  /** Chosen from disjoint messages, the keys are all different and all retained. */
  lemma {:induction false} SinglesRetained(keys: seq<string>, s: seq<Entry>)
    requires PairwiseDisjoint(s) && Chosen(keys, s)
    ensures Retained(Singles(keys)) == Singles(keys)
  {
    if keys != [] {
      var n := |keys| - 1;
      SinglesRetained(keys[..n], s[..n]);
      SinglesKeys(keys[..n]);
      assert keys[n] !in keys[..n] by {
        forall i | 0 <= i < n ensures keys[i] != keys[n] {
          assert keys[i] in KeySet(s[i].keys) && keys[n] in KeySet(s[n].keys);
        }
      }
      RetainedStep(Singles(keys[..n]), Entry("", [], 0, "", "", [keys[n]]), Singles(keys[..n]));
    }
  }

  /** Both deltas are empty exactly if each side knows a key of everything the other retains. */
  lemma {:induction false} InStepIff(s: seq<Entry>, other: seq<Entry>)
    ensures InStep(s, other)
            <==> && (forall e :: e in Retained(s) ==> Covered(e.keys, AllKeys(Retained(other))))
                 && (forall e :: e in Retained(other) ==> Covered(e.keys, AllKeys(Retained(s))))
  {
    EmptyIffCovered(Retained(s), AllKeys(Retained(other)));
    EmptyIffCovered(Retained(other), AllKeys(Retained(s)));
  }

  lemma {:induction false} ChosenCover(s: seq<Entry>, keys: seq<string>, e: Entry)
    requires Chosen(keys, s) && e in s
    ensures Covered(e.keys, KeySet(keys))
  {
    var i :| 0 <= i < |s| && s[i] == e;
    Covering(e.keys, KeySet(keys), keys[i]);
  }

  lemma {:induction false} ChosenCovered(s: seq<Entry>, keys: seq<string>, e: Entry)
    requires Chosen(keys, s) && e in Singles(keys)
    ensures e.keys != [] && Covered(e.keys, AllKeys(s))
  {
    SinglesFacts(keys);
    var i :| 0 <= i < |keys| && Singles(keys)[i] == e;
    OwnerKeys(s, s[i]);
    assert keys[i] in KeySet(s[i].keys);
    Covering(e.keys, AllKeys(s), keys[i]);
  }

  /** A folder thinned out to one key per retained message is in step with the folder. */
  lemma {:induction false} ThinnedInStep(s: seq<Entry>, keys: seq<string>, other: seq<Entry>)
    requires Chosen(keys, Retained(s)) && other == Singles(keys)
    ensures InStep(s, other) && Keyed(other) && Retained(other) == other && AllKeys(other) == KeySet(keys)
  {
    RetainedDisjoint(s);
    SinglesRetained(keys, Retained(s));
    SinglesKeys(keys);
    forall e | e in Retained(s) ensures Covered(e.keys, KeySet(keys)) {
      ChosenCover(Retained(s), keys, e);
    }
    forall e | e in other ensures e.keys != [] && Covered(e.keys, AllKeys(Retained(s))) {
      ChosenCovered(Retained(s), keys, e);
    }
    InStepIff(s, other);
  }

  /** The condition: the new index knows every key the old one knew, and everything it retains has
      all the keys of something retained before. */
  ghost predicate NoLoss(s: seq<Entry>, t: seq<Entry>) {
    && AllKeys(Retained(s)) <= AllKeys(Retained(t))
    && forall e :: e in Retained(t) ==> Includes(Retained(s), e)
  }

  ghost predicate Includes(kept: seq<Entry>, e: Entry) {
    exists r :: r in kept && KeySet(r.keys) <= KeySet(e.keys)
  }

  lemma {:induction false} NoLossKeepsStep(s: seq<Entry>, t: seq<Entry>, other: seq<Entry>)
    requires NoLoss(s, t) && InStep(s, other)
    ensures InStep(t, other)
  {
    var known := AllKeys(Retained(other));
    InStepIff(s, other);
    InStepIff(t, other);
    forall e | e in Retained(t) ensures Covered(e.keys, known) {
      assert Includes(Retained(s), e);
      var r :| r in Retained(s) && KeySet(r.keys) <= KeySet(e.keys);
      var k :| k in r.keys && k in known;
      assert k in KeySet(r.keys);
      Covering(e.keys, known, k);
    }
  }

  /** A choice of keys that goes through a given key ... */
  lemma {:induction false} ChooseThrough(s: seq<Entry>, j: nat, k: string) returns (keys: seq<string>)
    requires Keyed(s) && j < |s| && k in s[j].keys
    ensures Chosen(keys, s) && keys[j] == k
  {
    keys := seq(|s|, i requires 0 <= i < |s| => if i == j then k else if s[i].keys != [] then s[i].keys[0] else "");
    forall i | 0 <= i < |s| ensures keys[i] in s[i].keys {
      assert s[i] in s;
    }
  }

  /** ... and one that avoids a message that includes none of them. */
  lemma {:induction false} ChooseAround(s: seq<Entry>, e: Entry) returns (keys: seq<string>)
    requires forall i :: 0 <= i < |s| ==> !(KeySet(s[i].keys) <= KeySet(e.keys))
    ensures Chosen(keys, s) && forall k :: k in keys ==> k !in e.keys
  {
    if s == [] {
      keys := [];
    } else {
      var front := ChooseAround(s[..|s| - 1], e);
      var k :| k in KeySet(s[|s| - 1].keys) && k !in KeySet(e.keys);
      keys := front + [k];
    }
  }

  lemma {:induction false} KeepsStepKeys(s: seq<Entry>, t: seq<Entry>, k: string)
    requires Keyed(s) && KeepsStep(s, t) && k in AllKeys(Retained(s))
    ensures k in AllKeys(Retained(t))
  {
    var kept := Retained(s);
    RetainedIsPart(s);
    var j := KeyOwner(kept, k);
    var keys := ChooseThrough(kept, j, k);
    var other := Singles(keys);
    ThinnedInStep(s, keys, other);
    InStepIff(t, other);
    SinglesFacts(keys);
    var e := other[j];
    assert e in other && e.keys == [k];
  }

  lemma {:induction false} KeepsStepIncludes(s: seq<Entry>, t: seq<Entry>, e: Entry)
    requires Keyed(s) && KeepsStep(s, t) && e in Retained(t)
    ensures Includes(Retained(s), e)
  {
    var kept := Retained(s);
    if !Includes(kept, e) {
      forall i | 0 <= i < |kept| ensures !(KeySet(kept[i].keys) <= KeySet(e.keys)) {
        assert kept[i] in kept;
      }
      var keys := ChooseAround(kept, e);
      ThinnedInStep(s, keys, Singles(keys));
      InStepIff(t, Singles(keys));
    }
  }

  /** Changing a folder from s to t causes no copying against any folder that was in step, if and
      only if nothing is lost in that sense. */
  lemma {:induction false} KeepsStepIff(s: seq<Entry>, t: seq<Entry>)
    requires Keyed(s)
    ensures KeepsStep(s, t) <==> NoLoss(s, t)
  {
    if NoLoss(s, t) {
      forall other | Keyed(other) && InStep(s, other) ensures InStep(t, other) {
        NoLossKeepsStep(s, t, other);
      }
    }
    if KeepsStep(s, t) {
      forall k | k in AllKeys(Retained(s)) ensures k in AllKeys(Retained(t)) {
        KeepsStepKeys(s, t, k);
      }
      forall e | e in Retained(t) ensures Includes(Retained(s), e) {
        KeepsStepIncludes(s, t, e);
      }
    }
  }

  /** A harmless key loses nothing. */
  lemma {:induction false} HarmlessLosesNothing(s: seq<Entry>, j: nat, k: string)
    requires Keyed(s) && j < |s| && Harmless(s, j, k)
    ensures NoLoss(s, Gain(s, j, k))
  {
    forall other | Keyed(other) && InStep(s, other) ensures InStep(Gain(s, j, k), other) {
      LateKeyKeepsDeltasEmpty(s, other, j, k);
    }
    KeepsStepIff(s, Gain(s, j, k));
  }

  /** Exactly when a Message-ID that appears later causes no re-copy; one that no other kept message
      has causes none. */
  lemma {:induction false} LateMessageIDNoRecopyIff(s: seq<Entry>, j: nat, mid: string, hash: string)
    requires Keyed(s) && j < |s| && mid != "" && s[j].keys == MatchKeysFrom("", hash, s[j].surrogate)
    ensures var t := s[j := s[j].(keys := MatchKeysFrom(mid, hash, s[j].surrogate))];
            (KeepsStep(s, t) <==> NoLoss(s, t)) && (Harmless(s, j, "mid:" + mid) ==> NoLoss(s, t))
  {
    LateMessageIDAddsOneKey(mid, hash, s[j].surrogate);
    assert s[j := s[j].(keys := MatchKeysFrom(mid, hash, s[j].surrogate))] == Gain(s, j, "mid:" + mid);
    KeepsStepIff(s, Gain(s, j, "mid:" + mid));
    if Harmless(s, j, "mid:" + mid) {
      HarmlessLosesNothing(s, j, "mid:" + mid);
    }
  }

  /** The same, as the README words it: a message without Message-ID gets one that no other
      message of its folder carries. */
  lemma {:induction false} LateMessageIDCausesNoRecopy(s: seq<Entry>, other: seq<Entry>, j: nat,
                                                       mid: string, hash: string)
    requires j < |s| && mid != ""
    requires s[j].keys == MatchKeysFrom("", hash, s[j].surrogate)
    requires forall i :: 0 <= i < |s| && i != j ==> "mid:" + mid !in s[i].keys
    requires Delta(s, other) == [] && Delta(other, s) == []
    ensures var t := s[j := s[j].(keys := MatchKeysFrom(mid, hash, s[j].surrogate))];
            Delta(t, other) == [] && Delta(other, t) == []
  {
    LateMessageIDAddsOneKey(mid, hash, s[j].surrogate);
    LateKeyKeepsDeltasEmpty(s, other, j, "mid:" + mid);
  }

  /** Without that condition the promise fails: here the message that gains the identifier "m"
      is listed before another one that has it, the later one is dropped from the index, and
      what the other side holds of the later one is sent back. */
  lemma {:induction false} SharedLateMessageIDCausesRecopy(x: Entry, y: Entry, y': Entry)
    requires x.keys == MatchKeysFrom("", "", "x")
    requires y.keys == MatchKeysFrom("m", "", "y") && y'.keys == MatchKeysFrom("", "", "y")
    ensures Delta([x, y], [x, y']) == [] && Delta([x, y'], [x, y]) == []
    ensures Delta([x, y'], [x.(keys := MatchKeysFrom("m", "", "x")), y]) == [y']
  {
    var m, hx, hy := "mid:" + "m", "hash:" + "x", "hash:" + "y";
    PlainKeys("m", "x");
    PlainKeys("m", "y");
    assert m[0] == 'm' && hx[0] == 'h' && hx[5] == 'x' && hy[0] == 'h' && hy[5] == 'y';
    SentBack(x, x.(keys := MatchKeysFrom("m", "", "x")), y, y', m, hx, hy);
  }

  lemma {:induction false} SentBack(x: Entry, x': Entry, y: Entry, y': Entry, m: string, hx: string, hy: string)
    requires m != hx && m != hy && hx != hy
    requires x.keys == [hx] && x'.keys == [m, hx] && y.keys == [m, hy] && y'.keys == [hy]
    ensures Delta([x, y], [x, y']) == [] && Delta([x, y'], [x, y]) == []
    ensures Delta([x, y'], [x', y]) == [y']
  {
    assert hx in x.keys && m in x'.keys && m in y.keys && hy in y.keys && hy in y'.keys;
    TwoDelta(x, y, x, y', {hx, hy});
    TwoDelta(x, y', x, y, {hx, m, hy});
    TwoDelta(x, y', x', y, {m, hx});
  }

}
