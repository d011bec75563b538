/** When a copy can travel back, and again. With the state cache on, the row written for a copy
    stores the surrogate as its tag, so the index may see the copy under fewer keys than its
    source, and a rescan of one side later shows all of them there. */
module Bounce {
  import opened MatchKeys
  import opened Retention
  import opened SyncRuns

  /** Whatever else the source's folder holds and however it is listed, the copy is known
      there if and only if it is seen under every key of its source. */
  lemma {:induction false} NeverSentBackIff(m: Entry, c: Entry)
    requires m.keys != []
    ensures (forall a: seq<Entry> :: Keyed(a) && m in a ==> Covered(c.keys, AllKeys(Retained(a))))
            <==> KeySet(m.keys) <= KeySet(c.keys)
  {
    if KeySet(m.keys) <= KeySet(c.keys) {
      forall a: seq<Entry> | Keyed(a) && m in a
        ensures Covered(c.keys, AllKeys(Retained(a)))
      {
        Coverage(a, m);
        var k :| k in m.keys && k in AllKeys(Retained(a));
        assert k in KeySet(c.keys);
      }
    } else {
      var k :| k in m.keys && k !in KeySet(c.keys);
      var x := Entry("", [], 0, "", "", [k]);
      TwoRetained(x, m);
      assert Covered(m.keys, KeySet(x.keys)) by { assert k in x.keys; }
      var a := [x, m];
      assert Keyed(a) && m in a && !Covered(c.keys, AllKeys(Retained(a)));
    }
  }

  /** For the row the synchronizer writes, that is: if and only if the source carried no tag, or
      a tag equal to its surrogate. */
  lemma {:induction false} CachedCopyStaysIff(m: Entry, c: Entry, messageID: string, tag: string, surrogate: string)
    requires m.keys == MatchKeysFrom(messageID, tag, surrogate)
    requires c.keys == MatchKeysFrom(messageID, surrogate, surrogate)
    ensures (forall a: seq<Entry> :: Keyed(a) && m in a ==> Covered(c.keys, AllKeys(Retained(a))))
            <==> (tag == "" || tag == surrogate)
  {
    NeverSentBackIff(m, c);
    CopyRowKeysIff(messageID, tag, surrogate);
  }

  // ---------------------------------------------------------------- a run that sends a copy twice

  /** The message of the run, under an ID of the given folder. */
  function Mail(id: string, mid: string, tag: string, sur: string): Entry {
    Entry(id, [], 0, mid, sur, MatchKeysFrom(mid, tag, sur))
  }

  /** Another message that happens to carry the same tag. */
  function Rival(tag: string, sur: string): Entry {
    Mail("10", "", tag, sur + "'")
  }

  /** How the cache row shows the copy. */
  function RowView(mid: string, sur: string): Entry {
    Mail("1", mid, sur, sur)
  }

  lemma {:induction false} RivalKeys(mid: string, tag: string, sur: string)
    requires tag != "" && tag != sur
    ensures var x, row := Rival(tag, sur), RowView(mid, sur);
            && (forall id :: Covered(Mail(id, mid, tag, sur).keys, KeySet(x.keys)))
            && !Covered(row.keys, KeySet(x.keys)) && !Covered(x.keys, KeySet(row.keys))
  {
    var x, row := Rival(tag, sur), RowView(mid, sur);
    var t, u, s, i := "hash:" + tag, "hash:" + (sur + "'"), "hash:" + sur, "mid:" + mid;
    HashInjective(tag, sur);
    assert |u| == |s| + 1;
    assert i[0] == 'm' && t[0] == 'h' && u[0] == 'h';
    forall id ensures Covered(Mail(id, mid, tag, sur).keys, KeySet(x.keys)) {
      assert t in Mail(id, mid, tag, sur).keys && t in x.keys;
    }
  }

  lemma HashInjective(s: string, t: string)
    requires s != t
    ensures "hash:" + s != "hash:" + t
  {
    assert ("hash:" + s)[5..] == s && ("hash:" + t)[5..] == t;
  }

  lemma {:induction false} RivalWins(x: Entry, rest: seq<Entry>, row: Entry)
    requires forall m :: m in rest ==> Covered(m.keys, KeySet(x.keys))
    requires !Covered(row.keys, KeySet(x.keys)) && !Covered(x.keys, KeySet(row.keys))
    ensures Delta([x] + rest, [row]) == [x] && Delta([row], [x] + rest) == [row]
  {
    FirstOnly(x, rest);
    OneRetained(row);
    OneDelta(row, [x] + rest, KeySet(x.keys));
    OneLacking(x, KeySet(row.keys));
  }

  lemma {:induction false} RowIsView(mid: string, tag: string, sur: string)
    ensures IsView(RowView(mid, sur), Mail("1", mid, tag, sur), true, Rows)
    ensures forall id, other :: IsCopy(Mail(id, mid, tag, sur), Mail(other, mid, tag, sur), Rows)
    ensures forall id, copy :: IsView(Mail(id, mid, tag, sur), Mail(id, mid, tag, sur), copy, Rows)
  {
    CopyRowKeysIff(mid, tag, sur);
    var keys := MatchKeysFrom(mid, tag, sur);
    assert keys[0] in KeySet(keys);
    assert MatchKeysFrom(mid, sur, sur)[0] in KeySet(MatchKeysFrom(mid, sur, sur));
  }

  lemma {:induction false} PickedOne<T>(x: T)
    ensures Picked([x], [true]) == [x] && Picked([x], [false]) == []
  {
    assert [x][..0] == [];
  }

  lemma {:induction false} OneListed(v: Entry, m: Entry, copies: set<string>, mode: Mode)
    requires IsView(v, m, m.id in copies, mode)
    ensures Lists([v], [m], copies, mode)
  {
    assert Ids([v]) == {v.id} by { assert v in [v]; }
    assert Ids([m]) == {m.id} by { assert m in [m]; }
  }

  lemma {:induction false} OneSent(src: seq<Entry>, dst: seq<Entry>, v: Entry, m: Entry, c: Entry, mode: Mode)
    requires UniqueIds(src) && m in src && v.id == m.id && IsCopy(c, m, mode) && c.id !in Ids(dst)
    ensures Sends(src, dst, [v], [c], mode) && Sends(dst, src, [], [], mode)
  {
    assert Ids([c]) == {c.id} by { assert c in [c]; }
    assert Ids([]) == {};
    forall m' | m' in src && m'.id == v.id ensures m' == m {
      SameId(src, m, m');
    }
  }

  lemma {:induction false} OneLogged(log: map<string, string>, v: Entry, c: Entry)
    requires c.id !in log
    ensures Logs(log, log[c.id := v.id], [c], [v])
  {
    assert Ids([c]) == {c.id} by { assert c in [c]; }
  }

  lemma {:induction false} NoneLogged(log: map<string, string>)
    ensures Logs(log, log, [], [])
  {
    assert Ids([]) == {};
  }

  lemma {:induction false} PassReaches(s: System, e: Event, dB: seq<Entry>, dA: seq<Entry>, pickedB: seq<Entry>,
                                       pickedA: seq<Entry>, s': System, mode: Mode)
    requires Reached(s, mode, false)
    requires e.Pass? && dB == Delta(e.listA, e.listB) && dA == Delta(e.listB, e.listA)
    requires Lists(e.listA, s.a, s.toA.Keys, mode) && Lists(e.listB, s.b, s.toB.Keys, mode)
    requires |e.okB| == |dB| && |e.okA| == |dA| && pickedB == Picked(dB, e.okB) && pickedA == Picked(dA, e.okA)
    requires Copied(s, pickedB, pickedA, e.copiesB, e.copiesA, s', mode)
    ensures Reached(s', mode, false)
  {
    ReachedNext(s, e, s', mode, false);
  }

  lemma {:induction false} DeliveryReaches(s: System, m: Entry, s': System, mode: Mode)
    requires Reached(s, mode, false) && m.keys != [] && m.id !in Ids(s.a)
    requires s' == s.(a := s.a + [m], deliveries := s.deliveries + 1)
    ensures Reached(s', mode, false)
  {
    ReachedNext(s, DeliverA(m), s', mode, false);
  }

  lemma {:induction false} BackCopied(s: System, row: Entry, c: Entry, n: Entry, s': System)
    requires s.b == [c] && row.id == c.id && IsCopy(n, c, Rows) && n.id !in Ids(s.a) && n.id !in s.toA
    requires s' == s.(a := s.a + [n], toA := s.toA[n.id := c.id], appends := s.appends + 1)
    ensures Copied(s, [], [row], [], [n], s', Rows)
  {
    OneSent(s.b, s.a, row, c, n, Rows);
    OneLogged(s.toA, row, n);
    NoneLogged(s.toB);
  }

  lemma {:induction false} ForthCopied(s: System, m: Entry, c: Entry, s': System)
    requires s.a == [m] && s.b == [] && IsCopy(c, m, Rows) && c.id !in s.toB
    requires s' == s.(b := s.b + [c], toB := s.toB[c.id := m.id], appends := s.appends + 1)
    ensures Copied(s, [m], [], [c], [], s', Rows)
  {
    assert Ids([]) == {};
    OneSent(s.a, s.b, m, m, c, Rows);
    OneLogged(s.toB, m, c);
    NoneLogged(s.toA);
  }

  /** A pass that copies the only message of A. */
  lemma {:induction false} FirstPass(s: System, m: Entry, c: Entry, listB: seq<Entry>, s': System)
    requires Reached(s, Rows, false) && s.a == [m] && s.b == [] && s.toA == map[] && c.id !in s.toB && listB == []
    requires IsCopy(c, m, Rows) && IsView(m, m, false, Rows)
    requires Delta([m], listB) == [m] && Delta(listB, [m]) == []
    requires s' == s.(b := s.b + [c], toB := s.toB[c.id := m.id], appends := s.appends + 1)
    ensures Reached(s', Rows, false)
  {
    OneListed(m, m, s.toA.Keys, Rows);
    PickedOne(m);
    ForthCopied(s, m, c, s');
    PassReaches(s, Pass([m], listB, [true], [], [c], []), [m], [], [m], [], s', Rows);
  }

  /** A pass that sends the only message of B back, and nothing else. */
  lemma {:induction false} SentBack(s: System, listA: seq<Entry>, x: Entry, row: Entry, c: Entry, n: Entry, s': System)
    requires Reached(s, Rows, false) && Lists(listA, s.a, s.toA.Keys, Rows) && s.b == [c] && c.id in s.toB
    requires IsView(row, c, true, Rows) && IsCopy(n, c, Rows) && n.id !in Ids(s.a) && n.id !in s.toA
    requires Delta(listA, [row]) == [x] && Delta([row], listA) == [row]
    requires s' == s.(a := s.a + [n], toA := s.toA[n.id := c.id], appends := s.appends + 1)
    ensures Reached(s', Rows, false)
  {
    OneListed(row, c, s.toB.Keys, Rows);
    PickedOne(x);
    PickedOne(row);
    BackCopied(s, row, c, n, s');
    PassReaches(s, Pass(listA, [row], [false], [true], [], [n]), [x], [row], [], [row], s', Rows);
  }

  /** A rescan shows everything on A under all its keys, the rival first, which all the others
      share a key with; the row of the copy on B shares none with it. */
  ghost predicate Stuck(s: System, x: Entry, rest: seq<Entry>, c: Entry, row: Entry) {
    && Lists([x] + rest, s.a, s.toA.Keys, Rows) && s.toA.Keys <= Ids(s.a)
    && (forall e :: e in rest ==> Covered(e.keys, KeySet(x.keys)))
    && s.b == [c] && c.id in s.toB && IsView(row, c, true, Rows)
    && !Covered(row.keys, KeySet(x.keys)) && !Covered(x.keys, KeySet(row.keys))
  }

  /** One more message on A, listed last. */
  lemma {:induction false} ListsOneMore(list: seq<Entry>, folder: seq<Entry>, copies: set<string>,
                                        copies': set<string>, n: Entry)
    requires Lists(list, folder, copies, Rows) && n.id !in Ids(folder) && copies <= copies' <= copies + {n.id}
    requires IsView(n, n, true, Rows) && IsView(n, n, false, Rows)
    ensures Lists(list + [n], folder + [n], copies', Rows)
  {
    IdsSnoc(list, n);
    IdsSnoc(folder, n);
    UniqueSnoc(list, n);
    forall e, m | e in list + [n] && m in folder + [n] && e.id == m.id
      ensures IsView(e, m, e.id in copies', Rows)
    {
      assert e in list ==> e.id in Ids(list);
      assert m in folder ==> m.id in Ids(folder);
    }
  }

  /** In that situation the copy is sent back ... */
  lemma {:induction false} StuckSends(s: System, x: Entry, rest: seq<Entry>, c: Entry, row: Entry, n: Entry, s': System)
    requires Reached(s, Rows, false) && Stuck(s, x, rest, c, row) && IsCopy(n, c, Rows) && n.id !in Ids(s.a)
    requires s' == s.(a := s.a + [n], toA := s.toA[n.id := c.id], appends := s.appends + 1)
    ensures Reached(s', Rows, false)
  {
    RivalWins(x, rest, row);
    SentBack(s, [x] + rest, x, row, c, n, s');
  }

  /** ... and the situation stays. */
  lemma {:induction false} StuckStays(s: System, x: Entry, rest: seq<Entry>, c: Entry, row: Entry, n: Entry, s': System)
    requires Stuck(s, x, rest, c, row) && n.id !in Ids(s.a) && Covered(n.keys, KeySet(x.keys))
    requires IsView(n, n, true, Rows) && IsView(n, n, false, Rows)
    requires s' == s.(a := s.a + [n], toA := s.toA[n.id := c.id], appends := s.appends + 1)
    ensures Stuck(s', x, rest + [n], c, row)
  {
    ListsOneMore([x] + rest, s.a, s.toA.Keys, s'.toA.Keys, n);
    assert [x] + rest + [n] == [x] + (rest + [n]);
    IdsSnoc(s.a, n);
  }

  /** IDs that sort after "10" and before "9". */
  function BackId(n: nat): string {
    seq(n + 3, i => '1')
  }

  ghost predicate Short(s: seq<Entry>, n: nat) {
    forall e :: e in s ==> |e.id| < n
  }

  /** The beginning: the message arrives on A and is copied, then the rival arrives, which sorts
      before it ("10" comes before "9"). */
  lemma {:induction false} Beginning(m: Entry, c: Entry, x: Entry, s: System)
    requires m.keys != [] && x.keys != [] && m.id != x.id && IsCopy(c, m, Rows) && IsView(m, m, false, Rows)
    requires s == System([m] + [x], [c], map[c.id := m.id], map[], 2, 1)
    ensures Reached(s, Rows, false)
  {
    var s1, s2 := System([m], [], map[], map[], 1, 0), System([m], [c], map[c.id := m.id], map[], 1, 1);
    assert IsRun([EMPTY], [], Rows);
    assert Reached(EMPTY, Rows, false);
    assert Ids([]) == {} && [] + [m] == [m];
    DeliveryReaches(EMPTY, m, s1, Rows);
    CopyReaches(m, c, s1, s2);
    assert Ids([m]) == {m.id} by { assert m in [m]; }
    DeliveryReaches(s2, x, s, Rows);
  }

  lemma {:induction false} CopyReaches(m: Entry, c: Entry, s1: System, s2: System)
    requires IsCopy(c, m, Rows) && IsView(m, m, false, Rows)
    requires s1 == System([m], [], map[], map[], 1, 0) && s2 == System([m], [c], map[c.id := m.id], map[], 1, 1)
    requires Reached(s1, Rows, false)
    ensures Reached(s2, Rows, false)
  {
    OneDelta(m, [], {});
    assert [] + [c] == [c] && s1.toB[c.id := m.id] == s2.toB;
    FirstPass(s1, m, c, [], s2);
  }

  lemma {:induction false} BeginsStuck(mid: string, tag: string, sur: string, s: System)
    requires tag != "" && tag != sur
    requires var m := Mail("9", mid, tag, sur);
             s == System([m] + [Rival(tag, sur)], [Mail("1", mid, tag, sur)], map["1" := "9"], map[], 2, 1)
    ensures Stuck(s, Rival(tag, sur), [Mail("9", mid, tag, sur)], Mail("1", mid, tag, sur), RowView(mid, sur))
  {
    var m, x := Mail("9", mid, tag, sur), Rival(tag, sur);
    RowIsView(mid, tag, sur);
    RowIsView("", tag, sur + "'");
    RivalKeys(mid, tag, sur);
    RivalFirst(m, x);
  }

  lemma {:induction false} RivalFirst(m: Entry, x: Entry)
    requires IsView(m, m, false, Rows) && IsView(x, x, false, Rows) && m.id != x.id
    ensures Lists([x] + [m], [m] + [x], {}, Rows)
  {
    IdsConcat([x], [m]);
    IdsConcat([m], [x]);
  }

  // ---------------------------------------------------------------- exactly when, and how often

  /** The copies made from one message. */
  function CopiesFrom(back: map<string, string>, id: string): set<string> {
    set k | k in back && back[k] == id
  }

  /** A copy of a message with this Message-ID, tag and surrogate was copied back n times. */
  ghost predicate SentBackTimes(src: seq<Entry>, log: map<string, string>, back: map<string, string>,
                                mid: string, tag: string, sur: string, n: nat)
  {
    exists id, m :: m in src && id in log && log[id] == m.id && m.msgID == mid && m.surrogate == sur
                    && m.keys == MatchKeysFrom(mid, tag, sur) && |CopiesFrom(back, id)| >= n
  }

  ghost predicate HappensAt(s: System, mid: string, tag: string, sur: string, n: nat) {
    SentBackTimes(s.a, s.toB, s.toA, mid, tag, sur, n) || SentBackTimes(s.b, s.toA, s.toB, mid, tag, sur, n)
  }

  ghost predicate Happens(mid: string, tag: string, sur: string, n: nat) {
    exists s :: Reached(s, Rows, false) && HappensAt(s, mid, tag, sur, n)
  }

  lemma {:induction false} OneMoreCopy(back: map<string, string>, k: string, id: string)
    requires k !in back
    ensures |CopiesFrom(back[k := id], id)| == |CopiesFrom(back, id)| + 1
  {
    assert CopiesFrom(back[k := id], id) == CopiesFrom(back, id) + {k};
  }

  ghost predicate Ready(s: System, rest: seq<Entry>, mid: string, tag: string, sur: string, n: nat) {
    && Stuck(s, Rival(tag, sur), rest, Mail("1", mid, tag, sur), RowView(mid, sur))
    && Short(s.a, n + 3) && Mail("9", mid, tag, sur) in s.a && s.toB == map["1" := "9"]
    && |CopiesFrom(s.toA, "1")| == n
  }

  /** After the beginning every pass sends the copy once more: the copies on A show the tag after
      a rescan of that side and are pushed out of the index like the message itself. */
  lemma {:induction false} ReadyAgain(s: System, rest: seq<Entry>, mid: string, tag: string, sur: string, n: nat)
    returns (s': System, next: Entry)
    requires Reached(s, Rows, false) && tag != "" && tag != sur && Ready(s, rest, mid, tag, sur, n)
    ensures Reached(s', Rows, false) && s'.a == s.a + [next] && s'.toB == s.toB
    ensures Stuck(s', Rival(tag, sur), rest + [next], Mail("1", mid, tag, sur), RowView(mid, sur))
    ensures |next.id| == n + 3 && |CopiesFrom(s'.toA, "1")| == n + 1
  {
    var x, c, row := Rival(tag, sur), Mail("1", mid, tag, sur), RowView(mid, sur);
    next := Mail(BackId(n), mid, tag, sur);
    s' := s.(a := s.a + [next], toA := s.toA[next.id := c.id], appends := s.appends + 1);
    assert next.id !in Ids(s.a);
    RowIsView(mid, tag, sur);
    RivalKeys(mid, tag, sur);
    StuckSends(s, x, rest, c, row, next, s');
    StuckStays(s, x, rest, c, row, next, s');
    OneMoreCopy(s.toA, next.id, "1");
  }

  lemma {:induction false} SentAgain(mid: string, tag: string, sur: string, n: nat)
    returns (s: System, rest: seq<Entry>)
    requires tag != "" && tag != sur
    ensures Reached(s, Rows, false) && Ready(s, rest, mid, tag, sur, n)
  {
    if n == 0 {
      var m, c := Mail("9", mid, tag, sur), Mail("1", mid, tag, sur);
      s, rest := System([m] + [Rival(tag, sur)], [c], map["1" := "9"], map[], 2, 1), [m];
      RowIsView(mid, tag, sur);
      Beginning(m, c, Rival(tag, sur), s);
      BeginsStuck(mid, tag, sur, s);
      assert CopiesFrom(s.toA, "1") == {};
    } else {
      var before, others := SentAgain(mid, tag, sur, n - 1);
      var next;
      s, next := ReadyAgain(before, others, mid, tag, sur, n - 1);
      rest := others + [next];
    }
  }

  /** A copy can be sent back, and again any number of times, if and only if its source carries a
      tag that is neither empty nor the surrogate. */
  lemma {:induction false} ResentIff(mid: string, tag: string, sur: string, n: nat)
    requires n > 0
    ensures Happens(mid, tag, sur, n) <==> tag != "" && tag != sur
  {
    if tag != "" && tag != sur {
      var s, rest := SentAgain(mid, tag, sur, n);
      assert s.toB["1"] == Mail("9", mid, tag, sur).id;
      assert HappensAt(s, mid, tag, sur, n);
    } else {
      forall s | Reached(s, Rows, false) ensures !HappensAt(s, mid, tag, sur, n) {
        var run: seq<System>, events :| IsRun(run, events, Rows) && run[|events|] == s;
        SafeCopyNeverSent(run, events, Rows, |events|);
        SafeStaysHome(s.a, s.toB, s.toA, mid, tag, sur, n);
        SafeStaysHome(s.b, s.toA, s.toB, mid, tag, sur, n);
      }
    }
  }

  lemma {:induction false} SafeStaysHome(src: seq<Entry>, log: map<string, string>, back: map<string, string>,
                                         mid: string, tag: string, sur: string, n: nat)
    requires SafeStay(src, log, back, Rows) && (tag == "" || tag == sur) && n > 0
    ensures !SentBackTimes(src, log, back, mid, tag, sur, n)
  {
    forall id, m | m in src && id in log && log[id] == m.id && m.msgID == mid && m.surrogate == sur
                   && m.keys == MatchKeysFrom(mid, tag, sur)
      ensures CopiesFrom(back, id) == {}
    {
      CopyRowKeysIff(mid, tag, sur);
      assert Safe(m, Rows);
      forall k | k in back ensures back[k] != id {
        assert back[k] in back.Values;
      }
    }
  }
}
