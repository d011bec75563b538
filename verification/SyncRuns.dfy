/** Whole runs of the synchronizer on one folder pair: mail arrives on both sides, and passes
    copy what each side lacks, any part of which may fail, over folders listed in any order. */
module SyncRuns {
  import opened MatchKeys
  import opened Retention
  import Sets

  /** How a pass may see a copy. A full scan always sees all its keys. With the state cache a copy
      is seen through the row written for it, which knows nothing of a tag other than the
      surrogate, until a rescan of that side parses it; each side is rescanned on its own, so
      the view can change between any two passes. Any allows every non-empty part of the keys. */
  datatype Mode = Full | Rows | Any

  /** The keys of the cache row written for a copy of the message. */
  function RowKeys(m: Entry): set<string> {
    KeySet(MatchKeysFrom(m.msgID, m.surrogate, m.surrogate))
  }

  predicate Between(keys: set<string>, m: Entry, mode: Mode) {
    && keys != {} && keys <= KeySet(m.keys)
    && (mode.Full? ==> keys == KeySet(m.keys))
    && (mode.Rows? ==> RowKeys(m) <= keys)
  }

  predicate SameMail(e: Entry, m: Entry) {
    e.msgID == m.msgID && e.surrogate == m.surrogate
  }

  /** What arrives when m is copied. */
  predicate IsCopy(c: Entry, m: Entry, mode: Mode) {
    SameMail(c, m) && Between(KeySet(c.keys), m, mode)
  }

  /** How m may appear in a listing; only a copy may appear under fewer keys than it has. */
  predicate IsView(e: Entry, m: Entry, copy: bool, mode: Mode) {
    && e.id == m.id && SameMail(e, m)
    && if copy then Between(KeySet(e.keys), m, mode) else KeySet(e.keys) == KeySet(m.keys)
  }

  /** Every copy of the message, and every view of such a copy, has all its keys. In Rows mode
      that is so without a tag, or with the surrogate as tag. */
  predicate Safe(m: Entry, mode: Mode) {
    mode.Full? || (mode.Rows? && KeySet(m.keys) == RowKeys(m))
  }

  /** `toB` maps every copy on B to the message of A it was made from; `toA` the reverse. */
  datatype System = System(a: seq<Entry>, b: seq<Entry>,
                           toB: map<string, string>, toA: map<string, string>,
                           deliveries: nat, appends: nat)

  datatype Event =
    | DeliverA(m: Entry)
    | DeliverB(m: Entry)
    | Pass(listA: seq<Entry>, listB: seq<Entry>, okB: seq<bool>, okA: seq<bool>,
           copiesB: seq<Entry>, copiesA: seq<Entry>)

  function Ids(s: seq<Entry>): set<string> {
    set e | e in s :: e.id
  }

  predicate UniqueIds(s: seq<Entry>) {
    forall i, j :: 0 <= i < j < |s| ==> s[i].id != s[j].id
  }

  /** A listing shows every message of the folder once, in any order. */
  ghost predicate Lists(list: seq<Entry>, folder: seq<Entry>, copies: set<string>, mode: Mode) {
    && UniqueIds(list) && Ids(list) == Ids(folder)
    && forall e, m :: e in list && m in folder && e.id == m.id ==> IsView(e, m, e.id in copies, mode)
  }

  /** The copies of the listed messages arrive under fresh IDs. */
  ghost predicate Sends(src: seq<Entry>, dst: seq<Entry>, picked: seq<Entry>, copies: seq<Entry>, mode: Mode) {
    && |copies| == |picked|
    && (forall i, m :: 0 <= i < |copies| && m in src && m.id == picked[i].id ==> IsCopy(copies[i], m, mode))
    && UniqueIds(copies) && Ids(copies) !! Ids(dst)
  }

  ghost predicate Logs(log: map<string, string>, log': map<string, string>,
                       copies: seq<Entry>, picked: seq<Entry>)
    requires |copies| == |picked|
  {
    && log'.Keys == log.Keys + Ids(copies)
    && (forall k :: k in log ==> log'[k] == log[k])
    && (forall i :: 0 <= i < |copies| ==> copies[i].id in log' && log'[copies[i].id] == picked[i].id)
  }

  /** In a pass both folders are listed, and exactly the flagged part of each delta arrives. */
  ghost predicate Step(s: System, e: Event, s': System, mode: Mode) {
    match e
    case DeliverA(m) =>
      m.keys != [] && m.id !in Ids(s.a) &&
      s' == s.(a := s.a + [m], deliveries := s.deliveries + 1)
    case DeliverB(m) =>
      m.keys != [] && m.id !in Ids(s.b) &&
      s' == s.(b := s.b + [m], deliveries := s.deliveries + 1)
    case Pass(listA, listB, okB, okA, copiesB, copiesA) =>
      && Lists(listA, s.a, s.toA.Keys, mode) && Lists(listB, s.b, s.toB.Keys, mode)
      && |okB| == |Delta(listA, listB)| && |okA| == |Delta(listB, listA)|
      && Copied(s, Picked(Delta(listA, listB), okB), Picked(Delta(listB, listA), okA), copiesB, copiesA, s', mode)
  }

  /** Exactly the picked messages are copied, in both directions. */
  ghost predicate Copied(s: System, pickedB: seq<Entry>, pickedA: seq<Entry>, copiesB: seq<Entry>, copiesA: seq<Entry>,
                         s': System, mode: Mode)
  {
    && Sends(s.a, s.b, pickedB, copiesB, mode) && Sends(s.b, s.a, pickedA, copiesA, mode)
    && Logs(s.toB, s'.toB, copiesB, pickedB) && Logs(s.toA, s'.toA, copiesA, pickedA)
    && s'.a == s.a + copiesA && s'.b == s.b + copiesB
    && s'.deliveries == s.deliveries
    && s'.appends == s.appends + |copiesB| + |copiesA|
  }

  const EMPTY := System([], [], map[], map[], 0, 0)

  ghost predicate IsRun(run: seq<System>, events: seq<Event>, mode: Mode) {
    && |run| == |events| + 1
    && run[0] == EMPTY
    && forall i :: 0 <= i < |events| ==> StepAt(run, events, mode, i)
  }

  ghost predicate StepAt(run: seq<System>, events: seq<Event>, mode: Mode, i: nat)
    requires i < |events| && |run| == |events| + 1
  {
    Step(run[i], events[i], run[i + 1], mode)
  }

  // ---------------------------------------------------------------- the invariant

  ghost predicate HasSource(src: seq<Entry>, c: Entry, id: string, mode: Mode) {
    exists m :: m in src && m.id == id && IsCopy(c, m, mode)
  }

  /** Only a message that is itself a copy is the source of two copies. */
  ghost predicate OnceEach(log: map<string, string>, back: map<string, string>) {
    forall k, k' :: k in log && k' in log && log[k] == log[k'] && k != k' ==> log[k] in back
  }

  /** A copy of a safe message is not the source of a copy. */
  ghost predicate SafeStay(src: seq<Entry>, log: map<string, string>, back: map<string, string>, mode: Mode) {
    forall k, m :: k in log && m in src && m.id == log[k] && Safe(m, mode) ==> k !in back.Values
  }

  /** Every copy on `dst` has its source on `src`. */
  ghost predicate Sourced(src: seq<Entry>, dst: seq<Entry>, log: map<string, string>, mode: Mode) {
    && log.Keys <= Ids(dst)
    && log.Values <= Ids(src)
    && (forall c {:trigger HasSource(src, c, log[c.id], mode)} ::
          c in dst && c.id in log ==> HasSource(src, c, log[c.id], mode))
  }

  ghost predicate Traced(src: seq<Entry>, dst: seq<Entry>, log: map<string, string>,
                         back: map<string, string>, mode: Mode)
  {
    Sourced(src, dst, log, mode) && OnceEach(log, back) && SafeStay(src, log, back, mode)
  }

  ghost predicate Inv(s: System, mode: Mode) {
    && Keyed(s.a) && Keyed(s.b) && UniqueIds(s.a) && UniqueIds(s.b)
    && Traced(s.a, s.b, s.toB, s.toA, mode)
    && Traced(s.b, s.a, s.toA, s.toB, mode)
    && s.appends == |s.toB| + |s.toA|
    && s.deliveries + s.appends == |s.a| + |s.b|
  }

  // ---------------------------------------------------------------- what a pass may send

  lemma SameId(s: seq<Entry>, x: Entry, y: Entry)
    requires UniqueIds(s) && x in s && y in s && x.id == y.id
    ensures x == y
  {
    var i :| 0 <= i < |s| && s[i] == x;
    var j :| 0 <= j < |s| && s[j] == y;
    assert i == j;
  }

  lemma DifferentIds(s: seq<Entry>, x: Entry, y: Entry)
    requires UniqueIds(s) && x in s && y in s && x != y
    ensures x.id != y.id
  {
    var i :| 0 <= i < |s| && s[i] == x;
    var j :| 0 <= j < |s| && s[j] == y;
    assert i < j || j < i;
  }

  /** A message whose listed keys include those of a listed message of the destination stays. */
  lemma {:induction false} CopyKeepsItHome(listSrc: seq<Entry>, listDst: seq<Entry>, e: Entry, v: Entry)
    requires Keyed(listDst) && v in listDst && KeySet(v.keys) <= KeySet(e.keys)
    ensures e !in Delta(listSrc, listDst)
  {
    Coverage(listDst, v);
    var k :| k in v.keys && k in AllKeys(Retained(listDst));
    assert k in KeySet(v.keys) && k in KeySet(e.keys);
    DeltaFacts(listSrc, listDst);
  }

  /** Every message of the folder has its view in the listing. */
  lemma {:induction false} ViewOf(list: seq<Entry>, folder: seq<Entry>, copies: set<string>, mode: Mode, m: Entry)
    returns (v: Entry)
    requires Lists(list, folder, copies, mode) && m in folder
    ensures v in list && v.id == m.id && IsView(v, m, m.id in copies, mode)
  {
    assert m.id in Ids(list);
    v :| v in list && v.id == m.id;
  }

  lemma {:induction false} ListsKeyed(list: seq<Entry>, folder: seq<Entry>, copies: set<string>, mode: Mode)
    requires Lists(list, folder, copies, mode) && Keyed(folder)
    ensures Keyed(list)
  {
    forall e | e in list ensures e.keys != [] {
      assert e.id in Ids(folder);
      var m :| m in folder && m.id == e.id;
      assert IsView(e, m, e.id in copies, mode) && m.keys[0] in KeySet(m.keys);
      assert KeySet(e.keys) != {};
    }
  }

  /** The message with this ID is not a delivered one that was sent before, nor a copy of a safe
      message. */
  ghost predicate MayGo(id: string, dst: seq<Entry>, log: map<string, string>, back: map<string, string>, mode: Mode) {
    && (id in log.Values ==> id in back)
    && (id in back ==> forall y :: y in dst && y.id == back[id] ==> !Safe(y, mode))
  }

  /** One pass over traced folders sends only what may go. */
  lemma {:induction false} SentMayGo(src: seq<Entry>, dst: seq<Entry>, log: map<string, string>,
                                     back: map<string, string>, listSrc: seq<Entry>, listDst: seq<Entry>, e: Entry,
                                     mode: Mode)
    requires UniqueIds(src) && UniqueIds(dst) && Keyed(src) && Keyed(dst)
    requires Lists(listSrc, src, back.Keys, mode) && Lists(listDst, dst, log.Keys, mode)
    requires Sourced(src, dst, log, mode) && Sourced(dst, src, back, mode)
    requires e in Delta(listSrc, listDst)
    ensures e.id in Ids(src) && MayGo(e.id, dst, log, back, mode)
  {
    ListsKeyed(listDst, dst, log.Keys, mode);
    DeltaFacts(listSrc, listDst);
    assert e.id in Ids(listSrc);
    var m :| m in src && m.id == e.id;
    if e.id in log.Values && e.id !in back {
      DeliveredStays(src, dst, log, back, listSrc, listDst, m, e, mode);
    }
    if e.id in back {
      forall y | y in dst && y.id == back[e.id] ensures !Safe(y, mode) {
        if Safe(y, mode) {
          SafeStays(src, dst, log, back, listSrc, listDst, m, e, y, mode);
        }
      }
    }
  }

  /** A delivered message with a copy is listed under all its keys, the copy under some of them. */
  lemma {:induction false} DeliveredStays(src: seq<Entry>, dst: seq<Entry>, log: map<string, string>,
                                          back: map<string, string>, listSrc: seq<Entry>, listDst: seq<Entry>,
                                          m: Entry, e: Entry, mode: Mode)
    requires UniqueIds(src) && Keyed(listDst)
    requires Lists(listSrc, src, back.Keys, mode) && Lists(listDst, dst, log.Keys, mode)
    requires Sourced(src, dst, log, mode)
    requires m in src && e in listSrc && e.id == m.id && m.id in log.Values && m.id !in back
    ensures e !in Delta(listSrc, listDst)
  {
    var c := CopyAt(src, dst, log, mode, m);
    var v := ViewOf(listDst, dst, log.Keys, mode, c);
    assert IsView(e, m, false, mode);
    CopyKeepsItHome(listSrc, listDst, e, v);
  }

  lemma {:induction false} CopyAt(src: seq<Entry>, dst: seq<Entry>, log: map<string, string>, mode: Mode, m: Entry)
    returns (c: Entry)
    requires UniqueIds(src) && Sourced(src, dst, log, mode) && m in src && m.id in log.Values
    ensures c in dst && c.id in log && log[c.id] == m.id && IsCopy(c, m, mode)
  {
    var k :| k in log && log[k] == m.id;
    assert k in Ids(dst);
    c :| c in dst && c.id == k;
    SourceOf(src, dst, log, mode, c, m);
  }

  lemma {:induction false} SourceOf(src: seq<Entry>, dst: seq<Entry>, log: map<string, string>, mode: Mode, c: Entry,
                                    m: Entry)
    requires UniqueIds(src) && Sourced(src, dst, log, mode) && c in dst && c.id in log && m in src && m.id == log[c.id]
    ensures IsCopy(c, m, mode)
  {
    assert HasSource(src, c, log[c.id], mode);
    var m' :| m' in src && m'.id == log[c.id] && IsCopy(c, m', mode);
    SameId(src, m, m');
  }

  /** A copy of a safe message is listed under at least the keys its source is listed under. */
  lemma {:induction false} SafeStays(src: seq<Entry>, dst: seq<Entry>, log: map<string, string>,
                                     back: map<string, string>, listSrc: seq<Entry>, listDst: seq<Entry>,
                                     m: Entry, e: Entry, y: Entry, mode: Mode)
    requires UniqueIds(dst) && Keyed(listDst)
    requires Lists(listSrc, src, back.Keys, mode) && Lists(listDst, dst, log.Keys, mode)
    requires Sourced(dst, src, back, mode)
    requires m in src && e in listSrc && e.id == m.id && m.id in back && y in dst && y.id == back[m.id] && Safe(y, mode)
    ensures e !in Delta(listSrc, listDst)
  {
    SourceOf(dst, src, back, mode, m, y);
    var v := ViewOf(listDst, dst, log.Keys, mode, y);
    assert IsView(e, m, true, mode);
    SafeViews(y, m, e, v, mode);
    CopyKeepsItHome(listSrc, listDst, e, v);
  }

  lemma {:induction false} SafeViews(y: Entry, m: Entry, e: Entry, v: Entry, mode: Mode)
    requires Safe(y, mode) && IsCopy(m, y, mode) && IsView(e, m, true, mode)
    requires KeySet(v.keys) <= KeySet(y.keys)
    ensures KeySet(v.keys) <= KeySet(e.keys)
  {
  }

  lemma {:induction false} PickedAreDistinct(list: seq<Entry>, other: seq<Entry>, ok: seq<bool>)
    requires UniqueIds(list) && Keyed(list) && |ok| == |Delta(list, other)|
    ensures UniqueIds(Picked(Delta(list, other), ok))
  {
    DeltaFacts(list, other);
    PickedDisjoint(Delta(list, other), ok);
    DisjointAreDistinct(list, Picked(Delta(list, other), ok));
  }

  lemma DisjointAreDistinct(src: seq<Entry>, part: seq<Entry>)
    requires UniqueIds(src) && Keyed(src) && PairwiseDisjoint(part)
    requires forall e :: e in part ==> e in src
    ensures UniqueIds(part)
  {
    forall i, j | 0 <= i < j < |part|
      ensures part[i].id != part[j].id
    {
      assert part[i] in src && part[j] in src;
      assert part[i].keys[0] in KeySet(part[i].keys);
      assert part[i] != part[j];
      DifferentIds(src, part[i], part[j]);
    }
  }

  // ---------------------------------------------------------------- logging what was sent

  lemma IdsConcat(s: seq<Entry>, t: seq<Entry>)
    ensures Ids(s + t) == Ids(s) + Ids(t)
  {
    forall e | e in s ensures e.id in Ids(s + t) { assert e in s + t; }
    forall e | e in t ensures e.id in Ids(s + t) { assert e in s + t; }
  }

  lemma UniqueConcat(s: seq<Entry>, t: seq<Entry>)
    requires UniqueIds(s) && UniqueIds(t) && Ids(s) !! Ids(t)
    ensures UniqueIds(s + t)
  {
    forall i, j | 0 <= i < |s| && 0 <= j < |t| ensures s[i].id != t[j].id {
      assert s[i].id in Ids(s) && t[j].id in Ids(t);
    }
  }

  lemma IdsSnoc(s: seq<Entry>, e: Entry)
    ensures Ids(s + [e]) == Ids(s) + {e.id}
  {
    IdsConcat(s, [e]);
    assert Ids([e]) == {e.id} by { assert e in [e]; }
  }

  lemma UniqueSnoc(s: seq<Entry>, e: Entry)
    requires UniqueIds(s) && e.id !in Ids(s)
    ensures UniqueIds(s + [e])
  {
    forall i | 0 <= i < |s| ensures s[i].id != e.id {
      assert s[i] in s && s[i].id in Ids(s);
    }
  }

  /** Where in the new copies a logged ID is, or `|copies|` for an old one. */
  lemma Position(log: map<string, string>, log': map<string, string>, copies: seq<Entry>, picked: seq<Entry>, k: string)
    returns (i: nat)
    requires |copies| == |picked| && Logs(log, log', copies, picked) && k in log'
    ensures i <= |copies|
    ensures i < |copies| ==> copies[i].id == k && log'[k] == picked[i].id
    ensures i == |copies| ==> k in log && log'[k] == log[k]
  {
    if k in log {
      i := |copies|;
    } else {
      var c :| c in copies && c.id == k;
      i :| 0 <= i < |copies| && copies[i] == c;
    }
  }

  /** Every value of the new log is an old one or the ID of a message just sent. */
  lemma NewOrOld(log: map<string, string>, log': map<string, string>, copies: seq<Entry>, picked: seq<Entry>, v: string)
    requires |copies| == |picked| && Logs(log, log', copies, picked) && v in log'.Values
    ensures v in log.Values || exists i :: 0 <= i < |picked| && picked[i].id == v
  {
    var k :| k in log' && log'[k] == v;
    var i := Position(log, log', copies, picked, k);
    if i == |copies| {
      assert log[k] in log.Values;
    }
  }

  lemma {:induction false} StaysOnceEach(log: map<string, string>, back: map<string, string>, log': map<string, string>,
                                         back': map<string, string>, copies: seq<Entry>, picked: seq<Entry>)
    requires |copies| == |picked| && Logs(log, log', copies, picked)
    requires OnceEach(log, back) && UniqueIds(picked) && back.Keys <= back'.Keys
    requires forall i :: 0 <= i < |picked| ==> (picked[i].id in log.Values ==> picked[i].id in back)
    ensures OnceEach(log', back')
  {
    forall k, k' | k in log' && k' in log' && log'[k] == log'[k'] && k != k'
      ensures log'[k] in back'
    {
      var i := Position(log, log', copies, picked, k);
      var j := Position(log, log', copies, picked, k');
      if i < |copies| && j == |copies| {
        assert log[k'] in log.Values;
      } else if j < |copies| && i == |copies| {
        assert log[k] in log.Values;
      }
    }
  }

  /** What is sent back now is no copy of a safe message, and nothing sent is a new copy. */
  lemma {:induction false} StaySafe(src: seq<Entry>, dst: seq<Entry>, log: map<string, string>,
                                    back: map<string, string>, received: seq<Entry>, copies: seq<Entry>,
                                    picked: seq<Entry>, pickedBack: seq<Entry>, log': map<string, string>,
                                    back': map<string, string>, mode: Mode)
    requires SafeStay(src, log, back, mode) && log.Values <= Ids(src) && back.Values <= Ids(dst)
    requires |copies| == |picked| && Logs(log, log', copies, picked) && Ids(copies) !! Ids(dst)
    requires |received| == |pickedBack| && Logs(back, back', received, pickedBack) && Ids(received) !! Ids(src)
    requires forall i :: 0 <= i < |picked| ==> picked[i].id in Ids(src)
    requires forall i :: 0 <= i < |pickedBack| ==>
               pickedBack[i].id in Ids(dst) && MayGo(pickedBack[i].id, src, back, log, mode)
    ensures SafeStay(src + received, log', back', mode)
  {
    forall k, m | k in log' && m in src + received && m.id == log'[k] && Safe(m, mode)
      ensures k !in back'.Values
    {
      assert m in received ==> m.id in Ids(received);
      var i := Position(log, log', copies, picked, k);
      assert i < |copies| ==> copies[i] in copies && k in Ids(copies);
      assert i == |copies| ==> log[k] in log.Values;
      assert m in src;
      if k in back'.Values {
        NewOrOld(back, back', received, pickedBack, k);
      }
    }
  }

  lemma {:induction false} SourcesStay(src: seq<Entry>, dst: seq<Entry>, log: map<string, string>, received: seq<Entry>,
                                       copies: seq<Entry>, picked: seq<Entry>, log': map<string, string>, mode: Mode)
    requires Sourced(src, dst, log, mode)
    requires Sends(src, dst, picked, copies, mode) && Logs(log, log', copies, picked)
    requires forall i :: 0 <= i < |picked| ==> picked[i].id in Ids(src)
    ensures forall c :: c in dst + copies && c.id in log' ==> HasSource(src + received, c, log'[c.id], mode)
  {
    forall c | c in dst + copies && c.id in log'
      ensures HasSource(src + received, c, log'[c.id], mode)
    {
      if c in dst {
        assert c.id in Ids(dst) && c.id in log;
        assert HasSource(src, c, log[c.id], mode);
        var m :| m in src && m.id == log[c.id] && IsCopy(c, m, mode);
        assert m in src + received;
      } else {
        var i :| 0 <= i < |copies| && copies[i] == c;
        var m :| m in src && m.id == picked[i].id;
        assert IsCopy(copies[i], m, mode) && m in src + received;
      }
    }
  }

  // ---------------------------------------------------------------- every run

  /** Both directions of a pass, as one of them sees it. */
  lemma {:induction false} OneWay(src: seq<Entry>, dst: seq<Entry>, log: map<string, string>, back: map<string, string>,
                                  picked: seq<Entry>, copies: seq<Entry>, log': map<string, string>,
                                  pickedBack: seq<Entry>, received: seq<Entry>, back': map<string, string>, mode: Mode)
    requires Traced(src, dst, log, back, mode) && back.Values <= Ids(dst)
    requires Sends(src, dst, picked, copies, mode) && Logs(log, log', copies, picked)
    requires |received| == |pickedBack| && Logs(back, back', received, pickedBack) && Ids(received) !! Ids(src)
    requires UniqueIds(picked)
    requires forall i :: 0 <= i < |picked| ==> picked[i].id in Ids(src) && MayGo(picked[i].id, dst, log, back, mode)
    requires forall i :: 0 <= i < |pickedBack| ==>
               pickedBack[i].id in Ids(dst) && MayGo(pickedBack[i].id, src, back, log, mode)
    ensures Traced(src + received, dst + copies, log', back', mode)
  {
    IdsConcat(dst, copies);
    IdsConcat(src, received);
    SourcesStay(src, dst, log, received, copies, picked, log', mode);
    StaysOnceEach(log, back, log', back', copies, picked);
    StaySafe(src, dst, log, back, received, copies, picked, pickedBack, log', back', mode);
    forall v | v in log'.Values ensures v in Ids(src + received) {
      NewOrOld(log, log', copies, picked, v);
    }
  }

  lemma FolderGrows(src: seq<Entry>, dst: seq<Entry>, log: map<string, string>, picked: seq<Entry>, copies: seq<Entry>,
                    log': map<string, string>, mode: Mode)
    requires Keyed(dst) && UniqueIds(dst) && log.Keys <= Ids(dst)
    requires Sends(src, dst, picked, copies, mode) && Logs(log, log', copies, picked)
    requires forall i :: 0 <= i < |picked| ==> picked[i].id in Ids(src)
    ensures Keyed(dst + copies) && UniqueIds(dst + copies)
    ensures |log'| == |log| + |copies|
  {
    UniqueConcat(dst, copies);
    IdsSize(copies);
    assert |log'.Keys| == |log.Keys| + |Ids(copies)|;
    CopiesKeyed(src, dst, picked, copies, mode);
  }

  lemma {:induction false} CopiesKeyed(src: seq<Entry>, dst: seq<Entry>, picked: seq<Entry>, copies: seq<Entry>,
                                       mode: Mode)
    requires Sends(src, dst, picked, copies, mode)
    requires forall i :: 0 <= i < |picked| ==> picked[i].id in Ids(src)
    ensures Keyed(copies)
  {
    forall c | c in copies ensures c.keys != [] {
      var i :| 0 <= i < |copies| && copies[i] == c;
      var m :| m in src && m.id == picked[i].id;
      assert IsCopy(copies[i], m, mode);
    }
  }

  lemma {:induction false} IdsSize(s: seq<Entry>)
    requires UniqueIds(s)
    ensures |Ids(s)| == |s|
  {
    if s == [] {
      assert Ids(s) == {};
    } else {
      var front, last := s[..|s| - 1], s[|s| - 1];
      IdsSize(front);
      LastIsNew(s);
      assert s == front + [last];
      IdsSnoc(front, last);
    }
  }

  lemma {:induction false} LastIsNew(s: seq<Entry>)
    requires UniqueIds(s) && s != []
    ensures s[|s| - 1].id !in Ids(s[..|s| - 1])
  {
    forall e | e in s[..|s| - 1] ensures e.id != s[|s| - 1].id {
      var i :| 0 <= i < |s| - 1 && s[i] == e;
    }
  }

  /** What one direction of a pass sends. */
  lemma {:induction false} PickedFacts(src: seq<Entry>, dst: seq<Entry>, log: map<string, string>,
                                       back: map<string, string>, listSrc: seq<Entry>, listDst: seq<Entry>,
                                       ok: seq<bool>, mode: Mode)
    requires UniqueIds(src) && UniqueIds(dst) && Keyed(src) && Keyed(dst)
    requires Lists(listSrc, src, back.Keys, mode) && Lists(listDst, dst, log.Keys, mode)
    requires Sourced(src, dst, log, mode) && Sourced(dst, src, back, mode)
    requires |ok| == |Delta(listSrc, listDst)|
    ensures var picked := Picked(Delta(listSrc, listDst), ok);
            && UniqueIds(picked)
            && forall i :: 0 <= i < |picked| ==> picked[i].id in Ids(src) && MayGo(picked[i].id, dst, log, back, mode)
  {
    var picked := Picked(Delta(listSrc, listDst), ok);
    ListsKeyed(listSrc, src, back.Keys, mode);
    PickedAreDistinct(listSrc, listDst, ok);
    forall i | 0 <= i < |picked| ensures picked[i].id in Ids(src) && MayGo(picked[i].id, dst, log, back, mode) {
      assert picked[i] in picked;
      SentMayGo(src, dst, log, back, listSrc, listDst, picked[i], mode);
    }
  }

  lemma {:induction false} PassKeepsInv(s: System, e: Event, s': System, mode: Mode)
    requires Inv(s, mode) && e.Pass? && Step(s, e, s', mode)
    ensures Inv(s', mode)
  {
    var Pass(listA, listB, okB, okA, copiesB, copiesA) := e;
    var toB, toA := Picked(Delta(listA, listB), okB), Picked(Delta(listB, listA), okA);
    PickedFacts(s.a, s.b, s.toB, s.toA, listA, listB, okB, mode);
    PickedFacts(s.b, s.a, s.toA, s.toB, listB, listA, okA, mode);
    OneWay(s.a, s.b, s.toB, s.toA, toB, copiesB, s'.toB, toA, copiesA, s'.toA, mode);
    OneWay(s.b, s.a, s.toA, s.toB, toA, copiesA, s'.toA, toB, copiesB, s'.toB, mode);
    FolderGrows(s.a, s.b, s.toB, toB, copiesB, s'.toB, mode);
    FolderGrows(s.b, s.a, s.toA, toA, copiesA, s'.toA, mode);
  }

  /** A delivery with a fresh ID disturbs neither log. */
  lemma {:induction false} DeliveredAsCopy(side: seq<Entry>, other: seq<Entry>, log: map<string, string>,
                                           back: map<string, string>, m: Entry, mode: Mode)
    requires m.id !in Ids(side) && Traced(other, side, log, back, mode)
    ensures Traced(other, side + [m], log, back, mode)
  {
    IdsSnoc(side, m);
  }

  lemma {:induction false} DeliveredAsSource(side: seq<Entry>, other: seq<Entry>, back: map<string, string>,
                                             log: map<string, string>, m: Entry, mode: Mode)
    requires m.id !in Ids(side) && Traced(side, other, back, log, mode)
    ensures Traced(side + [m], other, back, log, mode)
  {
    NewSource(side, other, back, m, mode);
    assert forall k :: k in back ==> back[k] in back.Values;
  }

  lemma {:induction false} NewSource(side: seq<Entry>, other: seq<Entry>, back: map<string, string>, m: Entry,
                                     mode: Mode)
    requires Sourced(side, other, back, mode)
    ensures Sourced(side + [m], other, back, mode)
  {
    IdsSnoc(side, m);
    forall c | c in other && c.id in back
      ensures HasSource(side + [m], c, back[c.id], mode)
    {
      assert HasSource(side, c, back[c.id], mode);
      var x :| x in side && x.id == back[c.id] && IsCopy(c, x, mode);
      assert x in side + [m];
    }
  }

  lemma {:induction false} StepKeepsInv(s: System, e: Event, s': System, mode: Mode)
    requires Inv(s, mode) && Step(s, e, s', mode)
    ensures Inv(s', mode)
  {
    match e
    case Pass(_, _, _, _, _, _) =>
      PassKeepsInv(s, e, s', mode);
    case DeliverA(m) =>
      UniqueSnoc(s.a, m);
      DeliveredAsCopy(s.a, s.b, s.toA, s.toB, m, mode);
      DeliveredAsSource(s.a, s.b, s.toB, s.toA, m, mode);
    case DeliverB(m) =>
      UniqueSnoc(s.b, m);
      DeliveredAsCopy(s.b, s.a, s.toB, s.toA, m, mode);
      DeliveredAsSource(s.b, s.a, s.toA, s.toB, m, mode);
  }

  lemma EmptyInv(mode: Mode)
    ensures Inv(EMPTY, mode)
  {
  }

  /** What holds at the beginning and is kept by every admitted step holds throughout every run of
      such steps. */
  lemma {:induction false} RunInduction(run: seq<System>, events: seq<Event>, mode: Mode, admits: Event -> bool,
                                        holds: System -> bool, n: nat)
    requires IsRun(run, events, mode) && n < |run| && forall i :: 0 <= i < |events| ==> admits(events[i])
    requires holds(EMPTY) && forall s, e, s' :: Step(s, e, s', mode) && admits(e) && holds(s) ==> holds(s')
    ensures holds(run[n])
  {
    if n > 0 {
      RunInduction(run, events, mode, admits, holds, n - 1);
      assert StepAt(run, events, mode, n - 1);
    }
  }

  lemma {:induction false} RunKeepsInv(run: seq<System>, events: seq<Event>, mode: Mode, n: nat)
    requires IsRun(run, events, mode) && n < |run|
    ensures Inv(run[n], mode)
  {
    EmptyInv(mode);
    EveryStepKeepsInv(mode);
    RunInduction(run, events, mode, (e: Event) => true, (s: System) => Inv(s, mode), n);
  }

  lemma {:induction false} EveryStepKeepsInv(mode: Mode)
    ensures forall s, e, s' :: Step(s, e, s', mode) && Inv(s, mode) ==> Inv(s', mode)
  {
    forall s, e, s' | Step(s, e, s', mode) && Inv(s, mode) ensures Inv(s', mode) {
      StepKeepsInv(s, e, s', mode);
    }
  }

  /** At most once, in every mode: no delivered message of either side is ever the source of two
      copies, whatever fails, however the folders are listed, and under whatever keys each pass
      sees the copies. A message with two copies is a copy itself. */
  lemma {:induction false} DeliveredCopiedAtMostOnce(run: seq<System>, events: seq<Event>, mode: Mode, n: nat)
    requires IsRun(run, events, mode) && n < |run|
    ensures OnceEach(run[n].toB, run[n].toA) && OnceEach(run[n].toA, run[n].toB)
    ensures run[n].appends == |run[n].toB| + |run[n].toA|
  {
    RunKeepsInv(run, events, mode, n);
  }

  /** A copy is never copied, not even once, if its source is safe. */
  lemma {:induction false} SafeCopyNeverSent(run: seq<System>, events: seq<Event>, mode: Mode, n: nat)
    requires IsRun(run, events, mode) && n < |run|
    ensures SafeStay(run[n].a, run[n].toB, run[n].toA, mode) && SafeStay(run[n].b, run[n].toA, run[n].toB, mode)
  {
    RunKeepsInv(run, events, mode, n);
  }

  // ---------------------------------------------------------------- nothing bounces

  ghost predicate AllSafe(s: seq<Entry>, mode: Mode) {
    forall m :: m in s ==> Safe(m, mode)
  }

  /** Every delivered message is safe: always so in Full mode, and in Rows mode if the mail that
      arrives carries no tag but its own surrogate. */
  ghost predicate SafeMail(events: seq<Event>, mode: Mode) {
    forall i :: 0 <= i < |events| && !events[i].Pass? ==> Safe(events[i].m, mode)
  }

  /** Copies of safe messages are safe. */
  lemma {:induction false} CopiesSafe(src: seq<Entry>, dst: seq<Entry>, log: map<string, string>,
                                      back: map<string, string>, listSrc: seq<Entry>, listDst: seq<Entry>,
                                      ok: seq<bool>, copies: seq<Entry>, mode: Mode)
    requires AllSafe(src, mode) && AllSafe(dst, mode)
    requires Lists(listSrc, src, back.Keys, mode)
    requires |ok| == |Delta(listSrc, listDst)| && Sends(src, dst, Picked(Delta(listSrc, listDst), ok), copies, mode)
    ensures AllSafe(dst + copies, mode)
  {
    var picked := Picked(Delta(listSrc, listDst), ok);
    DeltaFacts(listSrc, listDst);
    forall c | c in copies ensures Safe(c, mode) {
      var i :| 0 <= i < |copies| && copies[i] == c;
      assert picked[i] in picked && picked[i] in listSrc && picked[i].id in Ids(listSrc);
      var m :| m in src && m.id == picked[i].id;
      assert IsCopy(copies[i], m, mode);
      CopySafe(c, m, mode);
    }
  }

  lemma CopySafe(c: Entry, m: Entry, mode: Mode)
    requires Safe(m, mode) && IsCopy(c, m, mode)
    ensures Safe(c, mode)
  {
  }

  lemma {:induction false} StepStaysSafe(s: System, e: Event, s': System, mode: Mode)
    requires AllSafe(s.a, mode) && AllSafe(s.b, mode) && Step(s, e, s', mode) && (e.Pass? || Safe(e.m, mode))
    ensures AllSafe(s'.a, mode) && AllSafe(s'.b, mode)
  {
    if e.Pass? {
      CopiesSafe(s.a, s.b, s.toB, s.toA, e.listA, e.listB, e.okB, e.copiesB, mode);
      CopiesSafe(s.b, s.a, s.toA, s.toB, e.listB, e.listA, e.okA, e.copiesA, mode);
    }
  }

  lemma {:induction false} RunStaysSafe(run: seq<System>, events: seq<Event>, mode: Mode, n: nat)
    requires IsRun(run, events, mode) && n < |run| && SafeMail(events, mode)
    ensures AllSafe(run[n].a, mode) && AllSafe(run[n].b, mode)
  {
    forall s: System, e: Event, s': System
      | Step(s, e, s', mode) && (e.Pass? || Safe(e.m, mode)) && AllSafe(s.a, mode) && AllSafe(s.b, mode)
      ensures AllSafe(s'.a, mode) && AllSafe(s'.b, mode)
    {
      StepStaysSafe(s, e, s', mode);
    }
    RunInduction(run, events, mode, (e: Event) => e.Pass? || Safe(e.m, mode),
                 (s: System) => AllSafe(s.a, mode) && AllSafe(s.b, mode), n);
  }

  /** No bounce: when the mail that arrives is safe, a copy is never copied, and so all passes
      together append at most one message per delivery. */
  lemma {:induction false} NothingBounces(run: seq<System>, events: seq<Event>, mode: Mode, n: nat)
    requires IsRun(run, events, mode) && n < |run| && SafeMail(events, mode)
    ensures run[n].toB.Values !! run[n].toA.Keys && run[n].toA.Values !! run[n].toB.Keys
    ensures run[n].appends <= run[n].deliveries
  {
    var s := run[n];
    RunKeepsInv(run, events, mode, n);
    RunStaysSafe(run, events, mode, n);
    SourcesAreDelivered(s.a, s.b, s.toB, s.toA, mode);
    SourcesAreDelivered(s.b, s.a, s.toA, s.toB, mode);
    SourcesFit(s.a, s.toB, s.toA);
    SourcesFit(s.b, s.toA, s.toB);
  }

  lemma {:induction false} SourcesAreDelivered(src: seq<Entry>, dst: seq<Entry>, log: map<string, string>,
                                               back: map<string, string>, mode: Mode)
    requires Traced(dst, src, back, log, mode) && AllSafe(dst, mode)
    ensures log.Values !! back.Keys
  {
    forall k | k in back ensures k !in log.Values {
      assert back[k] in back.Values;
      var y :| y in dst && y.id == back[k];
    }
  }

  /** Distinct sources that are no copies leave room for the copies. */
  lemma SourcesFit(src: seq<Entry>, log: map<string, string>, back: map<string, string>)
    requires UniqueIds(src) && OnceEach(log, back)
    requires log.Values <= Ids(src) && back.Keys <= Ids(src) && log.Values !! back.Keys
    ensures |log| + |back| <= |src|
  {
    forall k, k' | k in log && k' in log && log[k] == log[k'] ensures k == k' {
      assert log[k] in log.Values;
    }
    InjectiveSize(log);
    IdsSize(src);
    Sets.SubsetSize(log.Values + back.Keys, Ids(src));
  }

  ghost predicate Injective(m: map<string, string>) {
    forall k, k' :: k in m && k' in m && m[k] == m[k'] ==> k == k'
  }

  lemma {:induction false} InjectiveSize(m: map<string, string>)
    requires Injective(m)
    ensures |m.Values| == |m|
    decreases |m|
  {
    if m == map[] {
      assert m.Values == {};
    } else {
      var k :| k in m;
      var rest := m - {k};
      InjectiveSize(rest);
      assert m == rest[k := m[k]];
      assert m[k] !in rest.Values;
      assert m.Values == rest.Values + {m[k]};
    }
  }

  // ---------------------------------------------------------------- reachable states

  /** The state is the last one of some run; if asked for, of one in which only safe mail arrives. */
  ghost predicate Reached(s: System, mode: Mode, safe: bool) {
    exists run, events :: IsRun(run, events, mode) && run[|events|] == s && (safe ==> SafeMail(events, mode))
  }

  lemma {:induction false} ReachedNext(s: System, e: Event, s': System, mode: Mode, safe: bool)
    requires Reached(s, mode, safe) && Step(s, e, s', mode) && (safe ==> e.Pass? || Safe(e.m, mode))
    ensures Reached(s', mode, safe)
  {
    var run, events :| IsRun(run, events, mode) && run[|events|] == s && (safe ==> SafeMail(events, mode));
    RunGrows(run, events, e, s', mode);
    assert (run + [s'])[|events + [e]|] == s';
  }

  lemma {:induction false} RunGrows(run: seq<System>, events: seq<Event>, e: Event, s: System, mode: Mode)
    requires IsRun(run, events, mode) && Step(run[|events|], e, s, mode)
    ensures IsRun(run + [s], events + [e], mode)
  {
    var run', events' := run + [s], events + [e];
    forall i | 0 <= i < |events'| ensures StepAt(run', events', mode, i) {
      if i < |events| {
        assert StepAt(run, events, mode, i);
        assert run'[i] == run[i] && run'[i + 1] == run[i + 1] && events'[i] == events[i];
      }
    }
  }

  lemma {:induction false} ReachedKeepsInv(s: System, mode: Mode, safe: bool)
    requires Reached(s, mode, safe)
    ensures Inv(s, mode) && (safe ==> s.appends <= s.deliveries)
  {
    var run, events :| IsRun(run, events, mode) && run[|events|] == s && (safe ==> SafeMail(events, mode));
    RunKeepsInv(run, events, mode, |events|);
    if safe {
      NothingBounces(run, events, mode, |events|);
    }
  }
}
