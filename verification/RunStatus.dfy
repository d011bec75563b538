/** Run bookkeeping over any sequence of runs, resumes and forgets: the error streak, its stop
    gate and the trimmed history. */
module RunStatus {
  import opened RunRows
  import opened State
  import Sets

  // ---------------------------------------------------------------- any sequence of events

  function Replayed(events: seq<Event>): Rows {
    if events == [] then Rows(None, map[]) else Applied(Replayed(events[..|events| - 1]), events[|events| - 1])
  }

  /** Every run but one recorded as an error is good; a resume and a forget clear a streak too. */
  predicate Clears(e: Event) {
    !e.Run? || e.r.status != "error"
  }

  predicate PositiveTimes(events: seq<Event>) {
    forall e :: e in events && e.Run? ==> e.r.at > 0
  }

  /** The streak starts after `c`: everything after it is a failed run, and it is itself a good
      run, a resume or a forget, unless the streak goes back to the beginning (`c == -1`). */
  ghost predicate StreakStartsAfter(events: seq<Event>, c: int) {
    && -1 <= c < |events|
    && (c >= 0 ==> Clears(events[c]))
    && forall i :: c < i < |events| ==> !Clears(events[i])
  }

  /** `o` is the last good run, and nothing was forgotten since. */
  ghost predicate LastOkIs(events: seq<Event>, o: int) {
    && 0 <= o < |events| && events[o].Run? && events[o].r.status != "error"
    && forall i :: o < i < |events| ==> !events[i].Forget? && (events[i].Run? ==> events[i].r.status == "error")
  }

  /** No good run since `f`, which is a forget or, at -1, the beginning. */
  ghost predicate NeverOkSince(events: seq<Event>, f: int) {
    && -1 <= f < |events| && (f >= 0 ==> events[f].Forget?)
    && forall i :: f < i < |events| ==> events[i].Run? ==> events[i].r.status == "error"
  }

  function StreakOf(row: Option<StatusRow>): int {
    if row.None? then 0 else row.value.failStreak
  }

  function SinceOf(row: Option<StatusRow>): int {
    if row.None? then 0 else row.value.failSince
  }

  function LastOkOf(row: Option<StatusRow>): int {
    if row.None? then 0 else row.value.lastOkAt
  }

  /** The streak counts exactly the failed runs since the last good run, resume or forget, and
      dates from the first of them. */
  lemma {:induction false} StreakExact(events: seq<Event>, c: int)
    requires PositiveTimes(events) && StreakStartsAfter(events, c)
    ensures StreakOf(Replayed(events).status) == |events| - 1 - c
    ensures SinceOf(Replayed(events).status) == if c == |events| - 1 then 0 else events[c + 1].r.at
  {
    if events != [] {
      var front, last := events[..|events| - 1], events[|events| - 1];
      assert last in events;
      if c < |events| - 1 {
        assert StreakStartsAfter(front, c);
        StreakExact(front, c);
        assert c + 1 < |front| ==> events[c + 1] in events;
      }
    }
  }

  /** The last good time is that of the last good run since the last forget, or none. */
  lemma {:induction false} LastOkExact(events: seq<Event>, o: int)
    requires PositiveTimes(events) && LastOkIs(events, o)
    ensures LastOkOf(Replayed(events).status) == events[o].r.at
  {
    var front := events[..|events| - 1];
    assert events[o] in events;
    if o < |events| - 1 {
      assert LastOkIs(front, o);
      LastOkExact(front, o);
    }
  }

  lemma {:induction false} NeverOkExact(events: seq<Event>, f: int)
    requires NeverOkSince(events, f)
    ensures LastOkOf(Replayed(events).status) == 0
  {
    if f < |events| - 1 {
      NeverOkExact(events[..|events| - 1], f);
    }
  }

  /** `o` is the last run, and nothing was forgotten since. */
  ghost predicate LastRunIs(events: seq<Event>, o: int) {
    && 0 <= o < |events| && events[o].Run?
    && forall i :: o < i < |events| ==> events[i].Resume?
  }

  /** The status shows the last run since the last forget, an empty status as "ok". */
  lemma {:induction false} LastRunExact(events: seq<Event>, o: int)
    requires LastRunIs(events, o)
    ensures var row, r := Replayed(events).status, events[o].r;
            && row.Some? && row.value.lastRunAt == r.at
            && row.value.last == r.(status := if r.status == "" then "ok" else r.status)
  {
    if o < |events| - 1 {
      assert LastRunIs(events[..|events| - 1], o);
      LastRunExact(events[..|events| - 1], o);
    }
  }

  /** There is no status exactly if there was no run since the last forget. */
  lemma {:induction false} NoStatusIff(events: seq<Event>)
    ensures Replayed(events).status.None? <==> !exists o :: LastRunIs(events, o)
  {
    if events != [] {
      var n := |events| - 1;
      NoStatusIff(events[..n]);
      if o :| LastRunIs(events[..n], o) && events[n].Resume? {
        assert LastRunIs(events, o);
      }
      if events[n].Run? {
        assert LastRunIs(events, n);
      }
      if o :| LastRunIs(events, o) && o < n {
        assert LastRunIs(events[..n], o);
      }
    }
  }

  // ---------------------------------------------------------------- the stop gate

  /** A limit is set and the streak has reached it. */
  predicate Stopped(row: Option<StatusRow>, limit: int) {
    limit > 0 && row.Some? && row.value.failStreak >= limit
  }

  /** userStopped: a status that cannot be read stops nobody. */
  method UserStopped(store: Store, name: string, limit: int, readable: bool) returns (stopped: bool)
    ensures stopped == (readable && Stopped(store.RowsOf(name).status, limit))
    ensures stopped <==> readable && limit > 0 && name in store.statuses && store.statuses[name].failStreak >= limit
  {
    if limit <= 0 || !readable {
      return false;
    }
    stopped := name in store.statuses && store.statuses[name].failStreak >= limit;
  }

  /** A cycle that would end with `r` after so many uses of the endpoints, or a command from the
      operator. The status may be unreadable, and recording the outcome may fail. */
  datatype Attempt =
    | Sync(r: RunResult, readable: bool, recorded: bool, calls: nat)
    | ResumeCommand
    | ForgetCommand

  /** The user's rows and how many times the endpoints were called. */
  datatype Gated = Gated(rows: Rows, calls: nat)

  const START := Gated(Rows(None, map[]), 0)

  function Gate(g: Gated, a: Attempt, limit: int): Gated {
    match a
    case Sync(r, readable, recorded, calls) =>
      if readable && Stopped(g.rows.status, limit) then g
      else Gated(if recorded then Applied(g.rows, Run(r)) else g.rows, g.calls + calls)
    case ResumeCommand => g.(rows := Applied(g.rows, Resume))
    case ForgetCommand => g.(rows := Applied(g.rows, Forget))
  }

  /** The endpoints of a user, which count how often they are used. */
  class Endpoints {
    var calls: nat

    constructor ()
      ensures calls == 0
    {
      calls := 0;
    }

    method Use()
      modifies this
      ensures calls == old(calls) + 1
    {
      calls := calls + 1;
    }
  }

  /** What becomes of a folder pair: errors with single messages, and then success, an error, or a
      lost connection, after which one more attempt follows if the user can be reconnected. */
  datatype PairResult = Synced | Broke | Lost(reconnects: bool, inner: nat, synced: bool)
  datatype PairPlan = PairPlan(inner: nat, result: PairResult)

  /** What becomes of a run: whether the user connects and the folders resolve, the pairs, and from
      which pair on the run is cancelled. */
  datatype UserPlan = UserPlan(connects: bool, resolves: bool, pairs: seq<PairPlan>, cancelledFrom: nat)

  /** Uses of the endpoints and recorded errors. */
  datatype Tally = Tally(calls: nat, errors: nat)

  function OfPair(p: PairPlan): Tally {
    match p.result
    case Synced => Tally(1, p.inner)
    case Broke => Tally(1, p.inner + 1)
    case Lost(reconnects, inner, synced) =>
      if !reconnects then Tally(2, p.inner + 2)
      else Tally(3, p.inner + 1 + inner + if synced then 0 else 1)
  }

  predicate EndsRun(p: PairPlan) {
    p.result.Lost? && !p.result.reconnects
  }

  /** The pairs from i on. */
  function FromPair(plan: UserPlan, i: nat): Tally
    requires i <= |plan.pairs|
    decreases |plan.pairs| - i
  {
    if i == |plan.pairs| then Tally(0, 0)
    else if i >= plan.cancelledFrom then Tally(0, 1)
    else
      var t := OfPair(plan.pairs[i]);
      if EndsRun(plan.pairs[i]) then t
      else
        var u := FromPair(plan, i + 1);
        Tally(t.calls + u.calls, t.errors + u.errors)
  }

  function Work(plan: UserPlan): Tally {
    if !plan.connects then Tally(1, 1)
    else if !plan.resolves then Tally(2, 1)
    else Tally(2 + FromPair(plan, 0).calls, FromPair(plan, 0).errors)
  }

  /** What is recorded: an error if there was any. */
  function Outcome(report: RunResult, errors: nat): RunResult {
    report.(status := if errors > 0 then "error" else "ok", errors := errors)
  }

  /** The pair is synchronized without a single error, before a cancellation. */
  predicate GoodPair(plan: UserPlan, i: nat)
    requires i < |plan.pairs|
  {
    i < plan.cancelledFrom && plan.pairs[i].inner == 0 && plan.pairs[i].result == Synced
  }

  /** A run counts as good exactly if the user connects, the folders resolve, and every pair is
      good. */
  lemma {:induction false} GoodRunIff(plan: UserPlan, report: RunResult)
    ensures Outcome(report, Work(plan).errors).status != "error"
            <==> plan.connects && plan.resolves && forall i :: 0 <= i < |plan.pairs| ==> GoodPair(plan, i)
  {
    GoodPairsIff(plan, 0);
    assert |"ok"| == 2 && |"error"| == 5;
  }

  lemma {:induction false} GoodPairsIff(plan: UserPlan, k: nat)
    requires k <= |plan.pairs|
    ensures FromPair(plan, k).errors == 0 <==> forall i :: k <= i < |plan.pairs| ==> GoodPair(plan, i)
    decreases |plan.pairs| - k
  {
    if k < |plan.pairs| {
      GoodPairsIff(plan, k + 1);
      assert OfPair(plan.pairs[k]).errors == 0 <==> plan.pairs[k].inner == 0 && plan.pairs[k].result == Synced;
      assert GoodPair(plan, k) || FromPair(plan, k).errors > 0;
      assert FromPair(plan, k).errors == 0 ==> FromPair(plan, k + 1).errors == 0;
    }
  }

  // ---------------------------------------------------------------- which pairs are attempted, and what they cost

  predicate NotSynced(p: PairPlan) {
    p.result != Synced
  }

  predicate LostIt(p: PairPlan) {
    p.result.Lost?
  }

  predicate Stranded(p: PairPlan) {
    p.result.Lost? && !p.result.reconnects
  }

  predicate FailedTwice(p: PairPlan) {
    p.result.Lost? && p.result.reconnects && !p.result.synced
  }

  /** Pair i has its turn: the user connects, the folders resolve, the run is not cancelled before,
      and no earlier pair lost the connection for good. */
  predicate HasTurn(plan: UserPlan, i: nat) {
    && plan.connects && plan.resolves && i < |plan.pairs| && i < plan.cancelledFrom
    && forall j :: 0 <= j < i ==> !Stranded(plan.pairs[j])
  }

  /** The loop comes to a pair and finds the run cancelled. */
  predicate MeetsCancel(plan: UserPlan) {
    && plan.connects && plan.resolves && plan.cancelledFrom < |plan.pairs|
    && forall j :: 0 <= j < plan.cancelledFrom ==> !Stranded(plan.pairs[j])
  }

  /** These are the pairs that had their turn. */
  ghost predicate AreAttempted(plan: UserPlan, attempted: seq<PairPlan>) {
    attempted <= plan.pairs && forall i :: 0 <= i < |plan.pairs| ==> (i < |attempted| <==> HasTurn(plan, i))
  }

  function Count(ps: seq<PairPlan>, which: PairPlan -> bool): nat {
    |set i | 0 <= i < |ps| && which(ps[i])|
  }

  /** The errors with single messages, in the first and in the second attempt. */
  function MessageErrors(ps: seq<PairPlan>): nat {
    if ps == [] then 0
    else
      var p := ps[|ps| - 1];
      MessageErrors(ps[..|ps| - 1]) + p.inner
      + if p.result.Lost? && p.result.reconnects then p.result.inner else 0
  }

  /** What the attempted pairs and the run around them amount to. */
  ghost predicate Accounts(plan: UserPlan, attempted: seq<PairPlan>, t: Tally) {
    && t.calls == (if plan.connects then 2 else 1) + |attempted| + 2 * Count(attempted, LostIt)
                  - Count(attempted, Stranded)
    && t.errors == MessageErrors(attempted) + Count(attempted, NotSynced) + Count(attempted, Stranded)
                   + Count(attempted, FailedTwice)
                   + (if !plan.connects || !plan.resolves || MeetsCancel(plan) then 1 else 0)
  }

  lemma {:induction false} CountLast(ps: seq<PairPlan>, which: PairPlan -> bool)
    requires ps != []
    ensures Count(ps, which) == Count(ps[..|ps| - 1], which) + if which(ps[|ps| - 1]) then 1 else 0
  {
    var n := |ps| - 1;
    var front := set i | 0 <= i < n && which(ps[..n][i]);
    assert (set i | 0 <= i < |ps| && which(ps[i])) == front + if which(ps[n]) then {n} else {};
  }

  function Total(ps: seq<PairPlan>): Tally {
    if ps == [] then Tally(0, 0)
    else
      var t, u := Total(ps[..|ps| - 1]), OfPair(ps[|ps| - 1]);
      Tally(t.calls + u.calls, t.errors + u.errors)
  }

  lemma {:induction false} TotalCounts(ps: seq<PairPlan>)
    ensures Total(ps).calls == |ps| + 2 * Count(ps, LostIt) - Count(ps, Stranded)
    ensures Total(ps).errors
            == MessageErrors(ps) + Count(ps, NotSynced) + Count(ps, Stranded) + Count(ps, FailedTwice)
  {
    if ps != [] {
      TotalCounts(ps[..|ps| - 1]);
      CountLast(ps, LostIt);
      CountLast(ps, Stranded);
      CountLast(ps, NotSynced);
      CountLast(ps, FailedTwice);
    }
  }

  /** The loop comes to pair i. */
  predicate Passed(plan: UserPlan, i: nat) {
    i <= |plan.pairs| && i <= plan.cancelledFrom && forall j :: 0 <= j < i ==> !Stranded(plan.pairs[j])
  }

  /** The work is what the attempted pairs and the run around them amount to. */
  lemma {:induction false} WorkAccounts(plan: UserPlan, attempted: seq<PairPlan>)
    requires AreAttempted(plan, attempted)
    ensures Accounts(plan, attempted, Work(plan))
  {
    TotalCounts(attempted);
    if plan.connects && plan.resolves {
      FromPairTotals(plan, attempted, 0);
      assert plan.pairs[..0] == [];
    } else {
      assert attempted == [] by {
        assert 0 < |plan.pairs| ==> !HasTurn(plan, 0);
      }
    }
  }

  lemma {:induction false} FromPairTotals(plan: UserPlan, attempted: seq<PairPlan>, i: nat)
    requires plan.connects && plan.resolves && AreAttempted(plan, attempted)
    requires Passed(plan, i) && i <= |attempted|
    ensures Total(attempted[..i]).calls + FromPair(plan, i).calls == Total(attempted).calls
    ensures Total(attempted[..i]).errors + FromPair(plan, i).errors
            == Total(attempted).errors + if MeetsCancel(plan) then 1 else 0
    decreases |plan.pairs| - i
  {
    if i == |attempted| {
      assert attempted[..i] == attempted;
      assert i < |plan.pairs| ==> !HasTurn(plan, i);
    } else {
      assert HasTurn(plan, i);
      assert attempted[..i + 1][..i] == attempted[..i] && attempted[i] == plan.pairs[i];
      if Stranded(plan.pairs[i]) {
        assert attempted[..i + 1] == attempted by {
          assert i + 1 < |plan.pairs| ==> !HasTurn(plan, i + 1);
        }
      } else {
        FromPairTotals(plan, attempted, i + 1);
      }
    }
  }

  /** The status shows the run as it ended: its time, its errors, and "error" if there were any. */
  predicate Tells(row: StatusRow, report: RunResult, errors: nat) {
    && row.lastRunAt == report.at
    && row.last == report.(errors := errors, status := if errors > 0 then "error" else "ok")
  }

  /** SyncUser: the stop is checked before any endpoint is touched, and a run that took place is
      recorded at the end, whatever came of it. */
  method SyncUser(store: Store, ends: Endpoints, name: string, limit: int, plan: UserPlan, report: RunResult,
                  readable: bool, recorded: bool)
    modifies store, ends
    ensures var attempt := Sync(Outcome(report, Work(plan).errors), readable, recorded, Work(plan).calls);
            Gated(store.RowsOf(name), ends.calls)
            == Gate(Gated(old(store.RowsOf(name)), old(ends.calls)), attempt, limit)
    ensures forall other :: other != name ==> store.RowsOf(other) == old(store.RowsOf(other))
    ensures var stopped := old(readable && limit > 0 && name in store.statuses
                               && store.statuses[name].failStreak >= limit);
            && (stopped ==> store.RowsOf(name) == old(store.RowsOf(name)) && ends.calls == old(ends.calls))
            && (!stopped ==> ends.calls == old(ends.calls) + Work(plan).calls)
            && (!stopped && recorded ==>
                  name in store.statuses && Tells(store.statuses[name], report, Work(plan).errors))
  {
    var stopped := UserStopped(store, name, limit, readable);
    if stopped {
      return;
    }
    var errors, _ := SyncPairs(ends, plan);
    var status := if errors > 0 then "error" else "ok";
    var _ := store.RecordRun(name, report.(status := status, errors := errors), recorded);
  }

  /** Connects, resolves the folders and goes through the pairs. */
  method SyncPairs(ends: Endpoints, plan: UserPlan) returns (errors: nat, ghost attempted: seq<PairPlan>)
    modifies ends
    ensures errors == Work(plan).errors && ends.calls == old(ends.calls) + Work(plan).calls
    ensures AreAttempted(plan, attempted)
    ensures Accounts(plan, attempted, Tally(ends.calls - old(ends.calls), errors))
  {
    errors, attempted := GoThrough(ends, plan);
    WorkAccounts(plan, attempted);
  }

  method GoThrough(ends: Endpoints, plan: UserPlan) returns (errors: nat, ghost attempted: seq<PairPlan>)
    modifies ends
    ensures errors == Work(plan).errors && ends.calls == old(ends.calls) + Work(plan).calls
    ensures AreAttempted(plan, attempted)
  {
    errors, attempted := 0, [];
    ends.Use();
    if !plan.connects {
      return 1, [];
    }
    ends.Use();
    if !plan.resolves {
      return 1, [];
    }
    var i := 0;
    while i < |plan.pairs|
      invariant Passed(plan, i) && attempted == plan.pairs[..i]
      invariant errors + FromPair(plan, i).errors == FromPair(plan, 0).errors
      invariant ends.calls + FromPair(plan, i).calls == old(ends.calls) + 2 + FromPair(plan, 0).calls
    {
      if i >= plan.cancelledFrom {
        return errors + 1, attempted;
      }
      var p := plan.pairs[i];
      attempted := plan.pairs[..i + 1];
      ends.Use();
      errors := errors + p.inner;
      if p.result != Synced {
        errors := errors + 1;
        if p.result.Lost? {
          ends.Use();
          if !p.result.reconnects {
            return errors + 1, attempted;
          }
          ends.Use();
          errors := errors + p.result.inner;
          if !p.result.synced {
            errors := errors + 1;
          }
        }
      }
      i := i + 1;
    }
  }

  function GateAll(g: Gated, attempts: seq<Attempt>, limit: int): Gated {
    if attempts == [] then g else Gate(GateAll(g, attempts[..|attempts| - 1], limit), attempts[|attempts| - 1], limit)
  }

  /** Behind a gate that can read the status, the streak never exceeds the limit. */
  lemma {:induction false} StreakNeverExceedsLimit(attempts: seq<Attempt>, limit: int)
    requires limit > 0 && forall a :: a in attempts && a.Sync? ==> a.readable
    ensures 0 <= StreakOf(GateAll(START, attempts, limit).rows.status) <= limit
  {
    if attempts != [] {
      assert attempts[|attempts| - 1] in attempts;
      StreakNeverExceedsLimit(attempts[..|attempts| - 1], limit);
    }
  }

  /** A stopped user makes no endpoint call, and keeps its rows, until a resume or a forget;
      either lifts the stop. */
  lemma {:induction false} StoppedUntilResumed(g: Gated, attempts: seq<Attempt>, limit: int)
    requires Stopped(g.rows.status, limit)
    requires forall a :: a in attempts ==> a.Sync? && a.readable
    ensures GateAll(g, attempts, limit) == g
    ensures !Stopped(Gate(GateAll(g, attempts, limit), ResumeCommand, limit).rows.status, limit)
    ensures !Stopped(Gate(GateAll(g, attempts, limit), ForgetCommand, limit).rows.status, limit)
  {
    if attempts != [] {
      assert attempts[|attempts| - 1] in attempts;
      StoppedUntilResumed(g, attempts[..|attempts| - 1], limit);
    }
  }

  // ---------------------------------------------------------------- trimmed history

  /** Every run since the last forget under its second, the last result for each. */
  function Unbounded(events: seq<Event>): map<int, RunResult> {
    if events == [] then map[]
    else
      var before := Unbounded(events[..|events| - 1]);
      match events[|events| - 1]
      case Run(r) => before[r.at := r.(status := if r.status == "" then "ok" else r.status)]
      case Resume => before
      case Forget => map[]
  }

  /** Dropping the least second changes nothing above it. */
  lemma {:induction false} LatestSize(keys: set<int>, k: nat)
    ensures |Latest(keys, k)| == if |keys| < k then |keys| else k
    decreases |keys|
  {
    if keys == {} {
      assert Latest(keys, k) == {};
    } else {
      var m := Least(keys);
      var rest := keys - {m};
      LatestSize(rest, k);
      assert Later(keys, m) == rest;
      forall x | x in rest ensures Later(keys, x) == Later(rest, x) {
      }
      assert Latest(keys, k) == Latest(rest, k) + if |rest| < k then {m} else {};
    }
  }

  lemma {:induction false} Least(keys: set<int>) returns (m: int)
    requires keys != {}
    ensures m in keys && forall x :: x in keys ==> m <= x
    decreases |keys|
  {
    var x := Member(keys);
    var rest := keys - {x};
    m := x;
    if rest != {} {
      var other := Least(rest);
      if other < x {
        m := other;
      }
    }
    assert keys == rest + {x};
  }

  lemma Member(keys: set<int>) returns (x: int)
    requires keys != {}
    ensures x in keys
  {
    EmptyOrNot(keys);
    x :| x in keys;
  }

  lemma EmptyOrNot(keys: set<int>)
    ensures keys == {} || exists x :: x in keys
  {
    if forall x :: x !in keys {
      assert keys == {};
    }
  }

  /** A dropped second has at least `k` kept ones above it. */
  lemma {:induction false} DroppedHasKeptAbove(keys: set<int>, k: nat, y: int)
    requires y in keys && y !in Latest(keys, k)
    ensures |Later(Latest(keys, k), y)| >= k
  {
    var above := Later(keys, y);
    LatestSize(above, k);
    forall x | x in Latest(above, k) ensures x in Later(Latest(keys, k), y) {
      assert Later(keys, x) == Later(above, x);
    }
    Sets.SubsetSize(Latest(above, k), Later(Latest(keys, k), y));
  }

  /** Trimming before recording one more run does not change what is kept after it. */
  lemma {:induction false} LatestOfLatest(keys: set<int>, k: nat, z: int)
    ensures Latest(Latest(keys, k) + {z}, k) == Latest(keys + {z}, k)
  {
    var kept := Latest(keys, k) + {z};
    var all := keys + {z};
    forall x | x in Latest(all, k)
      ensures x in Latest(kept, k)
    {
      Sets.SubsetSize(Later(keys, x), Later(all, x));
      Sets.SubsetSize(Later(kept, x), Later(all, x));
    }
    forall x | x in Latest(kept, k)
      ensures x in Latest(all, k)
    {
      if Later(all, x) != Later(kept, x) {
        var y :| y in Later(all, x) && y !in Later(kept, x);
        DroppedHasKeptAbove(keys, k, y);
        Sets.SubsetSize(Later(Latest(keys, k), y), Later(kept, x));
      }
    }
  }

  /** The trimmed table is, at every moment, the unbounded history cut to its 200 latest seconds,
      even when the clock goes backwards. */
  lemma {:induction false} TrimmedRefinesUnbounded(events: seq<Event>)
    ensures Replayed(events).runs == Trimmed(Unbounded(events), 200)
  {
    if events != [] {
      var front, last := events[..|events| - 1], events[|events| - 1];
      TrimmedRefinesUnbounded(front);
      if last.Run? {
        var all := Unbounded(front);
        LatestOfLatest(all.Keys, USER_RUN_KEEP, last.r.at);
        TrimAgain(all, last.r.at, Normalized(last.r), USER_RUN_KEEP);
      }
    }
  }

  lemma {:induction false} TrimAgain(all: map<int, RunResult>, at: int, r: RunResult, k: nat)
    requires Latest(Latest(all.Keys, k) + {at}, k) == Latest(all.Keys + {at}, k)
    ensures Trimmed(Trimmed(all, k)[at := r], k) == Trimmed(all[at := r], k)
  {
    assert Trimmed(all, k).Keys == Latest(all.Keys, k);
    assert Trimmed(all, k)[at := r].Keys == Latest(all.Keys, k) + {at};
    assert all[at := r].Keys == all.Keys + {at};
  }

  /** What the cut keeps: the right number of seconds, and none dropped is later than one kept. */
  lemma {:induction false} CutKeepsTheLatest(events: seq<Event>)
    ensures var kept, all := Replayed(events).runs, Unbounded(events);
            && |kept| == (if |all| < 200 then |all| else 200)
            && (forall x :: x in kept ==> x in all && kept[x] == all[x])
            && (forall x, y :: x in kept && y in all && y !in kept ==> y < x)
  {
    var kept, all := Replayed(events).runs, Unbounded(events);
    TrimmedRefinesUnbounded(events);
    LatestSize(all.Keys, USER_RUN_KEEP);
    assert kept.Keys == Latest(all.Keys, USER_RUN_KEEP);
    forall x, y | x in kept && y in all && y !in kept
      ensures y < x
    {
      if y >= x {
        Sets.SubsetSize(Later(all.Keys, y), Later(all.Keys, x));
      }
    }
  }
}
