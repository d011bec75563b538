/** One cycle of the worker pool (internal/syncer/pool.go) as a protocol: a feeder hands users
    over an unbuffered channel to workers that process one user at a time, and the cycle may be
    cancelled at any moment. Users are named by their position in the list. */
module Pool {

  /** No more workers than users, and at least one. */
  function Workers(configured: int, users: nat): (w: nat)
    ensures 1 <= configured <= users ==> w == configured
    ensures 1 <= users <= configured ==> w == users
    ensures configured < 1 || users == 0 ==> w == 1
  {
    var w := if configured > users then users else configured;
    if w < 1 then 1 else w
  }

  datatype Worker = Idle | Busy(user: nat) | Exited

  /** `started` lists, in order, which user was taken by which worker. */
  datatype Cycle = Cycle(next: nat, closed: bool, cancelled: bool, workers: seq<Worker>,
                         started: seq<(nat, nat)>, finished: seq<nat>, returned: bool)

  datatype Move =
    | Send(worker: nat)    // the feeder and an idle worker meet on the channel
    | StopFeeding          // the feeder sees the cancellation
    | EndOfList            // the feeder has offered every user
    | Finish(worker: nat)  // SyncUser returns
    | Exit(worker: nat)    // a worker finds the channel closed
    | Cancel
    | Return               // the wait group is done

  predicate Enabled(n: nat, c: Cycle, m: Move) {
    match m
    case Send(w) => !c.closed && c.next < n && w < |c.workers| && c.workers[w].Idle?
    case StopFeeding => !c.closed && c.next < n && c.cancelled
    case EndOfList => !c.closed && c.next == n
    case Finish(w) => w < |c.workers| && c.workers[w].Busy?
    case Exit(w) => c.closed && w < |c.workers| && c.workers[w].Idle?
    case Cancel => !c.cancelled
    case Return => !c.returned && c.closed && forall i :: 0 <= i < |c.workers| ==> c.workers[i].Exited?
  }

  function After(n: nat, c: Cycle, m: Move): Cycle
    requires Enabled(n, c, m)
  {
    match m
    case Send(w) =>
      c.(next := c.next + 1, workers := c.workers[w := Busy(c.next)], started := c.started + [(c.next, w)])
    case StopFeeding => c.(closed := true)
    case EndOfList => c.(closed := true)
    case Finish(w) => c.(workers := c.workers[w := Idle], finished := c.finished + [c.workers[w].user])
    case Exit(w) => c.(workers := c.workers[w := Exited])
    case Cancel => c.(cancelled := true)
    case Return => c.(returned := true)
  }

  function Start(workers: nat): Cycle {
    Cycle(0, false, false, seq(workers, i => Idle), [], [], false)
  }

  /** Any interleaving of moves, starting with idle workers. */
  ghost predicate IsCycle(n: nat, configured: int, run: seq<Cycle>, moves: seq<Move>) {
    && |run| == |moves| + 1
    && run[0] == Start(Workers(configured, n))
    && forall i :: 0 <= i < |moves| ==> Enabled(n, run[i], moves[i]) && run[i + 1] == After(n, run[i], moves[i])
  }

  // ---------------------------------------------------------------- what every move keeps

  ghost predicate Handling(c: Cycle, u: nat) {
    exists w :: 0 <= w < |c.workers| && c.workers[w] == Busy(u)
  }

  ghost predicate Inv(n: nat, workers: nat, c: Cycle) {
    && |c.workers| == workers
    && c.next == |c.started| <= n
    // started users are a prefix of the list, each taken by one worker
    && (forall u :: 0 <= u < c.next ==> c.started[u].0 == u && c.started[u].1 < workers)
    // a busy worker is processing the user it took, which is not finished
    && (forall w :: 0 <= w < workers && c.workers[w].Busy? ==>
          c.workers[w].user < c.next && c.started[c.workers[w].user].1 == w && c.workers[w].user !in c.finished)
    // finished users were started, and are finished once
    && (forall i :: 0 <= i < |c.finished| ==> c.finished[i] < c.next)
    && (forall i, j :: 0 <= i < j < |c.finished| ==> c.finished[i] != c.finished[j])
    // no started user is lost
    && (forall u :: 0 <= u < c.next ==> u in c.finished || Handling(c, u))
    && (forall w :: 0 <= w < workers && c.workers[w].Exited? ==> c.closed)
    && (c.closed && !c.cancelled ==> c.next == n)
    && (c.returned ==> c.closed && forall w :: 0 <= w < workers ==> c.workers[w].Exited?)
  }

  lemma NoneLost(n: nat, workers: nat, c: Cycle, m: Move)
    requires Inv(n, workers, c) && Enabled(n, c, m)
    ensures var c' := After(n, c, m); forall u :: 0 <= u < c'.next ==> u in c'.finished || Handling(c', u)
  {
    var c' := After(n, c, m);
    forall u | 0 <= u < c'.next
      ensures u in c'.finished || Handling(c', u)
    {
      if u == c.next {
        assert c'.workers[m.worker] == Busy(u);
      } else if u !in c.finished {
        var w :| 0 <= w < |c.workers| && c.workers[w] == Busy(u);
        if m == Finish(w) {
          assert c'.finished[|c.finished|] == u;
        } else {
          assert c'.workers[w] == Busy(u);
        }
      }
    }
  }

  lemma MoveKeepsInv(n: nat, workers: nat, c: Cycle, m: Move)
    requires Inv(n, workers, c) && Enabled(n, c, m)
    ensures Inv(n, workers, After(n, c, m))
  {
    NoneLost(n, workers, c, m);
    var c' := After(n, c, m);
    if m.Finish? {
      var u := c.workers[m.worker].user;
      forall w | 0 <= w < workers && c'.workers[w].Busy?
        ensures c'.workers[w].user !in c'.finished
      {
        assert c.started[c.workers[w].user].1 == w;
      }
    }
  }

  lemma {:induction false} CycleKeepsInv(n: nat, configured: int, run: seq<Cycle>, moves: seq<Move>, k: nat)
    requires IsCycle(n, configured, run, moves) && k < |run|
    ensures Inv(n, Workers(configured, n), run[k])
  {
    if k > 0 {
      CycleKeepsInv(n, configured, run, moves, k - 1);
      MoveKeepsInv(n, Workers(configured, n), run[k - 1], moves[k - 1]);
    }
  }

  /** In every reachable state: the started users are the first ones of the list, in order; no
      two workers process the same user and none a finished one; nobody finishes twice. */
  lemma {:induction false} EachUserOnce(n: nat, configured: int, run: seq<Cycle>, moves: seq<Move>, k: nat)
    requires IsCycle(n, configured, run, moves) && k < |run|
    ensures var c := run[k];
            && |c.workers| == Workers(configured, n)
            && |c.started| <= n && (forall u :: 0 <= u < |c.started| ==> c.started[u].0 == u)
            && (forall w, w' :: 0 <= w < w' < |c.workers| && c.workers[w].Busy? ==> c.workers[w] != c.workers[w'])
            && (forall w :: 0 <= w < |c.workers| && c.workers[w].Busy? ==> c.workers[w].user !in c.finished)
            && (forall i, j :: 0 <= i < j < |c.finished| ==> c.finished[i] != c.finished[j])
            && (forall u :: u in c.finished ==> u < |c.started|)
  {
    CycleKeepsInv(n, configured, run, moves, k);
  }

  // ---------------------------------------------------------------- progress

  /** No reachable state is stuck before the cycle has returned. */
  lemma {:induction false} NeverStuck(n: nat, configured: int, run: seq<Cycle>, moves: seq<Move>, k: nat)
      returns (m: Move)
    requires IsCycle(n, configured, run, moves) && k < |run| && !run[k].returned
    ensures m != Cancel && Enabled(n, run[k], m)
  {
    CycleKeepsInv(n, configured, run, moves, k);
    var c := run[k];
    if w :| 0 <= w < |c.workers| && c.workers[w].Busy? {
      m := Finish(w);
    } else if !c.closed {
      m := if c.next == n then EndOfList else Send(0);
    } else if w :| 0 <= w < |c.workers| && c.workers[w].Idle? {
      m := Exit(w);
    } else {
      m := Return;
    }
  }

  function Weight(w: Worker): nat {
    match w case Idle => 1 case Busy(_) => 2 case Exited => 0
  }

  function Load(ws: seq<Worker>): nat {
    if ws == [] then 0 else Load(ws[..|ws| - 1]) + Weight(ws[|ws| - 1])
  }

  lemma {:induction false} LoadUpdate(ws: seq<Worker>, i: nat, w: Worker)
    requires i < |ws|
    ensures Load(ws[i := w]) == Load(ws) - Weight(ws[i]) + Weight(w)
  {
    var front := ws[..|ws| - 1];
    if i == |ws| - 1 {
      assert ws[i := w][..|ws| - 1] == front;
    } else {
      assert ws[i := w][..|ws| - 1] == front[i := w];
      LoadUpdate(front, i, w);
    }
  }

  /** What is still to happen, at most. */
  function Remaining(n: nat, c: Cycle): int {
    3 * (n - c.next) + Load(c.workers)
    + (if c.closed then 0 else 1) + (if c.cancelled then 0 else 1) + (if c.returned then 0 else 1)
  }

  lemma MoveMakesProgress(n: nat, c: Cycle, m: Move)
    requires Enabled(n, c, m)
    ensures Remaining(n, After(n, c, m)) < Remaining(n, c)
  {
    if m.Send? {
      LoadUpdate(c.workers, m.worker, Busy(c.next));
    } else if m.Finish? {
      LoadUpdate(c.workers, m.worker, Idle);
    } else if m.Exit? {
      LoadUpdate(c.workers, m.worker, Exited);
    }
  }

  lemma {:induction false} ProgressSoFar(n: nat, configured: int, run: seq<Cycle>, moves: seq<Move>, k: nat)
    requires IsCycle(n, configured, run, moves) && k < |run|
    ensures Remaining(n, run[k]) <= Remaining(n, run[0]) - k
  {
    if k > 0 {
      ProgressSoFar(n, configured, run, moves, k - 1);
      MoveMakesProgress(n, run[k - 1], moves[k - 1]);
    }
  }

  lemma {:induction false} LoadOfIdle(workers: nat)
    ensures Load(seq(workers, i => Idle)) == workers
  {
    if workers > 0 {
      LoadOfIdle(workers - 1);
      assert seq(workers, i => Idle)[..workers - 1] == seq(workers - 1, i => Idle);
    }
  }

  /** Every interleaving ends: no cycle makes more than 3 * users + workers + 3 moves. */
  lemma {:induction false} EveryCycleEnds(n: nat, configured: int, run: seq<Cycle>, moves: seq<Move>)
    requires IsCycle(n, configured, run, moves)
    ensures |moves| <= 3 * n + Workers(configured, n) + 3
  {
    ProgressSoFar(n, configured, run, moves, |moves|);
    LoadOfIdle(Workers(configured, n));
    CycleKeepsInv(n, configured, run, moves, |moves|);
  }

  /** After a cancellation the feeder may stop in any state with users left, though a user may still be
      started if a worker is idle; once it has stopped nobody is started any more. */
  lemma {:induction false} CancelStopsFeeding(n: nat, configured: int, run: seq<Cycle>, moves: seq<Move>, i: nat,
                                              j: nat)
    requires IsCycle(n, configured, run, moves) && i <= j < |run|
    ensures run[i].cancelled && !run[i].closed && |run[i].started| < n ==>
              && Enabled(n, run[i], StopFeeding) && After(n, run[i], StopFeeding).closed
              && forall w :: 0 <= w < |run[i].workers| && run[i].workers[w].Idle? ==> Enabled(n, run[i], Send(w))
    ensures run[i].closed ==> run[j].closed && run[j].started == run[i].started
    ensures run[i].cancelled ==> run[j].cancelled
  {
    CycleKeepsInv(n, configured, run, moves, i);
    if i < j {
      CancelStopsFeeding(n, configured, run, moves, i, j - 1);
    }
  }

  /** When the cycle returns, exactly the started users have finished, each once; if it was not
      cancelled, those are all users. */
  lemma {:induction false} ReturnedMeansDone(n: nat, configured: int, run: seq<Cycle>, moves: seq<Move>, k: nat)
    requires IsCycle(n, configured, run, moves) && k < |run| && run[k].returned
    ensures forall u :: u in run[k].finished <==> 0 <= u < |run[k].started|
    ensures |run[k].finished| == |run[k].started|
    ensures !run[k].cancelled ==> |run[k].started| == n
  {
    CycleKeepsInv(n, configured, run, moves, k);
    var c := run[k];
    forall u | 0 <= u < |c.started| ensures u in c.finished {
      assert !Handling(c, u);
    }
    forall u | u in c.finished ensures 0 <= u < |c.started| {
      var i :| 0 <= i < |c.finished| && c.finished[i] == u;
    }
    PermutationLength(c.finished, c.next);
  }

  /** Distinct numbers that are exactly those below `n` are `n` in number. */
  lemma {:induction false} PermutationLength(s: seq<nat>, n: nat)
    requires forall i, j :: 0 <= i < j < |s| ==> s[i] != s[j]
    requires forall u :: u in s <==> 0 <= u < n
    ensures |s| == n
  {
    if s == [] {
      assert 0 in s <==> 0 < n;
    } else {
      assert s[0] in s;
      assert n - 1 in s;
      var i :| 0 <= i < |s| && s[i] == n - 1;
      var t := s[..i] + s[i + 1..];
      forall u ensures u in t <==> 0 <= u < n - 1 {
        if u in s && u != n - 1 {
          var j :| 0 <= j < |s| && s[j] == u;
          assert if j < i then t[j] == u else t[j - 1] == u;
        }
        if u in t {
          var j :| 0 <= j < |t| && t[j] == u;
          assert s[if j < i then j else j + 1] == u;
        }
      }
      PermutationLength(t, n - 1);
    }
  }
}
