/** The user_status and user_run rows of one user (internal/store/state.go). */
module RunRows {
  datatype Option<T> = None | Some(value: T)

  datatype RunResult = RunResult(at: int, status: string, copiedAToB: int, copiedBToA: int,
                                 skippedDup: int, errors: int, lastError: string)

  /** The user_status row. A time of 0 means never. */
  datatype StatusRow = StatusRow(lastRunAt: int, lastOkAt: int, failSince: int, failStreak: int, last: RunResult)

  const USER_RUN_KEEP := 200

  /** An empty status counts as "ok"; only "error" is a failure. */
  function Normalized(r: RunResult): RunResult {
    if r.status == "" then r.(status := "ok") else r
  }

  predicate Failed(r: RunResult) {
    r.status == "error"
  }

  // ---------------------------------------------------------------- one user's rows as functions

  /** The status row after recording a run over the row before, if any. */
  function Recorded(row: Option<StatusRow>, r: RunResult): StatusRow {
    var n := Normalized(r);
    if row.None? then
      StatusRow(n.at, if Failed(n) then 0 else n.at, if Failed(n) then n.at else 0, if Failed(n) then 1 else 0, n)
    else
      var before := row.value;
      StatusRow(n.at,
                if !Failed(n) && n.at > 0 then n.at else before.lastOkAt,
                if !Failed(n) then 0 else if before.failSince > 0 then before.failSince else n.at,
                if Failed(n) then before.failStreak + 1 else 0,
                n)
  }

  function Resumed(row: Option<StatusRow>): Option<StatusRow> {
    if row.None? then None else Some(row.value.(failSince := 0, failStreak := 0))
  }

  /** How many of the seconds are later than `x`. */
  function Later(keys: set<int>, x: int): set<int> {
    set y | y in keys && y > x
  }

  /** The `k` latest of the seconds. */
  function Latest(keys: set<int>, k: nat): set<int> {
    set x | x in keys && |Later(keys, x)| < k
  }

  function Trimmed(runs: map<int, RunResult>, k: nat): map<int, RunResult> {
    map x | x in runs && x in Latest(runs.Keys, k) :: runs[x]
  }

  datatype Event = Run(r: RunResult) | Resume | Forget

  datatype Rows = Rows(status: Option<StatusRow>, runs: map<int, RunResult>)

  /** What the store operations above make of one user's rows. */
  function Applied(rows: Rows, e: Event): Rows {
    match e
    case Run(r) => Rows(Some(Recorded(rows.status, r)), Trimmed(rows.runs[r.at := Normalized(r)], USER_RUN_KEEP))
    case Resume => rows.(status := Resumed(rows.status))
    case Forget => Rows(None, map[])
  }
}

/** The SQLite state tables (internal/store/state.go) as maps, each transaction one step. */
module State {
  import opened RunRows
  import opened Text

  /** A message row of the cache. */
  datatype CachedMsg = CachedMsg(id: string, msgID: string, xhash: string, surrogate: string,
                                 internalDate: int, flags: seq<string>)

  /** The row of one side of a folder pair; no time means no full rescan yet. */
  datatype EndpointRow = EndpointRow(validity: string, fullResyncAt: Option<int>)

  /** user_name, pair and side: the primary key of both cache tables. */
  datatype Side = Side(user: string, pair: string, side: string)

  /** Everything the cache tables hold for one side. */
  datatype Slot = Slot(endpoint: Option<EndpointRow>, rows: map<string, CachedMsg>)

  const EMPTY_SLOT := Slot(None, map[])

  const DELETE_CHUNK := 400

  /** The table after inserting or replacing the messages in turn. */
  function Upserted(rows: map<string, CachedMsg>, msgs: seq<CachedMsg>): map<string, CachedMsg> {
    if msgs == [] then rows
    else Upserted(rows, msgs[..|msgs| - 1])[msgs[|msgs| - 1].id := msgs[|msgs| - 1]]
  }

  /** Of several rows with one ID the last stays, in place of any stored before; other rows stay. */
  lemma {:induction false} UpsertedIs(rows: map<string, CachedMsg>, msgs: seq<CachedMsg>, id: string, last: int)
    requires -1 <= last < |msgs| && (last >= 0 ==> msgs[last].id == id)
    requires forall i :: last < i < |msgs| ==> msgs[i].id != id
    ensures last >= 0 ==> id in Upserted(rows, msgs) && Upserted(rows, msgs)[id] == msgs[last]
    ensures last < 0 ==> (id in Upserted(rows, msgs) <==> id in rows)
    ensures last < 0 && id in rows ==> Upserted(rows, msgs)[id] == rows[id]
  {
    if last < |msgs| - 1 {
      UpsertedIs(rows, msgs[..|msgs| - 1], id, last);
    }
  }

  function PairKey(folderA: string, folderB: string): string {
    folderA + [0 as char] + folderB
  }

  /** Pair keys tell folder pairs apart as long as the A names hold no NUL. */
  lemma PairKeyInjective(a: string, b: string, a': string, b': string)
    requires 0 as char !in a && 0 as char !in a'
    requires PairKey(a, b) == PairKey(a', b')
    ensures a == a' && b == b'
  {
    var k := PairKey(a, b);
    assert k[|a|] == 0 as char && k[|a'|] == 0 as char;
    assert forall i :: 0 <= i < |a| ==> k[i] == a[i];
    assert forall i :: 0 <= i < |a'| ==> k[i] == a'[i];
    assert |a| == |a'|;
    assert a == k[..|a|] && b == k[|a| + 1..];
  }

  class Store {
    var endpoints: map<Side, EndpointRow>
    var msgs: map<Side, map<string, CachedMsg>>
    var statuses: map<string, StatusRow>
    var runs: map<string, map<int, RunResult>>

    constructor ()
      ensures endpoints == map[] && msgs == map[] && statuses == map[] && runs == map[]
    {
      endpoints, msgs, statuses, runs := map[], map[], map[], map[];
    }

    ghost function SlotOf(at: Side): Slot
      reads this
    {
      Slot(if at in endpoints then Some(endpoints[at]) else None,
           if at in msgs then msgs[at] else map[])
    }

    /** The rows of other sides stay as they are. */
    twostate predicate OnlyTouches(at: Side)
      reads this
    {
      forall other :: other != at ==> SlotOf(other) == old(SlotOf(other))
    }

    /** Without an endpoint row nothing is loaded, whatever message rows exist; nor when the
        database cannot be read. */
    method LoadEndpoint(at: Side, works: bool)
        returns (ok: bool, saved: Option<EndpointRow>, cached: map<string, CachedMsg>)
      ensures ok == works
      ensures saved == if ok then SlotOf(at).endpoint else None
      ensures cached == if saved.None? then map[] else SlotOf(at).rows
    {
      ok := works;
      if !works || at !in endpoints {
        return ok, None, map[];
      }
      saved := Some(endpoints[at]);
      cached := if at in msgs then msgs[at] else map[];
    }

    method SaveEndpoint(at: Side, validity: string, fullResyncAt: Option<int>, works: bool) returns (ok: bool)
      modifies this`endpoints, this`msgs
      ensures ok == works && OnlyTouches(at)
      ensures SlotOf(at) == if works then old(SlotOf(at)).(endpoint := Some(EndpointRow(validity, fullResyncAt)))
                            else old(SlotOf(at))
    {
      if works {
        endpoints := endpoints[at := EndpointRow(validity, fullResyncAt)];
      }
      ok := works;
    }

    /** All the rows go in, or, when the transaction fails, none. */
    method PutCachedMsgs(at: Side, batch: seq<CachedMsg>, works: bool) returns (ok: bool)
      modifies this`endpoints, this`msgs
      ensures ok == (works || batch == []) && OnlyTouches(at)
      ensures SlotOf(at) == if works then old(SlotOf(at)).(rows := Upserted(old(SlotOf(at)).rows, batch))
                            else old(SlotOf(at))
    {
      if |batch| == 0 {
        return true;
      }
      var before := if at in msgs then msgs[at] else map[];
      var rows := before;
      for i := 0 to |batch|
        invariant rows == Upserted(before, batch[..i])
      {
        assert batch[..i + 1][..i] == batch[..i];
        rows := rows[batch[i].id := batch[i]];
      }
      assert batch[..|batch|] == batch;
      if works {
        msgs := msgs[at := rows];
      }
      ok := works;
    }

    /** Deletes in chunks; when only the first `chunks` of them work, the IDs of those are gone. */
    method DeleteCachedMsgs(at: Side, ids: seq<string>, chunks: nat) returns (ok: bool, ghost gone: seq<string>)
      modifies this`endpoints, this`msgs
      ensures OnlyTouches(at)
      ensures gone <= ids && SlotOf(at) == old(SlotOf(at)).(rows := old(SlotOf(at)).rows - set id | id in gone)
      ensures ok == (gone == ids) && (ok || |gone| == chunks * 400)
    {
      var start := 0;
      var done := 0;
      gone := [];
      ghost var before := SlotOf(at);
      while start < |ids|
        invariant 0 <= done <= chunks
        invariant start == done * DELETE_CHUNK || (start >= |ids| && gone == ids)
        invariant gone == if start <= |ids| then ids[..start] else ids
        invariant SlotOf(at) == before.(rows := before.rows - set id | id in gone) && OnlyTouches(at)
        decreases |ids| - start
      {
        var end := if start + DELETE_CHUNK < |ids| then start + DELETE_CHUNK else |ids|;
        if done == chunks {
          return false, gone;
        }
        var batch := ids[start..end];
        if at in msgs {
          msgs := msgs[at := msgs[at] - set id | id in batch];
        }
        assert ids[..end] == ids[..start] + batch;
        gone := ids[..end];
        start := start + DELETE_CHUNK;
        done := done + 1;
      }
      ok := true;
    }

    /** Rows and endpoint go together, or not at all. */
    method ResetEndpoint(at: Side, works: bool) returns (ok: bool)
      modifies this`endpoints, this`msgs
      ensures ok == works && OnlyTouches(at)
      ensures SlotOf(at) == if works then EMPTY_SLOT else old(SlotOf(at))
    {
      if works {
        msgs := msgs - {at};
        endpoints := endpoints - {at};
      }
      ok := works;
    }

    // ---------------------------------------------------------------- run bookkeeping

    ghost function RowsOf(user: string): Rows
      reads this
    {
      Rows(if user in statuses then Some(statuses[user]) else None,
           if user in runs then runs[user] else map[])
    }

    /** One transaction: the history row, the status row, and the trim; or nothing. */
    method RecordRun(user: string, r: RunResult, works: bool) returns (ok: bool)
      modifies this`statuses, this`runs
      ensures ok == works
      ensures RowsOf(user) == if ok then Applied(old(RowsOf(user)), Run(r)) else old(RowsOf(user))
      ensures forall other :: other != user ==> RowsOf(other) == old(RowsOf(other))
    {
      ok := works;
      if !works {
        return;
      }
      var n := if r.status == "" then r.(status := "ok") else r;
      var mine := (if user in runs then runs[user] else map[])[n.at := n];
      var lastOk, failSince, failStreak := 0, 0, 0;
      if n.status != "error" {
        lastOk := n.at;
      } else {
        failSince, failStreak := n.at, 1;
      }
      if user in statuses {
        var before := statuses[user];
        var since := 0;
        if n.status == "error" {
          since := if before.failSince > 0 then before.failSince else n.at;
        }
        statuses := statuses[user := StatusRow(n.at, if lastOk > 0 then lastOk else before.lastOkAt, since,
                                               if n.status == "error" then before.failStreak + 1 else 0, n)];
      } else {
        statuses := statuses[user := StatusRow(n.at, lastOk, failSince, failStreak, n)];
      }
      runs := runs[user := Trimmed(mine, USER_RUN_KEEP)];
    }

    /** Lifts the stop; reports an error when the update fails or there is no status to clear. */
    method ResumeUser(name: string, works: bool) returns (ok: bool)
      modifies this`statuses
      ensures ok == (works && old(RowsOf(TrimSpace(name))).status.Some?)
      ensures RowsOf(TrimSpace(name))
              == if works then Applied(old(RowsOf(TrimSpace(name))), Resume) else old(RowsOf(TrimSpace(name)))
      ensures forall other :: other != TrimSpace(name) ==> RowsOf(other) == old(RowsOf(other))
    {
      var user := TrimSpace(name);
      ok := works && user in statuses;
      if ok {
        statuses := statuses[user := statuses[user].(failSince := 0, failStreak := 0)];
      }
    }

    /** Drops the user's cache, status and history in one transaction, and nobody else's; a failed
        transaction drops nothing. */
    method ForgetUser(name: string, works: bool) returns (ok: bool)
      modifies this
      ensures ok == works
      ensures RowsOf(TrimSpace(name))
              == if ok then Applied(old(RowsOf(TrimSpace(name))), Forget) else old(RowsOf(TrimSpace(name)))
      ensures forall other :: other != TrimSpace(name) ==> RowsOf(other) == old(RowsOf(other))
      ensures forall at: Side ::
                SlotOf(at) == if ok && at.user == TrimSpace(name) then EMPTY_SLOT else old(SlotOf(at))
    {
      ok := works;
      if !works {
        return;
      }
      var user := TrimSpace(name);
      msgs := map at | at in msgs && at.user != user :: msgs[at];
      endpoints := map at | at in endpoints && at.user != user :: endpoints[at];
      statuses := statuses - {user};
      runs := runs - {user};
    }
  }
}
