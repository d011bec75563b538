/** Fetching headers in batches (internal/mailbox/client.go). Sequence numbers are unsigned 32-bit
    numbers, so the loop variable of FetchHeaders wraps around. */
module Batching {
  const LIMIT: nat := 0x1_0000_0000

  function Wrap(n: nat): (r: nat)
    ensures r < LIMIT && (n < LIMIT ==> r == n)
  {
    n % LIMIT
  }

  /** Addition of 32-bit numbers. */
  function Add(x: nat, y: nat): (r: nat)
    requires x < LIMIT && y < LIMIT
    ensures r < LIMIT
  {
    if x + y < LIMIT then x + y else x + y - LIMIT
  }

  /** The loop variable after n rounds, and what it would be without a limit. */
  function FromAt(batch: nat, n: nat): (r: nat)
    requires batch < LIMIT
    ensures r < LIMIT
  {
    if n == 0 then 1 else Add(FromAt(batch, n - 1), batch)
  }

  function Start(batch: nat, n: nat): nat {
    if n == 0 then 1 else Start(batch, n - 1) + batch
  }

  /** The number of batches that cover the messages from..total. */
  function RoundsFrom(total: nat, batch: nat, from: nat): nat
    requires batch > 0
    decreases if from <= total then total - from + 1 else 0
  {
    if from > total then 0 else 1 + RoundsFrom(total, batch, from + batch)
  }

  function Rounds(total: nat, batch: nat): nat
    requires batch > 0
  {
    RoundsFrom(total, batch, 1)
  }

  /** The end of the last batch can be counted. */
  predicate Countable(total: nat, batch: nat)
    requires batch > 0
  {
    Start(batch, Rounds(total, batch)) < LIMIT
  }

  // ---------------------------------------------------------------- the same in closed form

  lemma {:induction false} StartIs(batch: nat, n: nat)
    ensures Start(batch, n) == 1 + n * batch
  {
    if n > 0 {
      StartIs(batch, n - 1);
      assert n * batch == (n - 1) * batch + batch;
    }
  }

  /** The loop variable is what it would be without a limit, modulo 2^32. */
  lemma {:induction false} FromAtIs(batch: nat, n: nat) returns (wraps: nat)
    requires batch < 0x1_0000_0000
    ensures FromAt(batch, n) < 0x1_0000_0000 && FromAt(batch, n) + wraps * 0x1_0000_0000 == 1 + n * batch
  {
    wraps := 0;
    if n > 0 {
      wraps := FromAtIs(batch, n - 1);
      assert n * batch == (n - 1) * batch + batch;
      if FromAt(batch, n - 1) + batch >= 0x1_0000_0000 {
        wraps := wraps + 1;
      }
    }
  }

  lemma {:induction false} CeilingIs(total: nat, batch: nat, k: nat)
    requires batch > 0 && k * batch >= total && (k > 0 ==> (k - 1) * batch < total) && (k == 0 ==> total == 0)
    ensures (total + batch - 1) / batch == k
  {
    var r := total + batch - 1 - k * batch;
    assert (k - 1) * batch == k * batch - batch;
    assert 0 <= r < batch;
    assert total + batch - 1 == k * batch + r;
    DivIs(batch, k, r);
  }

  lemma {:induction false} DivIs(batch: nat, k: nat, r: nat)
    requires r < batch
    ensures (k * batch + r) / batch == k
  {
    var q := (k * batch + r) / batch;
    assert q * batch <= k * batch + r < q * batch + batch;
    MoreBatches(q, k, batch);
    MoreBatches(k, q, batch);
  }

  lemma MoreBatches(x: nat, y: nat, batch: nat)
    ensures x < y ==> x * batch + batch <= y * batch
  {
    assert x < y ==> (x + 1) * batch <= y * batch;
  }

  /** There are as many rounds as batches cover the messages, and they can be counted exactly if the
      number after the end of the last batch is below 2^32. */
  lemma {:induction false} CountableIff(total: nat, batch: nat)
    requires batch > 0
    ensures Rounds(total, batch) == (total + batch - 1) / batch
    ensures Countable(total, batch) <==> 1 + Rounds(total, batch) * batch < 0x1_0000_0000
  {
    var k := Rounds(total, batch);
    StartWithin(total, batch, k);
    StartIs(batch, k);
    if k > 0 {
      StartWithin(total, batch, k - 1);
      StartIs(batch, k - 1);
    }
    CeilingIs(total, batch, k);
  }

  /** Each request ends before the next begins, or at the last message; the end wraps around too. */
  lemma {:induction false} RequestIs(total: nat, batch: nat, n: nat)
    requires batch < 0x1_0000_0000
    ensures var r, end := RequestAt(total, batch, n), FromAt(batch, n) + batch - 1;
            var wrapped := if end < 0 then end + 0x1_0000_0000
                           else if end < 0x1_0000_0000 then end else end - 0x1_0000_0000;
            r.from == FromAt(batch, n) && r.to == if wrapped < total then wrapped else total
  {
  }

  // ---------------------------------------------------------------- when the loop ends in time

  lemma {:induction false} RoundsSplit(total: nat, batch: nat, n: nat)
    requires batch > 0 && n <= Rounds(total, batch)
    ensures Rounds(total, batch) == n + RoundsFrom(total, batch, Start(batch, n))
  {
    if n > 0 {
      RoundsSplit(total, batch, n - 1);
    }
  }

  /** Without a limit the loop runs exactly that many rounds. */
  lemma {:induction false} StartWithin(total: nat, batch: nat, n: nat)
    requires batch > 0 && n <= Rounds(total, batch)
    ensures Start(batch, n) <= total <==> n < Rounds(total, batch)
  {
    RoundsSplit(total, batch, n);
  }

  /** Below the limit nothing wraps around. */
  lemma {:induction false} NoWrap(batch: nat, n: nat)
    requires Start(batch, n) < LIMIT && batch < LIMIT
    ensures FromAt(batch, n) == Start(batch, n)
  {
    if n > 0 {
      NoWrap(batch, n - 1);
    }
  }

  /** The loop runs through all rounds, and then it ends if and only if the batches are countable;
      otherwise its variable has wrapped around to a number below one already fetched. */
  lemma {:induction false} LoopEndsIff(total: nat, batch: nat)
    requires 0 < total < LIMIT && 0 < batch < LIMIT
    ensures var k := Rounds(total, batch);
            && k > 0 && (forall n :: 0 <= n < k ==> FromAt(batch, n) <= total)
            && (FromAt(batch, k) > total <==> Countable(total, batch))
            && (!Countable(total, batch) ==> FromAt(batch, k) < FromAt(batch, k - 1))
  {
    var k := Rounds(total, batch);
    forall n | 0 <= n < k ensures FromAt(batch, n) <= total {
      StartWithin(total, batch, n);
      NoWrap(batch, n);
    }
    StartWithin(total, batch, k - 1);
    StartWithin(total, batch, k);
    NoWrap(batch, k - 1);
    LastRound(total, batch, Start(batch, k - 1));
  }

  lemma LastRound(total: nat, batch: nat, from: nat)
    requires from <= total < from + batch && total < LIMIT && batch < LIMIT
    ensures Add(from, batch) > total <==> from + batch < LIMIT
    ensures from + batch >= LIMIT ==> Add(from, batch) < from
  {
  }

  // ---------------------------------------------------------------- when it ends at all

  function Pow2(k: nat): (p: nat)
    ensures p > 0
  {
    if k == 0 then 1 else 2 * Pow2(k - 1)
  }

  /** The largest power of two that divides a number. */
  function TwoPart(b: nat): (g: nat)
    requires b > 0
    ensures 0 < g <= b
  {
    if b % 2 == 1 then 1 else 2 * TwoPart(b / 2)
  }

  /** The largest number the loop variable ever takes. */
  function Top(batch: nat): int
    requires batch > 0
  {
    if TwoPart(batch) == 1 then LIMIT - 1 else LIMIT - TwoPart(batch) + 1
  }

  lemma {:induction false} Decompose(b: nat) returns (j: nat, o: nat)
    requires b > 0
    ensures TwoPart(b) == Pow2(j) && b == Pow2(j) * o && o % 2 == 1
  {
    if b % 2 == 1 {
      j, o := 0, b;
    } else {
      j, o := Decompose(b / 2);
      DoubleProduct(b, Pow2(j), o);
      j := j + 1;
    }
  }

  lemma DoubleProduct(b: nat, p: nat, o: nat)
    requires b % 2 == 0 && b / 2 == p * o
    ensures b == (2 * p) * o
  {
  }

  lemma {:induction false} Pow2Adds(i: nat, j: nat)
    ensures Pow2(i + j) == Pow2(i) * Pow2(j)
  {
    if j > 0 {
      Pow2Adds(i, j - 1);
      assert Pow2(i) * (2 * Pow2(j - 1)) == 2 * (Pow2(i) * Pow2(j - 1));
    }
  }

  lemma {:induction false} Pow2Grows(i: nat, j: nat)
    requires i <= j
    ensures Pow2(i) <= Pow2(j)
  {
    if i < j {
      Pow2Grows(i, j - 1);
    }
  }

  lemma LimitIsPow2()
    ensures Pow2(32) == LIMIT
  {
    assert Pow2(8) == 0x100;
    Pow2Adds(8, 8);
    Pow2Adds(16, 16);
  }

  /** The limit is a multiple of the largest power of two that divides a smaller number. */
  lemma {:induction false} LimitSplits(b: nat, j: nat, o: nat)
    requires 0 < b < LIMIT && b == Pow2(j) * o && o % 2 == 1
    ensures j < 32 && LIMIT == Pow2(j) * Pow2(32 - j)
  {
    LimitIsPow2();
    assert Pow2(j) <= b by {
      assert o >= 1;
      assert Pow2(j) * o >= Pow2(j) * 1;
    }
    if j >= 32 {
      Pow2Grows(32, j);
    }
    Pow2Adds(j, 32 - j);
  }

  /** An odd number has an inverse modulo every power of two. */
  lemma {:induction false} OddInverse(o: nat, k: nat) returns (x: nat, c: nat)
    requires o % 2 == 1
    ensures o * x == 1 + c * Pow2(k)
  {
    if k == 0 {
      x, c := 1, o - 1;
    } else {
      var y, d := OddInverse(o, k - 1);
      var m := Pow2(k - 1);
      if d % 2 == 0 {
        x, c := y, d / 2;
        Halved(d, m);
      } else {
        x, c := y + m, (d + o) / 2;
        Halved(d + o, m);
        Distributes(o, y, m, d);
      }
    }
  }

  lemma Halved(d: nat, m: nat)
    requires d % 2 == 0
    ensures d * m == (d / 2) * (2 * m)
  {
    assert d == 2 * (d / 2);
  }

  lemma Distributes(o: nat, y: nat, m: nat, d: nat)
    requires o * y == 1 + d * m
    ensures o * (y + m) == 1 + (d + o) * m
  {
    assert o * (y + m) == o * y + o * m;
    assert (d + o) * m == d * m + o * m;
  }

  lemma {:induction false} FromIs(batch: nat, n: nat)
    requires batch < LIMIT
    ensures FromAt(batch, n) == Wrap(1 + n * batch)
  {
    if n > 0 {
      FromIs(batch, n - 1);
      assert 1 + n * batch == 1 + (n - 1) * batch + batch;
      WrapAdds(1 + (n - 1) * batch, batch);
    }
  }

  lemma WrapAdds(m: nat, n: nat)
    requires n < LIMIT
    ensures Add(Wrap(m), n) == Wrap(m + n)
  {
  }

  lemma WrapMultiple(e: nat, r: nat)
    requires r < LIMIT
    ensures Wrap(LIMIT * e + r) == r
  {
  }

  /** The loop variable does take its largest value. */
  lemma {:induction false} TopReached(batch: nat) returns (n: nat)
    requires 0 < batch < LIMIT
    ensures FromAt(batch, n) == Top(batch)
  {
    var j, o := Decompose(batch);
    LimitSplits(batch, j, o);
    var g, m := Pow2(j), Pow2(32 - j);
    var x, c := OddInverse(o, 32 - j);
    var e := 1 + c * (m - 1);
    assert c * (m - 1) >= 0;
    n := x * (m - 1);
    MinusG(batch, g, o, m, x, c, n, e);
    if g == 1 {
      TwiceMinus(batch, n, e);
      n := 2 * n;
    } else {
      OnceMinus(batch, n, e, g);
    }
    FromIs(batch, n);
  }

  lemma {:induction false} OnceMinus(batch: nat, n: nat, e: nat, g: nat)
    requires n * batch == LIMIT * e - g && 1 < g < LIMIT && e > 0
    ensures Wrap(1 + n * batch) == LIMIT - g + 1
  {
    WrapMultiple(e - 1, LIMIT - g + 1);
  }

  lemma {:induction false} TwiceMinus(batch: nat, n: nat, e: nat)
    requires n * batch == LIMIT * e - 1 && e > 0
    ensures Wrap(1 + (2 * n) * batch) == LIMIT - 1
  {
    assert (2 * n) * batch == 2 * (n * batch);
    WrapMultiple(2 * e - 1, LIMIT - 1);
  }

  /** n batches fall short of a multiple of the limit by g. */
  lemma {:induction false} MinusG(batch: nat, g: nat, o: nat, m: nat, x: nat, c: nat, n: nat, e: nat)
    requires batch == g * o && LIMIT == g * m && m > 0 && o * x == 1 + c * m
    requires n == x * (m - 1) && e == 1 + c * (m - 1)
    ensures n * batch == LIMIT * e - g
  {
    calc {
      n * batch;
      (x * (m - 1)) * (g * o);
      { Regroup(x, m - 1, g, o); }
      g * ((o * x) * (m - 1));
      g * ((1 + c * m) * (m - 1));
      { Expand(c, m); }
      g * (m * e - 1);
      { assert g * (m * e - 1) == g * (m * e) - g; }
      g * (m * e) - g;
      { assert g * (m * e) == (g * m) * e; }
      LIMIT * e - g;
    }
  }

  lemma Regroup(x: nat, d: nat, g: nat, o: nat)
    ensures (x * d) * (g * o) == g * ((o * x) * d)
  {
    assert (x * d) * (g * o) == ((x * d) * g) * o;
    assert ((x * d) * g) * o == g * ((x * d) * o);
    assert (x * d) * o == (o * x) * d;
  }

  lemma Expand(c: nat, m: nat)
    requires m > 0
    ensures (1 + c * m) * (m - 1) == m * (1 + c * (m - 1)) - 1
  {
    assert (1 + c * m) * (m - 1) == (m - 1) + (c * m) * (m - 1);
    assert (c * m) * (m - 1) == m * (c * (m - 1));
    assert m * (1 + c * (m - 1)) == m + m * (c * (m - 1));
  }

  /** Every value of the loop variable leaves the same remainder. */
  lemma {:induction false} SameRemainder(batch: nat, g: nat, o: nat, m: nat, n: nat) returns (q: nat)
    requires batch == g * o && LIMIT == g * m && g > 1 && batch < LIMIT
    ensures FromAt(batch, n) == 1 + g * q && FromAt(batch, n) < LIMIT
  {
    if n == 0 {
      q := 0;
    } else {
      var p := SameRemainder(batch, g, o, m, n - 1);
      q := NextRemainder(FromAt(batch, n - 1), batch, g, o, m, p);
    }
  }

  lemma {:induction false} NextRemainder(from: nat, batch: nat, g: nat, o: nat, m: nat, p: nat) returns (q: nat)
    requires batch == g * o && LIMIT == g * m && g > 1 && batch < LIMIT && from == 1 + g * p && from < LIMIT
    ensures Add(from, batch) == 1 + g * q
  {
    q := p + o;
    Sum(g, p, o);
    if from + batch >= LIMIT {
      if q < m {
        Below(g, q, m);
      }
      Difference(g, q, m);
      q := q - m;
    }
  }

  lemma Sum(g: nat, p: nat, o: nat)
    ensures g * (p + o) == g * p + g * o
  {
  }

  lemma Difference(g: nat, p: nat, m: nat)
    requires m <= p
    ensures g * (p - m) == g * p - g * m
  {
  }

  lemma {:induction false} Below(g: nat, p: nat, m: nat)
    requires p < m && g > 1
    ensures 1 + g * p < g * m && g * p <= g * m - g
  {
    Sum(g, p, m - p);
    assert g * (m - p) >= g * 1;
  }

  lemma {:induction false} NeverAboveTop(batch: nat, n: nat)
    requires 0 < batch < LIMIT
    ensures FromAt(batch, n) <= Top(batch)
  {
    var j, o := Decompose(batch);
    LimitSplits(batch, j, o);
    var g, m := Pow2(j), Pow2(32 - j);
    if g > 1 {
      var q := SameRemainder(batch, g, o, m, n);
      LastMultiple(g, q, m);
    }
  }

  lemma {:induction false} LastMultiple(g: nat, q: nat, m: nat)
    requires 1 + g * q < g * m && g > 1
    ensures g * q <= g * m - g
  {
    if q < m {
      Below(g, q, m);
    } else {
      Difference(g, q, m);
    }
  }

  /** The loop ever ends, in time or after wrapping around, if and only if the folder is smaller than
      the largest number its variable takes: 2^32 - 1 for an odd batch, else 2^32 + 1 less the
      largest power of two that divides the batch. */
  lemma {:induction false} LoopEverEndsIff(total: nat, batch: nat)
    requires 0 < total < LIMIT && 0 < batch < LIMIT
    ensures (exists n :: FromAt(batch, n) > total) <==> total < Top(batch)
  {
    if total < Top(batch) {
      var n := TopReached(batch);
      assert FromAt(batch, n) > total;
    } else {
      forall n ensures FromAt(batch, n) <= total {
        NeverAboveTop(batch, n);
      }
    }
  }

  // ---------------------------------------------------------------- the loops

  /** A request for the messages from..to. */
  datatype Range = Range(from: nat, to: nat)

  function Lesser(x: nat, y: nat): nat {
    if x < y then x else y
  }

  /** One less, in 32 bits. */
  function Before(x: nat): nat {
    if x == 0 then LIMIT - 1 else x - 1
  }

  /** The request of round n. */
  function RequestAt(total: nat, batch: nat, n: nat): Range
    requires batch < LIMIT
  {
    Range(FromAt(batch, n), Lesser(Before(Add(FromAt(batch, n), batch)), total))
  }

  /** The requests of the first n rounds. */
  function Requests(total: nat, batch: nat, n: nat): (r: seq<Range>)
    requires batch < LIMIT
    ensures |r| == n
  {
    if n == 0 then [] else Requests(total, batch, n - 1) + [RequestAt(total, batch, n - 1)]
  }

  /** None of the first n rounds finds the end. */
  predicate Running(total: nat, batch: nat, n: nat)
    requires batch < LIMIT
  {
    n == 0 || (FromAt(batch, n - 1) <= total && Running(total, batch, n - 1))
  }

  lemma {:induction false} RequestsHold(total: nat, batch: nat, n: nat, i: nat)
    requires i < n && batch < LIMIT
    ensures Requests(total, batch, n)[i] == RequestAt(total, batch, i)
    ensures Running(total, batch, n) ==> FromAt(batch, i) <= total
  {
    if i < n - 1 {
      RequestsHold(total, batch, n - 1, i);
    }
  }

  function Answers<T>(requests: seq<Range>, answer: Range -> seq<T>): seq<T> {
    if requests == [] then [] else Answers(requests[..|requests| - 1], answer) + answer(requests[|requests| - 1])
  }

  /** The requests are the messages 1..total cut into pieces of the batch size, the last one shorter. */
  predicate Tiles(requests: seq<Range>, total: nat, batch: nat) {
    && requests != [] && requests[0].from == 1 && requests[|requests| - 1].to == total
    && (forall i :: 0 <= i < |requests| ==> 0 <= requests[i].to - requests[i].from < batch)
    && (forall i :: 0 <= i < |requests| - 1 ==> requests[i].to == requests[i].from + batch - 1)
    && (forall i :: 0 < i < |requests| ==> requests[i].from == requests[i - 1].to + 1)
  }

  /** The server answers a proper range with its messages; what it makes of another one is open. */
  ghost predicate Answering<T(!new)>(server: seq<T>, answer: Range -> seq<T>) {
    forall r: Range :: 1 <= r.from <= r.to <= |server| ==> answer(r) == server[r.from - 1..r.to]
  }

  /** Fetches in batches, as long as the caller has patience. If the end of the last batch can be
      counted, every message is fetched once and in order, by requests that tile the folder. */
  method FetchHeaders<T(!new)>(server: seq<T>, batch: nat, answer: Range -> seq<T>, patience: nat)
    returns (out: seq<T>, requests: seq<Range>, done: bool)
    requires |server| < LIMIT && batch < LIMIT && Answering(server, answer)
    ensures |requests| <= patience && out == Answers(requests, answer)
    ensures requests == Requests(|server|, batch, |requests|) && Running(|server|, batch, |requests|)
    ensures done <==> |server| == 0 || FromAt(batch, |requests|) > |server|
    ensures !done ==> |requests| == patience
    ensures 0 < batch && 0 < |server| && Countable(|server|, batch) && Rounds(|server|, batch) <= patience
            ==> done && out == server && Tiles(requests, |server|, batch)
  {
    out, requests, done := [], [], true;
    if |server| > 0 {
      out, requests, done := FetchRounds(|server|, batch, answer, patience);
      if 0 < batch && Countable(|server|, batch) && Rounds(|server|, batch) <= patience {
        FetchedAll(server, batch, requests, answer, patience);
      }
    }
  }

  method FetchRounds<T>(total: nat, batch: nat, answer: Range -> seq<T>, patience: nat)
    returns (out: seq<T>, requests: seq<Range>, done: bool)
    requires 0 < total < LIMIT && batch < LIMIT
    ensures |requests| <= patience && out == Answers(requests, answer)
    ensures requests == Requests(total, batch, |requests|) && Running(total, batch, |requests|)
    ensures done <==> FromAt(batch, |requests|) > total
    ensures !done ==> |requests| == patience
  {
    out, requests := [], [];
    var from, n := 1, 0;
    while from <= total && n < patience
      invariant from == FromAt(batch, n) && n == |requests| <= patience
      invariant out == Answers(requests, answer)
      invariant requests == Requests(total, batch, n) && Running(total, batch, n)
      decreases patience - n
    {
      var next := Range(from, Lesser(Before(Add(from, batch)), total));
      OneMoreAnswer(requests, next, answer);
      out := out + answer(next);
      requests := requests + [next];
      from, n := Add(from, batch), n + 1;
    }
    done := from > total;
  }

  lemma OneMoreAnswer<T>(requests: seq<Range>, next: Range, answer: Range -> seq<T>)
    ensures Answers(requests + [next], answer) == Answers(requests, answer) + answer(next)
  {
    assert (requests + [next])[..|requests|] == requests;
  }

  lemma {:induction false} FetchedAll<T(!new)>(server: seq<T>, batch: nat, requests: seq<Range>,
                                               answer: Range -> seq<T>, patience: nat)
    requires 0 < |server| < LIMIT && 0 < batch < LIMIT && Answering(server, answer)
    requires Countable(|server|, batch) && Rounds(|server|, batch) <= patience
    requires |requests| <= patience && (FromAt(batch, |requests|) > |server| || |requests| == patience)
    requires requests == Requests(|server|, batch, |requests|) && Running(|server|, batch, |requests|)
    ensures FromAt(batch, |requests|) > |server| && Answers(requests, answer) == server
    ensures Tiles(requests, |server|, batch)
  {
    EndsInTime(|server|, batch, |requests|, patience);
    RequestsTile(|server|, batch, requests);
    TilesAnswer(server, batch, requests, answer);
  }

  lemma {:induction false} TilesAnswer<T(!new)>(server: seq<T>, batch: nat, requests: seq<Range>,
                                                answer: Range -> seq<T>)
    requires Tiles(requests, |server|, batch) && batch > 0 && Answering(server, answer)
    ensures Answers(requests, answer) == server
  {
    TilesCover(server, batch, requests, answer, |requests|);
    assert requests[..|requests|] == requests && server[..|server|] == server;
  }

  lemma {:induction false} EndsInTime(total: nat, batch: nat, n: nat, patience: nat)
    requires 0 < total < LIMIT && 0 < batch < LIMIT && Countable(total, batch) && Rounds(total, batch) <= patience
    requires Running(total, batch, n)
    requires n <= patience && (FromAt(batch, n) > total || n == patience)
    ensures n == Rounds(total, batch) && FromAt(batch, n) > total
  {
    var k := Rounds(total, batch);
    LoopEndsIff(total, batch);
    if k < n {
      RequestsHold(total, batch, n, k);
    }
  }

  lemma {:induction false} StartMonotone(batch: nat, n: nat, k: nat)
    requires n <= k
    ensures Start(batch, n) <= Start(batch, k)
  {
    if n < k {
      StartMonotone(batch, n, k - 1);
    }
  }

  /** A countable round is a proper batch. */
  lemma {:induction false} ProperRound(total: nat, batch: nat, n: nat)
    requires 0 < total < LIMIT && 0 < batch < LIMIT && Countable(total, batch) && n < Rounds(total, batch)
    ensures FromAt(batch, n) == Start(batch, n) <= total && FromAt(batch, n + 1) == Start(batch, n) + batch
    ensures RequestAt(total, batch, n) == Range(Start(batch, n), Lesser(Start(batch, n) + batch - 1, total))
    ensures n + 1 < Rounds(total, batch) <==> Start(batch, n) + batch <= total
    ensures Start(batch, n) >= 1
  {
    StartWithin(total, batch, n);
    StartWithin(total, batch, n + 1);
    StartMonotone(batch, 0, n);
    StartMonotone(batch, n + 1, Rounds(total, batch));
    NoWrap(batch, n);
    NoWrap(batch, n + 1);
  }

  lemma {:induction false} RequestsTile(total: nat, batch: nat, requests: seq<Range>)
    requires 0 < total < LIMIT && 0 < batch < LIMIT && Countable(total, batch) && |requests| == Rounds(total, batch)
    requires requests == Requests(total, batch, |requests|)
    ensures Tiles(requests, total, batch)
  {
    StartWithin(total, batch, 0);
    forall i | 0 <= i < |requests|
      ensures 0 <= requests[i].to - requests[i].from < batch
      ensures i < |requests| - 1 ==> requests[i].to == requests[i].from + batch - 1
      ensures i > 0 ==> requests[i].from == requests[i - 1].to + 1
      ensures i == |requests| - 1 ==> requests[i].to == total
    {
      ProperRound(total, batch, i);
      RequestsHold(total, batch, |requests|, i);
      if i > 0 {
        ProperRound(total, batch, i - 1);
        RequestsHold(total, batch, |requests|, i - 1);
      }
    }
    ProperRound(total, batch, 0);
    RequestsHold(total, batch, |requests|, 0);
  }

  lemma {:induction false} TilesCover<T(!new)>(server: seq<T>, batch: nat, requests: seq<Range>,
                                               answer: Range -> seq<T>, n: nat)
    requires Tiles(requests, |server|, batch) && n <= |requests| && batch > 0 && Answering(server, answer)
    ensures EndOf(requests, n) <= |server| && Answers(requests[..n], answer) == server[..EndOf(requests, n)]
  {
    if n > 0 {
      TilesCover(server, batch, requests, answer, n - 1);
      FromPositive(requests, |server|, batch, n - 1);
      assert requests[..n] == requests[..n - 1] + [requests[n - 1]];
      OneMoreAnswer(requests[..n - 1], requests[n - 1], answer);
      NextSlice(server, EndOf(requests, n - 1), requests[n - 1].to);
    }
  }

  /** Where the first n requests end. */
  function EndOf(requests: seq<Range>, n: nat): nat
    requires n <= |requests|
  {
    if n == 0 then 0 else requests[n - 1].to
  }

  lemma NextSlice<T>(s: seq<T>, i: nat, j: nat)
    requires i <= j <= |s|
    ensures s[..i] + s[i..j] == s[..j]
  {
  }

  lemma {:induction false} FromPositive(requests: seq<Range>, total: nat, batch: nat, n: nat)
    requires Tiles(requests, total, batch) && n < |requests| && batch > 0
    ensures 1 <= requests[n].from <= requests[n].to <= total
  {
    ToWithin(requests, total, batch, n);
    if n > 0 {
      assert requests[n].from == requests[n - 1].to + 1;
    }
  }

  lemma {:induction false} ToWithin(requests: seq<Range>, total: nat, batch: nat, n: nat)
    requires Tiles(requests, total, batch) && n < |requests|
    ensures requests[n].to <= total
    decreases |requests| - n
  {
    if n < |requests| - 1 {
      ToWithin(requests, total, batch, n + 1);
    }
  }

  function Joined<T>(chunks: seq<seq<T>>): seq<T> {
    if chunks == [] then [] else chunks[0] + Joined(chunks[1..])
  }

  function Chunked(uids: seq<nat>, batch: nat): seq<seq<nat>>
    requires batch > 0
  {
    if uids == [] then []
    else
      var n := Lesser(batch, |uids|);
      [uids[..n]] + Chunked(uids[n..], batch)
  }

  /** The chunks joined are exactly the list, each of the batch size, the last one perhaps shorter. */
  lemma {:induction false} ChunkedFacts(uids: seq<nat>, batch: nat)
    requires batch > 0
    ensures var chunks := Chunked(uids, batch);
            && Joined(chunks) == uids && (forall i :: 0 <= i < |chunks| ==> 0 < |chunks[i]| <= batch)
            && (forall i :: 0 <= i < |chunks| - 1 ==> |chunks[i]| == batch)
    decreases |uids|
  {
    if uids != [] {
      var n := Lesser(batch, |uids|);
      ChunkedFacts(uids[n..], batch);
      var rest := Chunked(uids[n..], batch);
      assert ([uids[..n]] + rest)[1..] == rest;
      assert uids[..n] + uids[n..] == uids;
      assert n < batch ==> rest == [];
    }
  }

  /** Fetching by UID: without a batch size there is one chunk. */
  method FetchHeadersByUID(uids: seq<nat>, batchSize: int) returns (chunks: seq<seq<nat>>)
    ensures uids == [] ==> chunks == []
    ensures uids != [] ==> chunks == Chunked(uids, if batchSize < 1 then |uids| else batchSize)
    ensures Joined(chunks) == uids
    ensures batchSize < 1 && uids != [] ==> chunks == [uids]
    ensures batchSize >= 1 ==> && (forall i :: 0 <= i < |chunks| ==> 0 < |chunks[i]| <= batchSize)
                               && (forall i :: 0 <= i < |chunks| - 1 ==> |chunks[i]| == batchSize)
  {
    chunks := [];
    if |uids| == 0 {
      return;
    }
    var batch := if batchSize < 1 then |uids| else batchSize;
    ChunkedFacts(uids, batch);
    OneChunk(uids);
    var start := 0;
    ghost var rest := uids;
    while start < |uids|
      invariant 0 <= start && rest == (if start < |uids| then uids[start..] else [])
      invariant chunks + Chunked(rest, batch) == Chunked(uids, batch)
      decreases |uids| - start
    {
      var end := Lesser(start + batch, |uids|);
      ChunkStep(uids, start, batch);
      MoveFirst(chunks, uids[start..end], Chunked(uids[end..], batch));
      chunks := chunks + [uids[start..end]];
      rest := uids[end..];
      start := start + batch;
    }
  }

  lemma OneChunk(uids: seq<nat>)
    requires uids != []
    ensures Chunked(uids, |uids|) == [uids]
  {
    assert uids[..|uids|] == uids && uids[|uids|..] == [];
  }

  lemma MoveFirst<T>(s: seq<T>, x: T, t: seq<T>)
    ensures s + ([x] + t) == s + [x] + t
  {
  }

  lemma {:induction false} ChunkStep(uids: seq<nat>, start: nat, batch: nat)
    requires start < |uids| && batch > 0
    ensures var end := Lesser(start + batch, |uids|);
            Chunked(uids[start..], batch) == [uids[start..end]] + Chunked(uids[end..], batch)
  {
    var end := Lesser(start + batch, |uids|);
    assert uids[start..][..end - start] == uids[start..end] && uids[start..][end - start..] == uids[end..];
  }
}
