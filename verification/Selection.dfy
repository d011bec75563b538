/** Parts of a sequence in their order, told by positions and not by how they were computed. */
module Selection {
  /** Positions below `n` in ascending order. */
  predicate Increasing(at: seq<nat>, n: nat) {
    && (forall i :: 0 <= i < |at| ==> at[i] < n)
    && (forall i, j :: 0 <= i < j < |at| ==> at[i] < at[j])
  }

  /** What `s` holds at these positions is `t`. */
  predicate Selects<T(==)>(s: seq<T>, at: seq<nat>, t: seq<T>) {
    Increasing(at, |s|) && |t| == |at| && forall i :: 0 <= i < |at| ==> t[i] == s[at[i]]
  }

  /** The members of `s` with the property, in order, are `t`. */
  ghost predicate KeepsExactly<T(!new)>(s: seq<T>, keep: T -> bool, t: seq<T>) {
    exists at: seq<nat> :: Selects(s, at, t) && Taken(s, keep, at)
  }

  predicate Taken<T>(s: seq<T>, keep: T -> bool, at: seq<nat>) {
    forall i :: 0 <= i < |s| ==> (i in at <==> keep(s[i]))
  }

  lemma SelectsLast<T>(s: seq<T>, at: seq<nat>, t: seq<T>, taken: bool)
    requires s != [] && Selects(s[..|s| - 1], at, t)
    ensures Selects(s, if taken then at + [|s| - 1] else at, if taken then t + [s[|s| - 1]] else t)
    ensures |s| - 1 !in at
  {
    assert forall i :: 0 <= i < |at| ==> at[i] < |s| - 1;
  }

  /** A part of a part is a part. */
  lemma SelectsThrough<T>(s: seq<T>, at: seq<nat>, t: seq<T>, inner: seq<nat>, u: seq<T>) returns (r: seq<nat>)
    requires Selects(s, at, t) && Selects(t, inner, u)
    ensures Selects(s, r, u) && |r| == |inner| && forall i :: 0 <= i < |inner| ==> r[i] == at[inner[i]]
  {
    r := seq(|inner|, i requires 0 <= i < |inner| => at[inner[i]]);
  }

  lemma KeepsLast<T(!new)>(s: seq<T>, keep: T -> bool, t: seq<T>)
    requires s != [] && KeepsExactly(s[..|s| - 1], keep, t)
    ensures KeepsExactly(s, keep, if keep(s[|s| - 1]) then t + [s[|s| - 1]] else t)
  {
    var at: seq<nat> :| Selects(s[..|s| - 1], at, t) && Taken(s[..|s| - 1], keep, at);
    SelectsLast(s, at, t, keep(s[|s| - 1]));
    TakenLast(s, keep, at);
  }

  lemma TakenLast<T>(s: seq<T>, keep: T -> bool, at: seq<nat>)
    requires s != [] && Taken(s[..|s| - 1], keep, at) && |s| - 1 !in at
    ensures Taken(s, keep, if keep(s[|s| - 1]) then at + [|s| - 1] else at)
  {
    var n := |s| - 1;
    var at': seq<nat> := if keep(s[n]) then at + [n] else at;
    forall i | 0 <= i < |s| ensures i in at' <==> keep(s[i]) {
      if i < n {
        assert s[..n][i] == s[i];
      }
    }
  }

  lemma KeepsNothing<T(!new)>(keep: T -> bool)
    ensures KeepsExactly([], keep, [])
  {
    assert Selects<T>([], [], []);
  }

  /** All positions one further on. */
  function Shifted(at: seq<nat>): (r: seq<nat>)
    ensures |r| == |at| && forall i :: 0 <= i < |r| ==> r[i] == at[i] + 1
  {
    seq(|at|, i requires 0 <= i < |at| => at[i] + 1)
  }

  lemma SelectsFirst<T>(s: seq<T>, at: seq<nat>, t: seq<T>, taken: bool)
    requires s != [] && Selects(s[1..], at, t)
    ensures Selects(s, if taken then [0] + Shifted(at) else Shifted(at), if taken then [s[0]] + t else t)
  {
  }

  lemma ShiftedHolds(at: seq<nat>, i: nat)
    ensures i in Shifted(at) <==> i > 0 && i - 1 in at
  {
    if i > 0 && i - 1 in at {
      var k :| 0 <= k < |at| && at[k] == i - 1;
      assert Shifted(at)[k] == i;
    }
  }

  lemma TakenFirst<T>(s: seq<T>, keep: T -> bool, at: seq<nat>)
    requires s != [] && Taken(s[1..], keep, at)
    ensures Taken(s, keep, if keep(s[0]) then [0] + Shifted(at) else Shifted(at))
  {
    var all: seq<nat> := if keep(s[0]) then [0] + Shifted(at) else Shifted(at);
    forall i | 0 <= i < |s| ensures i in all <==> keep(s[i]) {
      ShiftedHolds(at, i);
      if i > 0 {
        assert s[1..][i - 1] == s[i];
      }
    }
  }

  lemma KeepsFirst<T(!new)>(s: seq<T>, keep: T -> bool, t: seq<T>)
    requires s != [] && KeepsExactly(s[1..], keep, t)
    ensures KeepsExactly(s, keep, if keep(s[0]) then [s[0]] + t else t)
  {
    var at: seq<nat> :| Selects(s[1..], at, t) && Taken(s[1..], keep, at);
    SelectsFirst(s, at, t, keep(s[0]));
    TakenFirst(s, keep, at);
  }
}
