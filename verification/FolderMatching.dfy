/** Pairing the folders of both sides (matchFolders in internal/syncer/discover.go): first by
    SPECIAL-USE attribute (section 2 of RFC 6154), then by name, both without regard to case. */
module FolderMatching {
  import opened Text

  datatype FolderInfo = FolderInfo(name: string, specialUse: string, selectable: bool)
  datatype FolderPair = FolderPair(a: string, b: string)

  /** Which folders were paired: positions on side A and on side B. */
  datatype Link = Link(a: nat, b: nat)

  predicate SameToken(x: FolderInfo, y: FolderInfo) {
    x.specialUse != "" && y.specialUse != "" && EqualFold(x.specialUse, y.specialUse)
  }

  predicate SameName(x: FolderInfo, y: FolderInfo) {
    EqualFold(x.name, y.name)
  }

  predicate Fits(x: FolderInfo, y: FolderInfo, byToken: bool) {
    if byToken then SameToken(x, y) else SameName(x, y)
  }

  function TakenA(links: seq<Link>): set<nat> {
    set l | l in links :: l.a
  }

  function TakenB(links: seq<Link>): set<nat> {
    set l | l in links :: l.b
  }

  /** The links stay within the folders and use each folder at most once. */
  ghost predicate OneToOne(links: seq<Link>, n: nat, m: nat) {
    && (forall l :: l in links ==> l.a < n && l.b < m)
    && (forall p, q :: 0 <= p < q < |links| ==> links[p].a != links[q].a && links[p].b != links[q].b)
  }

  ghost predicate Marks(marks: seq<bool>, taken: set<nat>) {
    forall i :: 0 <= i < |marks| ==> (marks[i] <==> i in taken)
  }

  ghost predicate Names(pairs: seq<FolderPair>, links: seq<Link>, a: seq<FolderInfo>, b: seq<FolderInfo>) {
    && |pairs| == |links|
    && forall p :: 0 <= p < |links| ==>
         links[p].a < |a| && links[p].b < |b| && pairs[p] == FolderPair(a[links[p].a].name, b[links[p].b].name)
  }

  /** The folders at positions that are not taken, in order. */
  function Leftover(fs: seq<FolderInfo>, taken: set<nat>): seq<FolderInfo> {
    if fs == [] then []
    else
      var front := Leftover(fs[..|fs| - 1], taken);
      if |fs| - 1 in taken then front else front + [fs[|fs| - 1]]
  }

  // ---------------------------------------------------------------- the pairing as functions

  /** The first folder of B from `j` on that is free and fits, or |b|. */
  function FirstFit(x: FolderInfo, b: seq<FolderInfo>, taken: set<nat>, byToken: bool, j: nat): (k: nat)
    requires j <= |b|
    ensures j <= k <= |b| && (k < |b| ==> k !in taken && Fits(x, b[k], byToken))
    ensures forall i :: j <= i < k ==> i in taken || !Fits(x, b[i], byToken)
    decreases |b| - j
  {
    if j == |b| || (j !in taken && Fits(x, b[j], byToken)) then j else FirstFit(x, b, taken, byToken, j + 1)
  }

  /** One sweep over the first `n` folders of A: each one not yet linked takes its first fit. */
  function Sweep(a: seq<FolderInfo>, b: seq<FolderInfo>, links: seq<Link>, byToken: bool, n: nat): seq<Link>
    requires n <= |a|
  {
    if n == 0 then links else NextLink(a, b, Sweep(a, b, links, byToken, n - 1), byToken, n - 1)
  }

  function NextLink(a: seq<FolderInfo>, b: seq<FolderInfo>, links: seq<Link>, byToken: bool, i: nat): seq<Link>
    requires i < |a|
  {
    if i in TakenA(links) then links
    else
      var j := FirstFit(a[i], b, TakenB(links), byToken, 0);
      if j < |b| then links + [Link(i, j)] else links
  }

  /** The links by token, and all links. */
  function TokenLinks(a: seq<FolderInfo>, b: seq<FolderInfo>): seq<Link> {
    Sweep(a, b, [], true, |a|)
  }

  function AllLinks(a: seq<FolderInfo>, b: seq<FolderInfo>): seq<Link> {
    Sweep(a, b, TokenLinks(a, b), false, |a|)
  }

  // ---------------------------------------------------------------- the pairing as the code does it

  /** The first free folder of B that fits, or |b|. */
  method FirstFree(x: FolderInfo, b: seq<FolderInfo>, used: array<bool>, byToken: bool, ghost taken: set<nat>)
    returns (j: nat)
    requires used.Length == |b| && Marks(used[..], taken)
    ensures j == FirstFit(x, b, taken, byToken, 0)
  {
    j := 0;
    while j < |b| && (used[..][j] || !Fits(x, b[j], byToken))
      invariant j <= |b|
      invariant FirstFit(x, b, taken, byToken, j) == FirstFit(x, b, taken, byToken, 0)
    {
      j := j + 1;
    }
  }

  lemma TakenSnoc(links: seq<Link>, l: Link)
    ensures TakenA(links + [l]) == TakenA(links) + {l.a}
    ensures TakenB(links + [l]) == TakenB(links) + {l.b}
  {
    assert l in links + [l];
    forall x | x in links ensures x in links + [l] { }
  }

  /** The marks and pairs agree with the links. */
  ghost predicate Consistent(a: seq<FolderInfo>, b: seq<FolderInfo>, matched: seq<bool>, used: seq<bool>,
                             pairs: seq<FolderPair>, links: seq<Link>)
  {
    && |matched| == |a| && |used| == |b|
    && OneToOne(links, |a|, |b|) && Names(pairs, links, a, b)
    && Marks(matched, TakenA(links)) && Marks(used, TakenB(links))
  }

  /** One of the two loops over A. */
  method MatchBy(a: seq<FolderInfo>, b: seq<FolderInfo>, matchedA: array<bool>, usedB: array<bool>, byToken: bool,
                 pairs: seq<FolderPair>, ghost links: seq<Link>)
    returns (pairs': seq<FolderPair>)
    requires Consistent(a, b, matchedA[..], usedB[..], pairs, links) && matchedA != usedB
    modifies matchedA, usedB
    ensures Consistent(a, b, matchedA[..], usedB[..], pairs', Sweep(a, b, links, byToken, |a|))
  {
    pairs' := pairs;
    for i := 0 to |a|
      invariant Consistent(a, b, matchedA[..], usedB[..], pairs', Sweep(a, b, links, byToken, i))
    {
      pairs' := MatchOne(a, b, matchedA, usedB, byToken, pairs', Sweep(a, b, links, byToken, i), i);
    }
  }

  /** Links one folder of A to the first free folder of B that fits, if there is one. */
  method MatchOne(a: seq<FolderInfo>, b: seq<FolderInfo>, matchedA: array<bool>, usedB: array<bool>, byToken: bool,
                  pairs: seq<FolderPair>, ghost links: seq<Link>, i: nat)
    returns (pairs': seq<FolderPair>)
    requires Consistent(a, b, matchedA[..], usedB[..], pairs, links) && matchedA != usedB
    requires i < |a|
    modifies matchedA, usedB
    ensures Consistent(a, b, matchedA[..], usedB[..], pairs', NextLink(a, b, links, byToken, i))
  {
    pairs' := pairs;
    ghost var matched, used := matchedA[..], usedB[..];
    if byToken && a[i].specialUse == "" {
      NoToken(a, b, links, i);
      return;
    }
    if matchedA[..][i] {
      return;
    }
    var j := FirstFree(a[i], b, usedB, byToken, TakenB(links));
    if j < |b| {
      LinkAdded(a, b, matched, used, pairs, links, i, j);
      pairs' := pairs + [FolderPair(a[i].name, b[j].name)];
      matchedA[i], usedB[j] := true, true;
      assert matchedA[..] == matched[i := true] && usedB[..] == used[j := true];
    }
  }

  lemma NoToken(a: seq<FolderInfo>, b: seq<FolderInfo>, links: seq<Link>, i: nat)
    requires i < |a| && a[i].specialUse == ""
    ensures NextLink(a, b, links, true, i) == links
  {
  }

  lemma LinkAdded(a: seq<FolderInfo>, b: seq<FolderInfo>, matched: seq<bool>, used: seq<bool>,
                  pairs: seq<FolderPair>, links: seq<Link>, i: nat, j: nat)
    requires Consistent(a, b, matched, used, pairs, links)
    requires i < |a| && j < |b| && !matched[i] && !used[j]
    ensures Consistent(a, b, matched[i := true], used[j := true],
                       pairs + [FolderPair(a[i].name, b[j].name)], links + [Link(i, j)])
  {
    FreshLink(links, i, j, |a|, |b|);
    TakenSnoc(links, Link(i, j));
  }

  lemma FreshLink(links: seq<Link>, i: nat, j: nat, n: nat, m: nat)
    requires OneToOne(links, n, m) && i < n && j < m && i !in TakenA(links) && j !in TakenB(links)
    ensures OneToOne(links + [Link(i, j)], n, m)
  {
    forall p | 0 <= p < |links| ensures links[p].a != i && links[p].b != j {
      assert links[p] in links;
    }
  }

  method LeftoverOf(fs: seq<FolderInfo>, marks: array<bool>, ghost taken: set<nat>) returns (only: seq<FolderInfo>)
    requires marks.Length == |fs| && Marks(marks[..], taken)
    ensures only == Leftover(fs, taken)
  {
    only := [];
    assert fs[..0] == [];
    for i := 0 to |fs|
      invariant only == Leftover(fs[..i], taken)
    {
      assert fs[..i + 1][..i] == fs[..i] && marks[..][i] == marks[i];
      if !marks[i] {
        only := only + [fs[i]];
      }
    }
    assert fs[..|fs|] == fs;
  }

  method MatchFolders(a: seq<FolderInfo>, b: seq<FolderInfo>)
    returns (pairs: seq<FolderPair>, onlyA: seq<FolderInfo>, onlyB: seq<FolderInfo>)
    // no folder is left on both sides under one name, or with one token, up to case
    ensures forall x, y :: x in onlyA && y in onlyB ==> ToLower(x.name) != ToLower(y.name)
    ensures forall x, y :: x in onlyA && y in onlyB && x.specialUse != "" && y.specialUse != ""
              ==> ToLower(x.specialUse) != ToLower(y.specialUse)
    // after the pairs by token, each pair has one name, up to case
    ensures |TokenLinks(a, b)| <= |pairs|
    ensures forall p :: |TokenLinks(a, b)| <= p < |pairs| ==> ToLower(pairs[p].a) == ToLower(pairs[p].b)
    ensures Names(pairs, AllLinks(a, b), a, b)
    ensures |pairs| + |onlyA| == |a| && |pairs| + |onlyB| == |b|
    ensures onlyA == Leftover(a, TakenA(AllLinks(a, b))) && onlyB == Leftover(b, TakenB(AllLinks(a, b)))
  {
    var matchedA := new bool[|a|](i => false);
    var usedB := new bool[|b|](i => false);
    pairs := MatchBy(a, b, matchedA, usedB, true, [], []);
    pairs := MatchBy(a, b, matchedA, usedB, false, pairs, TokenLinks(a, b));
    onlyA := LeftoverOf(a, matchedA, TakenA(AllLinks(a, b)));
    onlyB := LeftoverOf(b, usedB, TakenB(AllLinks(a, b)));
    NothingLost(a, b);
    MatchingFacts(a, b);
    LeftoversApart(a, b, AllLinks(a, b));
  }

  // ---------------------------------------------------------------- what the pairing means

  /** The links after the first `base` fit. */
  ghost predicate NewFit(a: seq<FolderInfo>, b: seq<FolderInfo>, links: seq<Link>, base: nat, byToken: bool) {
    forall p :: base <= p < |links| ==>
      links[p].a < |a| && links[p].b < |b| && Fits(a[links[p].a], b[links[p].b], byToken)
  }

  /** No unlinked folder among the first `n` of A fits an unlinked folder of B. */
  ghost predicate NoneFits(a: seq<FolderInfo>, b: seq<FolderInfo>, links: seq<Link>, n: nat, byToken: bool)
    requires n <= |a|
  {
    forall i, j :: 0 <= i < n && 0 <= j < |b| && i !in TakenA(links) && j !in TakenB(links)
      ==> !Fits(a[i], b[j], byToken)
  }

  ghost predicate Swept(a: seq<FolderInfo>, b: seq<FolderInfo>, links: seq<Link>, base: nat, byToken: bool, n: nat)
    requires n <= |a|
  {
    OneToOne(links, |a|, |b|) && NewFit(a, b, links, base, byToken) && NoneFits(a, b, links, n, byToken)
  }

  /** A sweep keeps the links one-to-one, adds only fitting ones, and leaves none to add. */
  lemma {:induction false} SweepFacts(a: seq<FolderInfo>, b: seq<FolderInfo>, links: seq<Link>, byToken: bool, n: nat)
    requires n <= |a| && OneToOne(links, |a|, |b|)
    ensures var r := Sweep(a, b, links, byToken, n);
            links <= r && Swept(a, b, r, |links|, byToken, n)
  {
    if n > 0 {
      SweepFacts(a, b, links, byToken, n - 1);
      SweepStep(a, b, links, byToken, n, Sweep(a, b, links, byToken, n - 1), Sweep(a, b, links, byToken, n));
    }
  }

  lemma {:induction false} SweepStep(a: seq<FolderInfo>, b: seq<FolderInfo>, links: seq<Link>, byToken: bool, n: nat,
                                     before: seq<Link>, r: seq<Link>)
    requires 0 < n <= |a| && links <= before && Swept(a, b, before, |links|, byToken, n - 1)
    requires r == NextLink(a, b, before, byToken, n - 1)
    ensures links <= r && Swept(a, b, r, |links|, byToken, n)
  {
    NextLinkFacts(a, b, before, |links|, byToken, n - 1, r);
  }

  lemma {:induction false} NextLinkFacts(a: seq<FolderInfo>, b: seq<FolderInfo>, links: seq<Link>, base: nat,
                                         byToken: bool, i: nat, r: seq<Link>)
    requires i < |a| && base <= |links| && Swept(a, b, links, base, byToken, i)
    requires r == NextLink(a, b, links, byToken, i)
    ensures links <= r && Swept(a, b, r, base, byToken, i + 1)
  {
    var j := FirstFit(a[i], b, TakenB(links), byToken, 0);
    if i !in TakenA(links) && j < |b| {
      FreshLink(links, i, j, |a|, |b|);
      TakenSnoc(links, Link(i, j));
      FewerFit(a, b, links, links + [Link(i, j)], i, byToken);
    } else {
      NoFitLeft(a, b, links, i, byToken);
    }
  }

  lemma {:induction false} NoFitLeft(a: seq<FolderInfo>, b: seq<FolderInfo>, links: seq<Link>, i: nat, byToken: bool)
    requires i < |a| && NoneFits(a, b, links, i, byToken)
    requires i in TakenA(links) || FirstFit(a[i], b, TakenB(links), byToken, 0) == |b|
    ensures NoneFits(a, b, links, i + 1, byToken)
  {
    forall k, j | 0 <= k < i + 1 && 0 <= j < |b| && k !in TakenA(links) && j !in TakenB(links)
      ensures !Fits(a[k], b[j], byToken)
    {
    }
  }

  /** With more links, and the next folder linked, still none fits. */
  lemma {:induction false} FewerFit(a: seq<FolderInfo>, b: seq<FolderInfo>, links: seq<Link>, links': seq<Link>,
                                    i: nat, byToken: bool)
    requires i < |a| && NoneFits(a, b, links, i, byToken) && i in TakenA(links')
    requires TakenA(links) <= TakenA(links') && TakenB(links) <= TakenB(links')
    ensures NoneFits(a, b, links', i + 1, byToken)
  {
  }

  lemma MoreTaken(links: seq<Link>, links': seq<Link>)
    requires links <= links'
    ensures TakenA(links) <= TakenA(links') && TakenB(links) <= TakenB(links')
  {
    forall l | l in links ensures l in links' {
    }
  }

  /** No two folders of opposite sides outside the links have one name, or one token, up to case. */
  ghost predicate Apart(a: seq<FolderInfo>, b: seq<FolderInfo>, takenA: set<nat>, takenB: set<nat>) {
    forall i, j :: 0 <= i < |a| && 0 <= j < |b| && i !in takenA && j !in takenB ==>
      && ToLower(a[i].name) != ToLower(b[j].name)
      && (a[i].specialUse != "" && b[j].specialUse != "" ==> ToLower(a[i].specialUse) != ToLower(b[j].specialUse))
  }

  /** The pairing is one-to-one, tokens come first and names after, and no two leftovers of
      opposite sides share a token or a name. */
  lemma {:induction false} MatchingFacts(a: seq<FolderInfo>, b: seq<FolderInfo>)
    ensures var links, first := AllLinks(a, b), |TokenLinks(a, b)|;
            && OneToOne(links, |a|, |b|) && TokenPass(a, b, links, first)
            && (forall p :: first <= p < |links| ==> ToLower(a[links[p].a].name) == ToLower(b[links[p].b].name))
            && Apart(a, b, TakenA(links), TakenB(links))
  {
    var byToken, links := TokenLinks(a, b), AllLinks(a, b);
    SweepFacts(a, b, [], true, |a|);
    SweepFacts(a, b, byToken, false, |a|);
    MoreTaken(byToken, links);
    assert links[..|byToken|] == byToken;
    forall i, j | 0 <= i < |a| && 0 <= j < |b| && i !in TakenA(links) && j !in TakenB(links)
      ensures ToLower(a[i].name) != ToLower(b[j].name) && !SameToken(a[i], b[j])
    {
      assert !Fits(a[i], b[j], true) && !Fits(a[i], b[j], false);
    }
  }

  lemma {:induction false} LeftoverFrom(fs: seq<FolderInfo>, taken: set<nat>, x: FolderInfo) returns (i: nat)
    requires x in Leftover(fs, taken)
    ensures i < |fs| && i !in taken && fs[i] == x
  {
    i := |fs| - 1;
    if i in taken || fs[i] != x {
      i := LeftoverFrom(fs[..|fs| - 1], taken, x);
    }
  }

  lemma {:induction false} LeftoversApart(a: seq<FolderInfo>, b: seq<FolderInfo>, links: seq<Link>)
    requires Apart(a, b, TakenA(links), TakenB(links))
    ensures forall x, y :: x in Leftover(a, TakenA(links)) && y in Leftover(b, TakenB(links)) ==>
              && ToLower(x.name) != ToLower(y.name)
              && (x.specialUse != "" && y.specialUse != "" ==> ToLower(x.specialUse) != ToLower(y.specialUse))
  {
    forall x, y | x in Leftover(a, TakenA(links)) && y in Leftover(b, TakenB(links))
      ensures && ToLower(x.name) != ToLower(y.name)
              && (x.specialUse != "" && y.specialUse != "" ==> ToLower(x.specialUse) != ToLower(y.specialUse))
    {
      var i := LeftoverFrom(a, TakenA(links), x);
      var j := LeftoverFrom(b, TakenB(links), y);
    }
  }

  // ---------------------------------------------------------------- which folder is taken

  ghost predicate TakenBefore(links: seq<Link>, p: nat, j: nat) {
    exists q :: 0 <= q < p < |links| && links[q].b == j
  }

  /** The links from `base` on go through A in order, each to the first fitting folder of B that no
      earlier link has. */
  ghost predicate InTurn(a: seq<FolderInfo>, b: seq<FolderInfo>, links: seq<Link>, base: nat, byToken: bool, n: nat) {
    && (forall p :: base <= p < |links| ==> links[p].a < n && links[p].a < |a| && links[p].b < |b|)
    && (forall p, q :: base <= p < q < |links| ==> links[p].a < links[q].a)
    && (forall p, j :: base <= p < |links| && 0 <= j < links[p].b && Fits(a[links[p].a], b[j], byToken)
          ==> TakenBefore(links, p, j))
  }

  lemma {:induction false} SweepInTurn(a: seq<FolderInfo>, b: seq<FolderInfo>, links: seq<Link>, byToken: bool, n: nat)
    requires n <= |a|
    ensures links <= Sweep(a, b, links, byToken, n)
    ensures InTurn(a, b, Sweep(a, b, links, byToken, n), |links|, byToken, n)
  {
    if n > 0 {
      SweepInTurn(a, b, links, byToken, n - 1);
      TurnStep(a, b, links, byToken, n, Sweep(a, b, links, byToken, n - 1), Sweep(a, b, links, byToken, n));
    }
  }

  lemma {:induction false} TurnStep(a: seq<FolderInfo>, b: seq<FolderInfo>, links: seq<Link>, byToken: bool, n: nat,
                                    before: seq<Link>, r: seq<Link>)
    requires 0 < n <= |a| && links <= before && InTurn(a, b, before, |links|, byToken, n - 1)
    requires r == NextLink(a, b, before, byToken, n - 1)
    ensures links <= r && InTurn(a, b, r, |links|, byToken, n)
  {
    NextInTurn(a, b, before, |links|, byToken, n - 1, r);
  }

  lemma {:induction false} NextInTurn(a: seq<FolderInfo>, b: seq<FolderInfo>, links: seq<Link>, base: nat,
                                      byToken: bool, i: nat, r: seq<Link>)
    requires i < |a| && base <= |links| && InTurn(a, b, links, base, byToken, i)
    requires r == NextLink(a, b, links, byToken, i)
    ensures links <= r && InTurn(a, b, r, base, byToken, i + 1)
  {
    forall p, j | base <= p < |r| && 0 <= j < r[p].b && Fits(a[r[p].a], b[j], byToken)
      ensures TakenBefore(r, p, j)
    {
      if p < |links| {
        assert TakenBefore(links, p, j);
        var q :| 0 <= q < p < |links| && links[q].b == j;
        assert r[q].b == j;
      } else {
        assert j in TakenB(links);
        var q :| 0 <= q < |links| && links[q].b == j;
        assert r[q].b == j;
      }
    }
  }

  /** First come, first served: the pairs by token and then those by name go through A in order, and
      a folder of B that would have fitted before the one taken already belongs to an earlier pair. */
  lemma {:induction false} FirstComeFirstServed(a: seq<FolderInfo>, b: seq<FolderInfo>, p: nat, j: nat)
    requires p < |AllLinks(a, b)|
    ensures var links, first := AllLinks(a, b), |TokenLinks(a, b)|;
            && links[p].a < |a| && links[p].b < |b|
            && ((p < first && j < links[p].b && a[links[p].a].specialUse != "" && b[j].specialUse != ""
                 && ToLower(a[links[p].a].specialUse) == ToLower(b[j].specialUse)) ==> TakenBefore(links, p, j))
            && (p >= first && j < links[p].b && ToLower(a[links[p].a].name) == ToLower(b[j].name)
                ==> TakenBefore(links, p, j))
            && (forall q :: 0 <= q < p && (q < first <==> p < first) ==> links[q].a < links[p].a)
  {
    var byToken, links := TokenLinks(a, b), AllLinks(a, b);
    SweepInTurn(a, b, [], true, |a|);
    SweepInTurn(a, b, byToken, false, |a|);
    if p < |byToken| {
      assert links[p] == byToken[p] && forall q :: 0 <= q < p ==> links[q] == byToken[q];
      if j < links[p].b && Fits(a[links[p].a], b[j], true) {
        assert TakenBefore(byToken, p, j);
      }
    } else if j < links[p].b && ToLower(a[links[p].a].name) == ToLower(b[j].name) {
      assert Fits(a[links[p].a], b[j], false);
    }
  }

  /** A one-to-one linking takes as many folders of a side as it has links. */
  lemma {:induction false} TakenSizes(links: seq<Link>, n: nat, m: nat)
    requires OneToOne(links, n, m)
    ensures |TakenA(links)| == |links| == |TakenB(links)|
  {
    if links == [] {
      assert TakenA(links) == {} && TakenB(links) == {};
    } else {
      var k := |links| - 1;
      var front, last := links[..k], links[k];
      assert links == front + [last];
      TakenSizes(front, n, m);
      TakenSnoc(front, last);
      LastFresh(links, n, m);
    }
  }

  lemma {:induction false} LastFresh(links: seq<Link>, n: nat, m: nat)
    requires OneToOne(links, n, m) && links != []
    ensures var k := |links| - 1; links[k].a !in TakenA(links[..k]) && links[k].b !in TakenB(links[..k])
  {
    forall l | l in links[..|links| - 1] ensures l.a != links[|links| - 1].a && l.b != links[|links| - 1].b {
      var p :| 0 <= p < |links| - 1 && links[p] == l;
    }
  }

  lemma {:induction false} LeftoverSize(fs: seq<FolderInfo>, taken: set<nat>)
    ensures |Leftover(fs, taken)| + |Within(taken, |fs|)| == |fs|
  {
    if fs == [] {
      assert Within(taken, 0) == {};
    } else {
      var n := |fs| - 1;
      LeftoverSize(fs[..n], taken);
      assert Within(taken, |fs|) == if n in taken then Within(taken, n) + {n} else Within(taken, n);
    }
  }

  function Within(taken: set<nat>, n: nat): set<nat> {
    set i | i in taken && i < n
  }

  /** A folder that is not taken stands in the leftover list, behind the free ones before it. */
  lemma {:induction false} LeftoverHolds(fs: seq<FolderInfo>, taken: set<nat>, i: nat)
    requires i < |fs| && i !in taken
    ensures var p := |Leftover(fs[..i], taken)|; p < |Leftover(fs, taken)| && Leftover(fs, taken)[p] == fs[i]
  {
    var n := |fs| - 1;
    if i < n {
      LeftoverHolds(fs[..n], taken, i);
      assert fs[..n][..i] == fs[..i];
    }
  }

  /** One side of the pairing: links and leftovers add up to the folders; a linked folder is in
      exactly one link, and one that is not linked stands at its place in the leftover list. */
  ghost predicate Partitioned(fs: seq<FolderInfo>, linked: seq<nat>, left: seq<FolderInfo>) {
    && |linked| + |left| == |fs|
    && forall i :: 0 <= i < |fs| ==> LinkedOnce(linked, i) || (i !in linked && LeftAt(fs, linked, left, i))
  }

  function ToSet(xs: seq<nat>): set<nat> {
    set x | x in xs
  }

  ghost predicate LinkedOnce(xs: seq<nat>, i: nat) {
    exists p :: 0 <= p < |xs| && xs[p] == i && forall q :: 0 <= q < |xs| && xs[q] == i ==> q == p
  }

  ghost predicate LeftAt(fs: seq<FolderInfo>, linked: seq<nat>, left: seq<FolderInfo>, i: nat)
    requires i < |fs|
  {
    var p := |Leftover(fs[..i], ToSet(linked))|;
    p < |left| && left[p] == fs[i]
  }

  lemma {:induction false} SidePartitioned(fs: seq<FolderInfo>, xs: seq<nat>, taken: set<nat>)
    requires taken == ToSet(xs) && |taken| == |xs|
    requires forall p, q :: 0 <= p < q < |xs| ==> xs[p] != xs[q]
    requires forall i :: i in taken ==> i < |fs|
    ensures Partitioned(fs, xs, Leftover(fs, taken))
  {
    LeftoverSize(fs, taken);
    assert Within(taken, |fs|) == taken;
    forall i | 0 <= i < |fs| ensures LinkedOnce(xs, i) || (i !in xs && LeftAt(fs, xs, Leftover(fs, taken), i)) {
      if i in xs {
        var p :| 0 <= p < |xs| && xs[p] == i;
        assert forall q :: 0 <= q < |xs| && xs[q] == i ==> q == p;
      } else {
        LeftoverHolds(fs, taken, i);
      }
    }
  }

  lemma {:induction false} SidesTaken(links: seq<Link>)
    ensures TakenA(links) == ToSet(SideA(links)) && TakenB(links) == ToSet(SideB(links))
  {
    forall l | l in links ensures l.a in SideA(links) && l.b in SideB(links) {
      var p :| 0 <= p < |links| && links[p] == l;
      assert SideA(links)[p] == l.a && SideB(links)[p] == l.b;
    }
    forall x | x in SideA(links) ensures x in TakenA(links) {
      var p :| 0 <= p < |links| && SideA(links)[p] == x;
      assert links[p] in links;
    }
    forall x | x in SideB(links) ensures x in TakenB(links) {
      var p :| 0 <= p < |links| && SideB(links)[p] == x;
      assert links[p] in links;
    }
  }

  lemma {:induction false} LinksPartition(a: seq<FolderInfo>, b: seq<FolderInfo>, links: seq<Link>)
    requires OneToOne(links, |a|, |b|)
    ensures Partitioned(a, SideA(links), Leftover(a, TakenA(links)))
    ensures Partitioned(b, SideB(links), Leftover(b, TakenB(links)))
  {
    TakenSizes(links, |a|, |b|);
    SidesTaken(links);
    SidePartitioned(a, SideA(links), TakenA(links));
    SidePartitioned(b, SideB(links), TakenB(links));
  }

  /** Nothing is lost: each side is partitioned into linked folders and leftovers. */
  lemma {:induction false} NothingLost(a: seq<FolderInfo>, b: seq<FolderInfo>)
    ensures var links := AllLinks(a, b);
            && Partitioned(a, SideA(links), Leftover(a, TakenA(links)))
            && Partitioned(b, SideB(links), Leftover(b, TakenB(links)))
  {
    MatchingFacts(a, b);
    LinksPartition(a, b, AllLinks(a, b));
  }

  /** The first links pair by token, and leave no two free folders with a common token. */
  ghost predicate TokenPass(a: seq<FolderInfo>, b: seq<FolderInfo>, links: seq<Link>, first: nat) {
    && first <= |links| && OneToOne(links, |a|, |b|)
    && (forall p :: 0 <= p < first ==> SameToken(a[links[p].a], b[links[p].b]))
    && forall i, j :: 0 <= i < |a| && 0 <= j < |b| && i !in TakenA(links[..first]) && j !in TakenB(links[..first])
         ==> !SameToken(a[i], b[j])
  }

  // ---------------------------------------------------------------- how many pairs per token

  predicate HasToken(f: FolderInfo, token: string) {
    f.specialUse != "" && ToLower(f.specialUse) == token
  }

  function WithToken(fs: seq<FolderInfo>, token: string): set<nat> {
    set i: nat | i < |fs| && HasToken(fs[i], token)
  }

  /** For each link, whether its A folder carries the token. */
  function Flags(a: seq<FolderInfo>, links: seq<Link>, token: string): seq<bool> {
    seq(|links|, p requires 0 <= p < |links| => links[p].a < |a| && HasToken(a[links[p].a], token))
  }

  function SideA(links: seq<Link>): seq<nat> {
    seq(|links|, p requires 0 <= p < |links| => links[p].a)
  }

  function SideB(links: seq<Link>): seq<nat> {
    seq(|links|, p requires 0 <= p < |links| => links[p].b)
  }

  /** The flagged ones among the first `n` positions, and their number. */
  function Chosen(xs: seq<nat>, flags: seq<bool>, n: nat): set<nat>
    requires n <= |xs| == |flags|
  {
    if n == 0 then {}
    else if flags[n - 1] then Chosen(xs, flags, n - 1) + {xs[n - 1]}
    else Chosen(xs, flags, n - 1)
  }

  function Count(flags: seq<bool>, n: nat): nat
    requires n <= |flags|
  {
    if n == 0 then 0 else if flags[n - 1] then Count(flags, n - 1) + 1 else Count(flags, n - 1)
  }

  lemma {:induction false} ChosenMembers(xs: seq<nat>, flags: seq<bool>, n: nat)
    requires n <= |xs| == |flags|
    ensures forall x :: x in Chosen(xs, flags, n) <==> exists p :: 0 <= p < n && flags[p] && xs[p] == x
  {
    if n > 0 {
      ChosenMembers(xs, flags, n - 1);
    }
  }

  lemma {:induction false} ChosenSize(xs: seq<nat>, flags: seq<bool>, n: nat)
    requires n <= |xs| == |flags| && forall p, q :: 0 <= p < q < |xs| ==> xs[p] != xs[q]
    ensures |Chosen(xs, flags, n)| == Count(flags, n)
  {
    if n > 0 {
      ChosenSize(xs, flags, n - 1);
      assert xs[n - 1] !in Chosen(xs, flags, n - 1) by { ChosenMembers(xs, flags, n - 1); }
    }
  }

  lemma Smaller(la: set<nat>, wa: set<nat>, lb: set<nat>, wb: set<nat>)
    requires la <= wa && lb <= wb && |la| == |lb| && (la == wa || lb == wb)
    ensures |la| == if |wa| < |wb| then |wa| else |wb|
  {
    assert wa == la + (wa - la) && wb == lb + (wb - lb);
  }

  /** The SPECIAL-USE pass pairs, for every token, as many folders as the poorer side has. */
  lemma {:induction false} TokenPairsMinimum(a: seq<FolderInfo>, b: seq<FolderInfo>, token: string)
    ensures var links, first := AllLinks(a, b), |TokenLinks(a, b)|;
            first <= |links| && Count(Flags(a, links, token), first)
            == if |WithToken(a, token)| < |WithToken(b, token)| then |WithToken(a, token)| else |WithToken(b, token)|
  {
    MatchingFacts(a, b);
    TokenPassPairsMinimum(a, b, AllLinks(a, b), |TokenLinks(a, b)|, token);
  }

  lemma {:induction false} TokenPassPairsMinimum(a: seq<FolderInfo>, b: seq<FolderInfo>, links: seq<Link>, first: nat,
                                                 token: string)
    requires TokenPass(a, b, links, first)
    ensures Count(Flags(a, links, token), first)
            == if |WithToken(a, token)| < |WithToken(b, token)| then |WithToken(a, token)| else |WithToken(b, token)|
  {
    var flags := Flags(a, links, token);
    ChosenSize(SideA(links), flags, first);
    ChosenSize(SideB(links), flags, first);
    LinkedFit(a, b, links, first, token);
    OneSideExhausted(a, b, links, first, token);
    Smaller(Chosen(SideA(links), flags, first), WithToken(a, token),
            Chosen(SideB(links), flags, first), WithToken(b, token));
  }

  lemma {:induction false} LinkedFit(a: seq<FolderInfo>, b: seq<FolderInfo>, links: seq<Link>, first: nat,
                                     token: string)
    requires TokenPass(a, b, links, first)
    ensures Chosen(SideA(links), Flags(a, links, token), first) <= WithToken(a, token)
    ensures Chosen(SideB(links), Flags(a, links, token), first) <= WithToken(b, token)
  {
    ChosenMembers(SideA(links), Flags(a, links, token), first);
    ChosenMembers(SideB(links), Flags(a, links, token), first);
    forall p | 0 <= p < first && Flags(a, links, token)[p] ensures links[p].b in WithToken(b, token) {
      assert links[p] in links;
    }
  }

  /** The pass ends with all folders of the token linked on one of the sides. */
  lemma {:induction false} OneSideExhausted(a: seq<FolderInfo>, b: seq<FolderInfo>, links: seq<Link>, first: nat,
                                            token: string)
    requires TokenPass(a, b, links, first)
    ensures || Chosen(SideA(links), Flags(a, links, token), first) >= WithToken(a, token)
            || Chosen(SideB(links), Flags(a, links, token), first) >= WithToken(b, token)
  {
    var flags := Flags(a, links, token);
    ChosenMembers(SideA(links), flags, first);
    ChosenMembers(SideB(links), flags, first);
    if i: nat :| i in WithToken(a, token) && i !in Chosen(SideA(links), flags, first) {
      forall j | j in WithToken(b, token) ensures j in Chosen(SideB(links), flags, first) {
        LinkedWithPartner(a, b, links, first, token, i, j);
      }
    }
  }

  lemma LinkedWithPartner(a: seq<FolderInfo>, b: seq<FolderInfo>, links: seq<Link>, first: nat, token: string, i: nat,
                          j: nat)
    requires TokenPass(a, b, links, first) && i in WithToken(a, token) && j in WithToken(b, token)
    requires forall p :: 0 <= p < first && Flags(a, links, token)[p] ==> links[p].a != i
    ensures exists p :: 0 <= p < first && Flags(a, links, token)[p] && links[p].b == j
  {
    forall l | l in links[..first] ensures l.a != i {
      var p :| 0 <= p < first && links[p] == l;
      assert Flags(a, links, token)[p] || l.a != i;
    }
    assert i !in TakenA(links[..first]) && SameToken(a[i], b[j]);
    assert j in TakenB(links[..first]);
    var l :| l in links[..first] && l.b == j;
    var p :| 0 <= p < first && links[p] == l;
    assert links[p] in links && SameToken(a[links[p].a], b[j]);
    assert Flags(a, links, token)[p];
  }
}
