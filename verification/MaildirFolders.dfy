/** Folder names of a Maildir++ tree (internal/endpoint/maildir.go): a subfolder "a/b" is the
    directory ".a.b" under the root, and the root itself is INBOX. */
module MaildirFolders {
  import opened Text
  import opened RunRows
  import opened FolderMatching
  import opened Selection

  predicate IsDot(c: char) {
    c == '.'
  }

  function TrimDots(s: string): string {
    TrimRight(TrimLeft(s, IsDot), IsDot)
  }

  /** The conventional subfolder of a SPECIAL-USE token. */
  function Conventional(name: string): Option<string> {
    if name == "\\Sent" then Some("Sent")
    else if name == "\\Drafts" then Some("Drafts")
    else if name == "\\Trash" then Some("Trash")
    else if name == "\\Junk" then Some("Junk")
    else if name == "\\Archive" then Some("Archive")
    else None
  }

  function Dotted(name: string): string {
    TrimDots(ReplaceChar(name, '/', '.'))
  }

  function DirName(name: string): string {
    "." + Dotted(name)
  }

  /** The name under which a directory is listed. */
  function ListedName(dir: string): string {
    ReplaceChar(TrimDots(dir), '.', '/')
  }

  predicate IsInbox(name: string) {
    EqualFold(name, "INBOX")
  }

  /** A name create-then-list gives back: no dot, and no slash at an edge. */
  predicate Canonical(name: string) {
    name != [] && '.' !in name && name[0] != '/' && name[|name| - 1] != '/'
  }

  /** What selecting asks of a name on top of that. */
  predicate Selectable(name: string) {
    Canonical(name) && TrimSpace(name) == name && !IsInbox(name) && Conventional(name).None?
  }

  // ---------------------------------------------------------------- the tree

  /** A directory under the root, and whether it has a cur/. */
  datatype Entry = Entry(name: string, isMaildir: bool)

  /** Where a folder name leads. */
  datatype Path = Root | Sub(dir: string)

  predicate HasDir(entries: seq<Entry>, dir: string) {
    exists i :: 0 <= i < |entries| && entries[i].name == dir
  }

  /** The first directory whose name equals n without regard to case, or else exact. */
  function SimilarDir(entries: seq<Entry>, n: string, exact: string): string {
    if entries == [] then exact
    else if HasPrefix(entries[0].name, ".") && EqualFold(entries[0].name[1..], n) then entries[0].name
    else SimilarDir(entries[1..], n, exact)
  }

  function FolderPath(entries: seq<Entry>, name: string): Path {
    var trimmed := TrimSpace(name);
    if trimmed == "" || IsInbox(trimmed) then Root
    else
      var n := Dotted(match Conventional(trimmed) case Some(sub) => sub case None => trimmed);
      if n == "" then Root
      else if HasDir(entries, "." + n) then Sub("." + n)
      else Sub(SimilarDir(entries, n, "." + n))
  }

  /** Making tmp/, new/ and cur/ in a directory; a new directory is read at position at. */
  function Made(entries: seq<Entry>, dir: string, at: nat): seq<Entry>
    requires at <= |entries|
  {
    if HasDir(entries, dir) then
      seq(|entries|, i requires 0 <= i < |entries| =>
        if entries[i].name == dir then Entry(dir, true) else entries[i])
    else entries[..at] + [Entry(dir, true)] + entries[at..]
  }

  /** The same when only the first `made` of the three can be made: without cur/ a new directory is
      not yet a folder. */
  function MadeSome(entries: seq<Entry>, dir: string, at: nat, made: nat): seq<Entry>
    requires at <= |entries|
  {
    if made >= 3 then Made(entries, dir, at)
    else if made == 0 || HasDir(entries, dir) then entries
    else entries[..at] + [Entry(dir, false)] + entries[at..]
  }

  /** Names that stand for the root, which always exists. */
  predicate IsRoot(name: string) {
    Dotted(name) == "" || IsInbox(name)
  }

  /** Only a dotted directory that looks like a maildir is a folder. */
  predicate IsFolder(e: Entry) {
    HasPrefix(e.name, ".") && TrimDots(e.name) != "" && e.isMaildir
  }

  function Listed(entries: seq<Entry>): seq<string> {
    if entries == [] then []
    else (if IsFolder(entries[0]) then [ListedName(entries[0].name)] else []) + Listed(entries[1..])
  }

  /** The SPECIAL-USE token a subfolder is conventionally used for. */
  function TokenOf(dotted: string): string {
    if EqualFold("Sent", dotted) then "\\Sent"
    else if EqualFold("Drafts", dotted) then "\\Drafts"
    else if EqualFold("Trash", dotted) then "\\Trash"
    else if EqualFold("Junk", dotted) then "\\Junk"
    else if EqualFold("Archive", dotted) then "\\Archive"
    else ""
  }

  function InfoOf(e: Entry): FolderInfo {
    FolderInfo(ListedName(e.name), TokenOf(TrimDots(e.name)), true)
  }

  function Infos(entries: seq<Entry>): seq<FolderInfo> {
    if entries == [] then []
    else (if IsFolder(entries[0]) then [InfoOf(entries[0])] else []) + Infos(entries[1..])
  }

  /** What is listed carries the listed names. */
  lemma {:induction false} InfosAreListed(entries: seq<Entry>)
    ensures |Infos(entries)| == |Listed(entries)|
    ensures forall i :: 0 <= i < |Infos(entries)| ==> Infos(entries)[i].name == Listed(entries)[i]
  {
    if entries != [] {
      InfosAreListed(entries[1..]);
    }
  }

  /** The folder a token stands for is listed under that token. */
  lemma {:induction false} TokenRoundTrip(token: string)
    requires Conventional(token).Some?
    ensures TokenOf(Conventional(token).value) == token
  {
    assert |ToLower("Sent")| == 4 && |ToLower("Drafts")| == 6 && |ToLower("Archive")| == 7;
    assert ToLower("Trash")[0] == 't' && ToLower("Junk")[0] == 'j' && ToLower("Sent")[0] == 's';
  }

  /** The root of a tree; entries are in the order they are read. */
  class Tree {
    var entries: seq<Entry>

    constructor (entries: seq<Entry>)
      ensures this.entries == entries
    {
      this.entries := entries;
    }

    /** Makes tmp/, new/ and cur/, of which only the first `made` can be made. */
    method CreateFolder(name: string, at: nat, made: nat) returns (ok: bool)
      requires at <= |entries|
      modifies this
      ensures ok == (IsRoot(name) || made >= 3)
      ensures entries == if IsRoot(name) then old(entries) else MadeSome(old(entries), DirName(name), at, made)
      ensures ok && Canonical(name) && !IsInbox(name) ==> name in Listed(entries)
      ensures ok && Selectable(name) ==> FolderPath(entries, name) == Sub(DirName(name))
    {
      var dotted := Dotted(name);
      if Canonical(name) {
        CanonicalNames(name);
      }
      if dotted == "" || IsInbox(name) {
        return true;
      }
      CreateThenList(entries, name, at);
      ok := made >= 3;
      entries := MadeSome(entries, "." + dotted, at, made);
    }

    /** Selecting makes the folder if it is missing, scans it, and reports its name and the constant
        validity. */
    method Select(name: string, at: nat, made: nat, scans: bool) returns (ok: bool, folder: string, validity: string)
      requires at <= |entries|
      modifies this
      ensures match FolderPath(old(entries), name)
              case Root => entries == old(entries) && (ok ==> folder == "INBOX")
              case Sub(dir) => && entries == MadeSome(old(entries), dir, at, made) && (ok ==> HasDir(entries, dir))
                               && (ok && "." <= dir ==> folder == ReplaceChar(dir[1..], '.', '/'))
      ensures ok == (made >= 3 && scans)
      ensures ok && Selectable(name) && HasDir(old(entries), DirName(name)) ==> folder == name
      ensures ok ==> validity == "maildir"
    {
      folder, validity := "", "";
      if Selectable(name) {
        CanonicalNames(name);
        assert Dotted(name) != "";
      }
      var path := FolderPath(entries, name);
      ok := made >= 3 && scans;
      if path.Sub? {
        MadeHas(entries, path.dir, at);
        entries := MadeSome(entries, path.dir, at, made);
      }
      if ok {
        folder, validity := "INBOX", "maildir";
        if path.Sub? {
          var dotted := if HasPrefix(path.dir, ".") then path.dir[1..] else path.dir;
          folder := ReplaceChar(dotted, '.', '/');
        }
      }
    }

    /** The root and its subfolders, or an error if the root cannot be read. */
    method ListFolders(readable: bool) returns (ok: bool, out: seq<FolderInfo>)
      ensures ok == readable && (ok ==> out == [FolderInfo("INBOX", "", true)] + Infos(entries))
    {
      ok, out := readable, [FolderInfo("INBOX", "", true)];
      if !ok {
        return;
      }
      for i := 0 to |entries|
        invariant out + Infos(entries[i..]) == [FolderInfo("INBOX", "", true)] + Infos(entries)
      {
        assert entries[i..][1..] == entries[i + 1..];
        var ent := entries[i];
        if HasPrefix(ent.name, ".") && TrimDots(ent.name) != "" && ent.isMaildir {
          out := out + [InfoOf(ent)];
        }
      }
    }
  }

  // ---------------------------------------------------------------- round trips

  lemma {:induction false} TrimmedLeft(s: string, drop: char -> bool)
    ensures var t := TrimLeft(s, drop);
            && (t == [] || !drop(t[0])) && (forall c :: c in t ==> c in s)
            && |t| <= |s| && t == s[|s| - |t|..]
  {
    if s != [] && drop(s[0]) {
      TrimmedLeft(s[1..], drop);
    }
  }

  lemma {:induction false} TrimmedRight(s: string, drop: char -> bool)
    ensures var t := TrimRight(s, drop);
            && (t == [] || !drop(t[|t| - 1])) && (forall c :: c in t ==> c in s)
            && t <= s
  {
    if s != [] && drop(s[|s| - 1]) {
      TrimmedRight(s[..|s| - 1], drop);
    }
  }

  lemma {:induction false} DotsTrimmed(s: string)
    ensures var t := TrimDots(s);
            && (t == [] || (t[0] != '.' && t[|t| - 1] != '.')) && (forall c :: c in t ==> c in s)
  {
    TrimmedLeft(s, IsDot);
    TrimmedRight(TrimLeft(s, IsDot), IsDot);
  }

  lemma {:induction false} LeadingDot(s: string)
    requires s != [] && s[0] != '.' && s[|s| - 1] != '.'
    ensures TrimDots("." + s) == s && TrimDots(s) == s
  {
    assert ("." + s)[1..] == s;
    TrimKeepsClean(s, IsDot);
    assert TrimLeft("." + s, IsDot) == TrimLeft(s, IsDot);
  }

  /** The names of a canonical folder: its directory, and back. */
  lemma {:induction false} CanonicalNames(name: string)
    requires Canonical(name)
    ensures Dotted(name) == ReplaceChar(name, '/', '.') && Dotted(name) != ""
    ensures ReplaceChar(Dotted(name), '.', '/') == name && ListedName(DirName(name)) == name
  {
    var r := ReplaceChar(name, '/', '.');
    assert name[0] in name && name[|name| - 1] in name;
    LeadingDot(r);
    ReplacedBack(name, '/', '.');
  }

  /** A created folder is listed under the name it was created with exactly when that name has
      no dot and no slash at an edge. */
  lemma {:induction false} ListedNameIff(name: string)
    requires Dotted(name) != ""
    ensures ListedName(DirName(name)) == name <==> Canonical(name)
  {
    if Canonical(name) {
      CanonicalNames(name);
    }
    if ListedName(DirName(name)) == name {
      var d := Dotted(name);
      DotsTrimmed(ReplaceChar(name, '/', '.'));
      LeadingDot(d);
      assert d[0] in d && d[|d| - 1] in d;
      assert '/' !in ReplaceChar(name, '/', '.');
    }
  }

  /** Distinct canonical names are distinct directories. */
  lemma {:induction false} DirNamesDiffer(name: string, other: string)
    requires Canonical(name) && Canonical(other) && DirName(name) == DirName(other)
    ensures name == other
  {
    CanonicalNames(name);
    CanonicalNames(other);
  }

  lemma {:induction false} MadeHas(entries: seq<Entry>, dir: string, at: nat)
    requires at <= |entries|
    ensures HasDir(Made(entries, dir, at), dir)
    ensures Entry(dir, true) in Made(entries, dir, at)
    ensures forall e :: e in entries && e.name != dir ==> e in Made(entries, dir, at)
    ensures forall e :: e in Made(entries, dir, at) && e.name != dir ==> e in entries
  {
    var r := Made(entries, dir, at);
    if HasDir(entries, dir) {
      var i :| 0 <= i < |entries| && entries[i].name == dir;
      assert r[i] == Entry(dir, true);
      forall e | e in entries && e.name != dir ensures e in r {
        var k :| 0 <= k < |entries| && entries[k] == e;
        assert r[k] == e;
      }
    } else {
      assert r[at] == Entry(dir, true);
    }
  }

  lemma {:induction false} ListedIff(entries: seq<Entry>, name: string)
    ensures name in Listed(entries)
            <==> exists e :: e in entries && IsFolder(e) && ListedName(e.name) == name
  {
    if entries != [] {
      ListedIff(entries[1..], name);
      assert entries == [entries[0]] + entries[1..];
    }
  }

  /** Creating a folder lists it under its name and leaves every other folder listed as it was;
      selecting the name then leads to the directory that was made. */
  lemma {:induction false} CreateThenList(entries: seq<Entry>, name: string, at: nat)
    requires at <= |entries|
    ensures var r := Made(entries, DirName(name), at);
            && (Canonical(name) ==> name in Listed(r))
            && (Selectable(name) ==> FolderPath(r, name) == Sub(DirName(name)))
  {
    var r := Made(entries, DirName(name), at);
    MadeHas(entries, DirName(name), at);
    if Canonical(name) {
      CanonicalNames(name);
      var e := Entry(DirName(name), true);
      assert IsFolder(e) && ListedName(e.name) == name;
      ListedIff(r, name);
    }
  }

  /** The listing gains the created name and nothing else. */
  lemma {:induction false} CreateOnlyAdds(entries: seq<Entry>, name: string, at: nat, other: string)
    requires at <= |entries| && Canonical(name) && other != name
    ensures other in Listed(Made(entries, DirName(name), at)) <==> other in Listed(entries)
  {
    var r := Made(entries, DirName(name), at);
    CanonicalNames(name);
    MadeHas(entries, DirName(name), at);
    ListedIff(r, other);
    ListedIff(entries, other);
  }

  lemma {:induction false} SimilarLength(entries: seq<Entry>, n: string, exact: string)
    requires |exact| == 1 + |n|
    ensures |SimilarDir(entries, n, exact)| == 1 + |n|
  {
    if entries != [] {
      SimilarLength(entries[1..], n, exact);
      if HasPrefix(entries[0].name, ".") && EqualFold(entries[0].name[1..], n) {
        assert |ToLower(entries[0].name[1..])| == |ToLower(n)|;
      }
    }
  }

  lemma {:induction false} PathLength(entries: seq<Entry>, name: string)
    requires FolderPath(entries, name).Sub?
    ensures var dir := FolderPath(entries, name).dir;
            var trimmed := TrimSpace(name);
            |dir| <= if Conventional(trimmed).Some? then |trimmed| else 1 + |trimmed|
  {
    var trimmed := TrimSpace(name);
    var m := match Conventional(trimmed) case Some(sub) => sub case None => trimmed;
    var n := Dotted(m);
    TrimmedLeft(ReplaceChar(m, '/', '.'), IsDot);
    TrimmedRight(TrimLeft(ReplaceChar(m, '/', '.'), IsDot), IsDot);
    SimilarLength(entries, n, "." + n);
  }

  /** Of the folders listed under their own name, selecting reaches exactly those whose name has
      no space at an edge and is neither INBOX nor a SPECIAL-USE token. */
  lemma {:induction false} SelectReachesIff(entries: seq<Entry>, name: string, at: nat)
    requires at <= |entries| && Canonical(name)
    ensures FolderPath(Made(entries, DirName(name), at), name) == Sub(DirName(name)) <==> Selectable(name)
  {
    var r := Made(entries, DirName(name), at);
    CreateThenList(entries, name, at);
    if FolderPath(r, name) == Sub(DirName(name)) {
      PathLength(r, name);
      CanonicalNames(name);
      TrimmedLeft(name, IsSpace);
      TrimmedRight(TrimLeft(name, IsSpace), IsSpace);
    }
  }

  /** A failed create lists nothing new. */
  lemma {:induction false} FailedCreateListsNothing(entries: seq<Entry>, dir: string, at: nat, made: nat, name: string)
    requires at <= |entries| && made < 3
    ensures name in Listed(MadeSome(entries, dir, at, made)) <==> name in Listed(entries)
  {
    var r := MadeSome(entries, dir, at, made);
    ListedIff(r, name);
    ListedIff(entries, name);
    assert forall e :: e in entries ==> e in entries[..at] || e in entries[at..];
  }

  // ---------------------------------------------------------------- where a name leads, written out

  predicate IsSpare(c: char) {
    c == '.' || c == '/'
  }

  predicate Spare(s: string) {
    forall i :: 0 <= i < |s| ==> IsSpare(s[i])
  }

  lemma {:induction false} TrimLeftDots(l: string, s: string)
    requires forall i :: 0 <= i < |l| ==> l[i] == '.'
    ensures TrimLeft(l + s, IsDot) == TrimLeft(s, IsDot)
  {
    if l == [] {
      assert l + s == s;
    } else {
      assert (l + s)[0] == l[0] && (l + s)[1..] == l[1..] + s;
      TrimLeftDots(l[1..], s);
    }
  }

  lemma {:induction false} TrimRightDots(s: string, r: string)
    requires forall i :: 0 <= i < |r| ==> r[i] == '.'
    ensures TrimRight(s + r, IsDot) == TrimRight(s, IsDot)
  {
    if r == [] {
      assert s + r == s;
    } else {
      var n := |r| - 1;
      assert (s + r)[|s + r| - 1] == r[n] && (s + r)[..|s + r| - 1] == s + r[..n];
      TrimRightDots(s, r[..n]);
    }
  }

  lemma {:induction false} ReplacedParts(l: string, x: string, r: string)
    ensures ReplaceChar(l + x + r, '/', '.')
            == ReplaceChar(l, '/', '.') + ReplaceChar(x, '/', '.') + ReplaceChar(r, '/', '.')
  {
  }

  /** A folder name loses the dots and slashes around it, and its slashes become dots. */
  lemma {:induction false} DottedIs(l: string, x: string, r: string)
    requires Spare(l) && Spare(r)
    requires x == [] || (!IsSpare(x[0]) && !IsSpare(x[|x| - 1]))
    ensures Dotted(l + x + r) == ReplaceChar(x, '/', '.')
  {
    ReplacedParts(l, x, r);
    DotsAround(ReplaceChar(l, '/', '.'), ReplaceChar(x, '/', '.'), ReplaceChar(r, '/', '.'));
  }

  lemma {:induction false} DotsAround(l: string, x: string, r: string)
    requires forall i :: 0 <= i < |l| ==> l[i] == '.'
    requires forall i :: 0 <= i < |r| ==> r[i] == '.'
    requires x == [] || (x[0] != '.' && x[|x| - 1] != '.')
    ensures TrimDots(l + x + r) == x
  {
    Regroup(l, x, r);
    TrimLeftDots(l, x + r);
    if x == [] {
      assert x + r == r + [];
      TrimLeftDots(r, []);
    } else {
      FirstOfPrefix(x, r);
      TrimRightDots(x, r);
    }
  }

  /** Nothing, and INBOX in any spelling, lead to the root. */
  lemma {:induction false} InboxIsRoot(entries: seq<Entry>, l: string, name: string, r: string)
    requires Blank(l) && Blank(r) && CleanEdges(name) && (name == [] || ToLower(name) == "inbox")
    ensures FolderPath(entries, l + name + r) == Root
  {
    TrimSpaceOf(l, name, r);
    assert ToLower("INBOX") == "inbox";
  }

  /** A directory that exists under that name exactly; or else the first that differs only in case; or
      else the one to be made. */
  ghost predicate LeadsTo(entries: seq<Entry>, path: Path, dir: string) {
    && path.Sub?
    && (HasDir(entries, dir) ==> path.dir == dir)
    && (!HasDir(entries, dir) ==> forall k :: IsFirstLike(entries, dir, k) ==> path.dir == entries[k].name)
    && ((forall k :: 0 <= k < |entries| ==> ToLower(entries[k].name) != ToLower(dir)) ==> path.dir == dir)
  }

  predicate IsFirstLike(entries: seq<Entry>, dir: string, k: int) {
    && 0 <= k < |entries| && ToLower(entries[k].name) == ToLower(dir)
    && forall i :: 0 <= i < k ==> ToLower(entries[i].name) != ToLower(dir)
  }

  lemma {:induction false} LikeDir(name: string, n: string)
    ensures HasPrefix(name, ".") && EqualFold(name[1..], n) <==> ToLower(name) == ToLower("." + n)
  {
    var low := ToLower("." + n);
    assert low[0] == '.' && low[1..] == ToLower(n) by { assert ("." + n)[1..] == n; }
    if "." <= name {
      assert ToLower(name)[0] == '.' && ToLower(name)[1..] == ToLower(name[1..]);
    } else {
      assert name != [] ==> ToLower(name)[0] != '.';
    }
    if "." <= name && EqualFold(name[1..], n) {
      assert ToLower(name) == [ToLower(name)[0]] + ToLower(name)[1..] && low == [low[0]] + low[1..];
    }
  }

  lemma {:induction false} SimilarIs(entries: seq<Entry>, n: string, exact: string, k: int)
    requires IsFirstLike(entries, "." + n, k)
    ensures SimilarDir(entries, n, exact) == entries[k].name
  {
    LikeDir(entries[0].name, n);
    if k > 0 {
      SimilarIs(entries[1..], n, exact, k - 1);
    }
  }

  lemma {:induction false} NoneSimilar(entries: seq<Entry>, n: string, exact: string)
    requires forall k :: 0 <= k < |entries| ==> ToLower(entries[k].name) != ToLower("." + n)
    ensures SimilarDir(entries, n, exact) == exact
  {
    if entries != [] {
      LikeDir(entries[0].name, n);
      NoneSimilar(entries[1..], n, exact);
    }
  }

  lemma {:induction false} PathLeads(entries: seq<Entry>, n: string)
    ensures var dir := "." + n;
            LeadsTo(entries, Sub(if HasDir(entries, dir) then dir else SimilarDir(entries, n, dir)), dir)
  {
    var dir := "." + n;
    forall k | IsFirstLike(entries, dir, k) ensures SimilarDir(entries, n, dir) == entries[k].name {
      SimilarIs(entries, n, dir, k);
    }
    if forall k :: 0 <= k < |entries| ==> ToLower(entries[k].name) != ToLower(dir) {
      NoneSimilar(entries, n, dir);
    }
  }

  /** The SPECIAL-USE tokens and their conventional subfolders. */
  predicate IsConvention(token: string, sub: string) {
    || (token == "\\Sent" && sub == "Sent")
    || (token == "\\Drafts" && sub == "Drafts")
    || (token == "\\Trash" && sub == "Trash")
    || (token == "\\Junk" && sub == "Junk")
    || (token == "\\Archive" && sub == "Archive")
  }

  lemma {:induction false} ConventionalIff(token: string, sub: string)
    ensures Conventional(token) == Some(sub) <==> IsConvention(token, sub)
  {
  }

  /** Such a pair is a word, and a backslash in front of it. */
  lemma {:induction false} ConventionIsWord(token: string, sub: string)
    requires IsConvention(token, sub)
    ensures token == ['\\'] + sub && sub != []
    ensures forall i :: 0 <= i < |sub| ==> 'A' <= sub[i] <= 'z'
  {
  }

  /** A SPECIAL-USE token leads to its conventional directory. */
  lemma {:induction false} TokenPath(entries: seq<Entry>, token: string, sub: string)
    requires IsConvention(token, sub)
    ensures LeadsTo(entries, FolderPath(entries, token), "." + sub)
  {
    ConventionalIff(token, sub);
    ConventionIsWord(token, sub);
    BackslashStays(token, sub);
    WordIsDir(sub);
    PathLeads(entries, sub);
  }

  lemma {:induction false} BackslashStays(token: string, sub: string)
    requires token == ['\\'] + sub && sub != [] && forall i :: 0 <= i < |sub| ==> 'A' <= sub[i] <= 'z'
    ensures TrimSpace(token) == token && token != [] && !IsInbox(token)
  {
    assert token[|token| - 1] == sub[|sub| - 1];
    TrimSpaceOf([], token, []);
    assert [] + token + [] == token;
    assert ToLower(token)[0] == '\\' && ToLower("INBOX")[0] == 'i';
  }

  lemma {:induction false} WordIsDir(sub: string)
    requires sub != [] && forall i :: 0 <= i < |sub| ==> 'A' <= sub[i] <= 'z'
    ensures Dotted(sub) == sub
  {
    DottedIs([], sub, []);
    assert [] + sub + [] == sub;
    assert ReplaceChar(sub, '/', '.') == sub;
  }

  /** Any other name leads to its directory, with the slashes as dots and none around it. */
  lemma {:induction false} NamePath(entries: seq<Entry>, name: string, l: string, x: string, r: string)
    requires CleanEdges(name) && ToLower(name) != "inbox" && name == l + x + r
    requires name != "\\Sent" && name != "\\Drafts" && name != "\\Trash" && name != "\\Junk" && name != "\\Archive"
    requires Spare(l) && Spare(r) && x != [] && !IsSpare(x[0]) && !IsSpare(x[|x| - 1])
    ensures LeadsTo(entries, FolderPath(entries, name), "." + ReplaceChar(x, '/', '.'))
  {
    TrimSpaceOf([], name, []);
    assert [] + name + [] == name;
    assert ToLower("INBOX") == "inbox";
    DottedIs(l, x, r);
    PathLeads(entries, ReplaceChar(x, '/', '.'));
  }

  // ---------------------------------------------------------------- what is listed, written out

  /** A dotted directory with a cur/ and with something between the dots. */
  predicate LooksLikeFolder(e: Entry) {
    e.isMaildir && e.name != [] && e.name[0] == '.' && exists i :: 0 <= i < |e.name| && e.name[i] != '.'
  }

  lemma {:induction false} DotsOnly(s: string)
    ensures TrimDots(s) == "" <==> forall i :: 0 <= i < |s| ==> s[i] == '.'
  {
    if forall i :: 0 <= i < |s| ==> s[i] == '.' {
      TrimLeftDots(s, []);
      assert s + [] == s;
    } else {
      var i :| 0 <= i < |s| && s[i] != '.';
      KeepsOther(s, s[i]);
    }
  }

  lemma {:induction false} KeepsOther(s: string, c: char)
    requires c in s && c != '.'
    ensures c in TrimDots(s)
  {
    KeepsOtherLeft(s, c);
    KeepsOtherRight(TrimLeft(s, IsDot), c);
  }

  lemma {:induction false} KeepsOtherLeft(s: string, c: char)
    requires c in s && c != '.'
    ensures c in TrimLeft(s, IsDot)
  {
    if s[0] == '.' {
      KeepsOtherLeft(s[1..], c);
    }
  }

  lemma {:induction false} KeepsOtherRight(s: string, c: char)
    requires c in s && c != '.'
    ensures c in TrimRight(s, IsDot)
  {
    if s[|s| - 1] == '.' {
      KeepsOtherRight(s[..|s| - 1], c);
    }
  }

  lemma {:induction false} FolderIff(e: Entry)
    ensures IsFolder(e) <==> LooksLikeFolder(e)
  {
    DotsOnly(e.name);
  }

  /** The listing has exactly the directories that look like folders, in their order, with the dots
      inside as slashes and none around. */
  lemma {:induction false} ListingIs(entries: seq<Entry>) returns (kept: seq<Entry>)
    ensures KeepsExactly(entries, LooksLikeFolder, kept) && Describe(Infos(entries), kept)
  {
    kept := [];
    KeepsNothing(LooksLikeFolder);
    if entries != [] {
      var rest := ListingIs(entries[1..]);
      FolderIff(entries[0]);
      KeepsFirst(entries, LooksLikeFolder, rest);
      if LooksLikeFolder(entries[0]) {
        kept := [entries[0]] + rest;
        OneMoreListed(entries[0], Infos(entries[1..]), rest);
      } else {
        kept := rest;
        assert [] + Infos(entries[1..]) == Infos(entries[1..]);
      }
    }
  }

  ghost predicate Describe(infos: seq<FolderInfo>, kept: seq<Entry>) {
    && |infos| == |kept|
    && forall i :: 0 <= i < |kept| ==>
         && infos[i].name == ReplaceChar(TrimDots(kept[i].name), '.', '/')
         && infos[i].specialUse == TokenOf(TrimDots(kept[i].name)) && infos[i].selectable
  }

  lemma {:induction false} OneMoreListed(e: Entry, infos: seq<FolderInfo>, rest: seq<Entry>)
    requires Describe(infos, rest)
    ensures Describe([InfoOf(e)] + infos, [e] + rest)
  {
  }

  /** The tokens of the conventional names, in any spelling. */
  lemma {:induction false} TokenIs(dotted: string)
    ensures TokenOf(dotted) == "\\Sent" <==> ToLower(dotted) == "sent"
    ensures TokenOf(dotted) == "\\Drafts" <==> ToLower(dotted) == "drafts"
    ensures TokenOf(dotted) == "\\Trash" <==> ToLower(dotted) == "trash"
    ensures TokenOf(dotted) == "\\Junk" <==> ToLower(dotted) == "junk"
    ensures TokenOf(dotted) == "\\Archive" <==> ToLower(dotted) == "archive"
    ensures TokenOf(dotted) in ["\\Sent", "\\Drafts", "\\Trash", "\\Junk", "\\Archive", ""]
  {
    LowerConventional();
  }

  lemma {:induction false} LowerConventional()
    ensures ToLower("Sent") == "sent" && ToLower("Drafts") == "drafts" && ToLower("Trash") == "trash"
    ensures ToLower("Junk") == "junk" && ToLower("Archive") == "archive"
  {
  }
}
