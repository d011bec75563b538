/** Folder names of an IMAP server (internal/mailbox/client.go): outside the client the hierarchy
    delimiter is always "/", whatever the server's own is (section 5.1.1 of RFC 3501). */
module ImapFolders {
  import opened Text
  import opened RunRows
  import opened FolderMatching

  /** One line of a LIST answer; the delimiter is a single character or absent. */
  datatype Info = Info(name: string, delimiter: Option<char>, attributes: seq<string>)

  function FolderDelimiter(infos: seq<Info>): char {
    if infos == [] then '/'
    else if infos[0].delimiter.Some? then infos[0].delimiter.value
    else FolderDelimiter(infos[1..])
  }

  predicate IsToken(name: string) {
    name in ["\\All", "\\Archive", "\\Drafts", "\\Flagged", "\\Junk", "\\Sent", "\\Trash"]
  }

  predicate HasAttribute(m: Info, name: string) {
    exists i :: 0 <= i < |m.attributes| && EqualFold(m.attributes[i], name)
  }

  function Native(name: string, delim: char): string {
    if delim != '/' then ReplaceChar(name, '/', delim) else name
  }

  /** The name a folder is listed under. */
  function ListedName(native: string, delim: char): string {
    var name := if delim != '/' then ReplaceChar(native, delim, '/') else native;
    if EqualFold(name, "INBOX") then "INBOX" else name
  }

  function Listed(infos: seq<Info>): (r: seq<string>)
    ensures |r| == |infos|
  {
    seq(|infos|, i requires 0 <= i < |infos| => ListedName(infos[i].name, FolderDelimiter(infos)))
  }

  /** The last attribute that is a SPECIAL-USE token, "" if there is none. */
  function SpecialUse(attributes: seq<string>): string {
    if attributes == [] then ""
    else
      var last := attributes[|attributes| - 1];
      if IsToken(last) then last else SpecialUse(attributes[..|attributes| - 1])
  }

  predicate CanSelect(attributes: seq<string>) {
    forall i :: 0 <= i < |attributes| ==> !EqualFold(attributes[i], "\\Noselect")
  }

  function InfoOf(m: Info, delim: char): FolderInfo {
    FolderInfo(ListedName(m.name, delim), SpecialUse(m.attributes), CanSelect(m.attributes))
  }

  // ---------------------------------------------------------------- resolving

  /** The four ways a folder can be meant, tried in this order. */
  datatype Way = ByToken | ByName | ByNative | ByFold

  predicate Meant(m: Info, name: string, delim: char, way: Way) {
    match way
    case ByToken => IsToken(name) && HasAttribute(m, name)
    case ByName => m.name == name
    case ByNative =>
      delim != '/' && '/' in name && (m.name == Native(name, delim) || EqualFold(m.name, Native(name, delim)))
    case ByFold => EqualFold(m.name, name)
  }

  function First(infos: seq<Info>, name: string, delim: char, way: Way): Option<string> {
    if infos == [] then None
    else if Meant(infos[0], name, delim, way) then Some(infos[0].name)
    else First(infos[1..], name, delim, way)
  }

  function Else<T>(x: Option<T>, y: Option<T>): Option<T> {
    if x.Some? then x else y
  }

  function Resolved(infos: seq<Info>, name: string): Option<string> {
    var d := FolderDelimiter(infos);
    Else(First(infos, name, d, ByToken),
    Else(First(infos, name, d, ByName),
    Else(First(infos, name, d, ByNative), First(infos, name, d, ByFold))))
  }

  // ---------------------------------------------------------------- the client

  /** A client of a server that nobody else changes; it keeps the last LIST answer. */
  class Client {
    var server: seq<Info>
    var folders: Option<seq<Info>>

    ghost predicate Valid()
      reads this
    {
      folders.Some? ==> folders.value == server
    }

    constructor (server: seq<Info>)
      ensures Valid() && this.server == server
    {
      this.server, this.folders := server, None;
    }

    /** The last answer, or else a new one, which may fail. */
    method List(works: bool) returns (ok: bool, infos: seq<Info>)
      requires Valid()
      modifies this`folders
      ensures Valid() && ok == (old(folders).Some? || works) && (ok ==> infos == server)
      ensures !ok ==> folders == old(folders)
    {
      ok, infos := true, [];
      if folders.None? {
        if !works {
          return false, [];
        }
        folders := Some(server);
      }
      infos := folders.value;
    }

    method ListFolders(works: bool) returns (ok: bool, out: seq<FolderInfo>)
      requires Valid()
      modifies this`folders
      ensures Valid() && ok == (old(folders).Some? || works)
      ensures ok ==> |out| == |server| && forall k :: 0 <= k < |server| ==>
                out[k] == InfoOf(server[k], FolderDelimiter(server)) && out[k].name == Listed(server)[k]
    {
      var infos;
      ok, infos := List(works);
      out := [];
      if !ok {
        return;
      }
      out := Describe(infos, FolderDelimiter(infos));
    }

    method Describe(infos: seq<Info>, delim: char) returns (out: seq<FolderInfo>)
      ensures |out| == |infos| && forall k :: 0 <= k < |infos| ==> out[k] == InfoOf(infos[k], delim)
    {
      out := [];
      for i := 0 to |infos|
        invariant |out| == i
        invariant forall k :: 0 <= k < i ==> out[k] == InfoOf(infos[k], delim)
      {
        var use, selectable := ReadAttributes(infos[i].attributes);
        out := out + [FolderInfo(ListedName(infos[i].name, delim), use, selectable)];
      }
    }

    method ReadAttributes(attributes: seq<string>) returns (use: string, selectable: bool)
      ensures use == SpecialUse(attributes) && selectable == CanSelect(attributes)
    {
      use, selectable := "", true;
      assert attributes[..0] == [];
      for i := 0 to |attributes|
        invariant use == SpecialUse(attributes[..i]) && selectable == CanSelect(attributes[..i])
      {
        assert attributes[..i + 1] == attributes[..i] + [attributes[i]];
        assert attributes[..i + 1][..i] == attributes[..i];
        if EqualFold(attributes[i], "\\Noselect") {
          selectable := false;
        }
        if IsToken(attributes[i]) {
          use := attributes[i];
        }
      }
      assert attributes[..|attributes|] == attributes;
    }

    method Find(infos: seq<Info>, name: string, delim: char, way: Way) returns (found: Option<string>)
      ensures found == First(infos, name, delim, way)
    {
      for i := 0 to |infos|
        invariant First(infos[i..], name, delim, way) == First(infos, name, delim, way)
      {
        assert infos[i..][1..] == infos[i + 1..];
        if Meant(infos[i], name, delim, way) {
          return Some(infos[i].name);
        }
      }
      return None;
    }

    method ResolveFolder(name: string, works: bool) returns (ok: bool, found: Option<string>)
      requires Valid()
      modifies this`folders
      ensures Valid() && ok == (old(folders).Some? || works) && (ok ==> found == Resolved(server, name))
    {
      var infos;
      ok, infos := List(works);
      found := None;
      if !ok {
        return;
      }
      var delim := FolderDelimiter(infos);
      found := Find(infos, name, delim, ByToken);
      if found.None? {
        found := Find(infos, name, delim, ByName);
      }
      if found.None? {
        found := Find(infos, name, delim, ByNative);
      }
      if found.None? {
        found := Find(infos, name, delim, ByFold);
      }
    }

    /** The server answers a CREATE by adding the folder, listed at some place with the server's
        delimiter or none, or by refusing; without a listing nothing is created. */
    method CreateMailbox(name: string, works: bool, accepted: bool, at: nat, delimiter: Option<char>,
                         attributes: seq<string>)
        returns (ok: bool)
      requires Valid() && at <= |server|
      modifies this
      ensures Valid() && ok == ((old(folders).Some? || works) && accepted)
      ensures var made := Info(Native(name, FolderDelimiter(old(server))), delimiter, attributes);
              server == if ok then Inserted(old(server), at, made) else old(server)
    {
      var infos;
      ok, infos := List(works);
      if !ok {
        return;
      }
      var native := Native(name, FolderDelimiter(infos));
      ok := accepted;
      if ok {
        server := Inserted(server, at, Info(native, delimiter, attributes));
        folders := None;
      }
    }
  }

  function Inserted(infos: seq<Info>, at: nat, m: Info): seq<Info>
    requires at <= |infos|
  {
    infos[..at] + [m] + infos[at..]
  }

  // ---------------------------------------------------------------- round trips

  predicate UniqueUpToCase(infos: seq<Info>) {
    forall i, j :: 0 <= i < j < |infos| ==> !EqualFold(infos[i].name, infos[j].name)
  }

  /** With another delimiter, no name of the server holds a slash. */
  predicate NativeNames(infos: seq<Info>) {
    FolderDelimiter(infos) != '/' ==> forall i :: 0 <= i < |infos| ==> '/' !in infos[i].name
  }

  /** If the entry at k is meant and no other, it is found. */
  lemma {:induction false} OnlyMeant(infos: seq<Info>, k: nat, name: string, delim: char, way: Way)
    requires k < |infos| && Meant(infos[k], name, delim, way)
    requires forall i :: 0 <= i < k ==> !Meant(infos[i], name, delim, way)
    ensures First(infos, name, delim, way) == Some(infos[k].name)
  {
    if k > 0 {
      OnlyMeant(infos[1..], k - 1, name, delim, way);
    }
  }

  lemma {:induction false} NoneMeant(infos: seq<Info>, name: string, delim: char, way: Way)
    requires forall i :: 0 <= i < |infos| ==> !Meant(infos[i], name, delim, way)
    ensures First(infos, name, delim, way).None?
  {
    if infos != [] {
      NoneMeant(infos[1..], name, delim, way);
    }
  }

  /** Every name the server lists leads back to the folder it came from. */
  lemma {:induction false} ListThenResolve(infos: seq<Info>, k: nat)
    requires k < |infos| && UniqueUpToCase(infos) && NativeNames(infos) && !IsToken(Listed(infos)[k])
    ensures Resolved(infos, Listed(infos)[k]) == Some(infos[k].name)
  {
    var d, m, name := FolderDelimiter(infos), infos[k], Listed(infos)[k];
    NoneMeant(infos, name, d, ByToken);
    OthersDiffer(infos, k);
    if m.name == name {
      OnlyMeant(infos, k, name, d, ByName);
    } else {
      ListedNameParts(m.name, d);
      NotByName(infos, k);
      if EqualFold(m.name, name) {
        NoneMeant(infos, name, d, ByNative);
        OnlyMeant(infos, k, name, d, ByFold);
      } else {
        OnlyMeant(infos, k, name, d, ByNative);
      }
    }
  }

  /** A name equal to that of entry k up to case belongs to no other entry. */
  lemma {:induction false} OthersDiffer(infos: seq<Info>, k: nat)
    requires k < |infos| && UniqueUpToCase(infos)
    ensures forall i :: 0 <= i < |infos| && i != k
              ==> infos[i].name != infos[k].name && !EqualFold(infos[i].name, infos[k].name)
  {
    forall i | 0 <= i < |infos| && i != k ensures !EqualFold(infos[i].name, infos[k].name) {
      assert i < k || k < i;
    }
  }

  /** A listed name is the native name, or INBOX for a spelling of it, or it holds a slash and
      translates back. */
  lemma {:induction false} ListedNameParts(native: string, d: char)
    requires d != '/' ==> '/' !in native
    ensures var name := ListedName(native, d);
            || name == native
            || (EqualFold(native, name) && name == "INBOX")
            || (d != '/' && '/' in name && Native(name, d) == native && !EqualFold(native, name))
  {
    if d != '/' {
      var name := ReplaceChar(native, d, '/');
      ReplacedBack(native, d, '/');
      if '/' in name {
        SlashNotFolded(native, name);
      } else {
        assert forall i :: 0 <= i < |name| ==> name[i] in name && name[i] == native[i];
        assert name == native;
      }
    }
  }

  /** Folding case keeps the slashes. */
  lemma {:induction false} SlashNotFolded(s: string, t: string)
    requires '/' !in s && '/' in t
    ensures !EqualFold(s, t) && !EqualFold(t, "INBOX")
  {
    var i :| 0 <= i < |t| && t[i] == '/';
    assert ToLower(t)[i] == '/';
    if i < |s| {
      assert s[i] in s && ToLower(s)[i] != '/';
    }
    if i < |"INBOX"| {
      assert ToLower("INBOX")[i] != '/';
    }
  }

  lemma {:induction false} NotByName(infos: seq<Info>, k: nat)
    requires k < |infos| && UniqueUpToCase(infos) && NativeNames(infos) && Listed(infos)[k] != infos[k].name
    ensures First(infos, Listed(infos)[k], FolderDelimiter(infos), ByName).None?
  {
    var d, name := FolderDelimiter(infos), Listed(infos)[k];
    OthersDiffer(infos, k);
    ListedNameParts(infos[k].name, d);
    NoneMeant(infos, name, d, ByName);
  }

  /** Create-then-list gives back the name exactly when it is free of the server's delimiter and,
      if it is a spelling of INBOX, in capitals. */
  lemma {:induction false} CreateListIff(name: string, d: char)
    ensures ListedName(Native(name, d), d) == name
            <==> (d == '/' || d !in name) && (EqualFold(name, "INBOX") ==> name == "INBOX")
  {
    if d != '/' {
      if d in name {
        var i :| 0 <= i < |name| && name[i] == d;
        var back := ReplaceChar(Native(name, d), d, '/');
        assert back[i] == '/' && '/' in back;
        SlashNotFolded("", back);
      } else {
        ReplacedBack(name, '/', d);
      }
    }
  }

  lemma {:induction false} SameDelimiter(infos: seq<Info>, at: nat, m: Info)
    requires at <= |infos| && (m.delimiter.None? || m.delimiter == Some(FolderDelimiter(infos)))
    ensures FolderDelimiter(Inserted(infos, at, m)) == FolderDelimiter(infos)
  {
    var r := Inserted(infos, at, m);
    if at == 0 {
      assert r[1..] == infos;
    } else {
      assert r[0] == infos[0] && r[1..] == Inserted(infos[1..], at - 1, m);
      if infos[0].delimiter.None? {
        SameDelimiter(infos[1..], at - 1, m);
      }
    }
  }

  /** A created folder is listed under the name it was created with, and that name leads to it. */
  lemma {:induction false} CreateThenResolve(infos: seq<Info>, at: nat, name: string, delimiter: Option<char>,
                                             attributes: seq<string>)
    requires at <= |infos| && UniqueUpToCase(infos) && NativeNames(infos)
    requires var d := FolderDelimiter(infos);
             && (delimiter.None? || delimiter == Some(d))
             && (d == '/' || d !in name) && !EqualFold(name, "INBOX") && !IsToken(name)
             && forall i :: 0 <= i < |infos| ==> !EqualFold(infos[i].name, Native(name, d))
    ensures var native := Native(name, FolderDelimiter(infos));
            var r := Inserted(infos, at, Info(native, delimiter, attributes));
            && name in Listed(r) && Resolved(r, name) == Some(native)
  {
    var d := FolderDelimiter(infos);
    var m := Info(Native(name, d), delimiter, attributes);
    var r := Inserted(infos, at, m);
    SameDelimiter(infos, at, m);
    CreateListIff(name, d);
    assert r[at] == m && Listed(r)[at] == name;
    InsertedNames(infos, at, m);
    ListThenResolve(r, at);
  }

  lemma {:induction false} InsertedNames(infos: seq<Info>, at: nat, m: Info)
    requires at <= |infos| && UniqueUpToCase(infos) && NativeNames(infos)
    requires FolderDelimiter(Inserted(infos, at, m)) == FolderDelimiter(infos)
    requires FolderDelimiter(infos) != '/' ==> '/' !in m.name
    requires forall i :: 0 <= i < |infos| ==> !EqualFold(infos[i].name, m.name)
    ensures UniqueUpToCase(Inserted(infos, at, m)) && NativeNames(Inserted(infos, at, m))
  {
    var r := Inserted(infos, at, m);
    forall i, j | 0 <= i < j < |r| ensures !EqualFold(r[i].name, r[j].name) {
      if i != at && j != at {
        var i', j' := if i < at then i else i - 1, if j < at then j else j - 1;
        assert r[i] == infos[i'] && r[j] == infos[j'];
      } else if i == at {
        assert r[j] == infos[j - 1];
      } else {
        assert r[i] == infos[i];
      }
    }
  }

  // ---------------------------------------------------------------- resolving, case by case

  predicate Carries(m: Info, name: string) {
    exists i :: 0 <= i < |m.attributes| && ToLower(m.attributes[i]) == ToLower(name)
  }

  /** The SPECIAL-USE attributes of section 2 of RFC 6154. */
  predicate SpecialUseName(name: string) {
    || name == "\\All" || name == "\\Archive" || name == "\\Drafts" || name == "\\Flagged"
    || name == "\\Junk" || name == "\\Sent" || name == "\\Trash"
  }

  /** The server has another delimiter than a slash, and this is the name in its terms, up to case. */
  predicate Translates(infos: seq<Info>, name: string, m: Info) {
    && FolderDelimiter(infos) != '/' && '/' in name
    && ToLower(m.name) == ToLower(ReplaceChar(name, '/', FolderDelimiter(infos)))
  }

  predicate TokenFound(infos: seq<Info>, name: string) {
    SpecialUseName(name) && exists i :: 0 <= i < |infos| && Carries(infos[i], name)
  }

  predicate NameFound(infos: seq<Info>, name: string) {
    exists i :: 0 <= i < |infos| && infos[i].name == name
  }

  predicate TranslationFound(infos: seq<Info>, name: string) {
    exists i :: 0 <= i < |infos| && Translates(infos, name, infos[i])
  }

  predicate FoldFound(infos: seq<Info>, name: string) {
    exists i :: 0 <= i < |infos| && ToLower(infos[i].name) == ToLower(name)
  }

  lemma {:induction false} MeantMeans(infos: seq<Info>, m: Info, name: string)
    ensures Meant(m, name, FolderDelimiter(infos), ByToken) <==> SpecialUseName(name) && Carries(m, name)
    ensures Meant(m, name, FolderDelimiter(infos), ByName) <==> m.name == name
    ensures Meant(m, name, FolderDelimiter(infos), ByNative) <==> Translates(infos, name, m)
    ensures Meant(m, name, FolderDelimiter(infos), ByFold) <==> ToLower(m.name) == ToLower(name)
  {
    assert HasAttribute(m, name) <==> Carries(m, name) by {
      assert forall i :: 0 <= i < |m.attributes| ==>
          (EqualFold(m.attributes[i], name) <==> ToLower(m.attributes[i]) == ToLower(name));
    }
  }

  lemma {:induction false} NotFoundSo(infos: seq<Info>, name: string)
    ensures var d := FolderDelimiter(infos);
            && (First(infos, name, d, ByToken).None? <==> !TokenFound(infos, name))
            && (First(infos, name, d, ByName).None? <==> !NameFound(infos, name))
            && (First(infos, name, d, ByNative).None? <==> !TranslationFound(infos, name))
            && (First(infos, name, d, ByFold).None? <==> !FoldFound(infos, name))
  {
    var d := FolderDelimiter(infos);
    FoundIff(infos, name, d, ByToken);
    FoundIff(infos, name, d, ByName);
    FoundIff(infos, name, d, ByNative);
    FoundIff(infos, name, d, ByFold);
    forall i | 0 <= i < |infos|
      ensures Meant(infos[i], name, d, ByToken) <==> SpecialUseName(name) && Carries(infos[i], name)
      ensures Meant(infos[i], name, d, ByName) <==> infos[i].name == name
      ensures Meant(infos[i], name, d, ByNative) <==> Translates(infos, name, infos[i])
      ensures Meant(infos[i], name, d, ByFold) <==> ToLower(infos[i].name) == ToLower(name)
    {
      MeantMeans(infos, infos[i], name);
    }
  }

  lemma {:induction false} FoundIff(infos: seq<Info>, name: string, d: char, way: Way)
    ensures First(infos, name, d, way).Some? <==> exists i :: 0 <= i < |infos| && Meant(infos[i], name, d, way)
  {
    if infos != [] {
      FoundIff(infos[1..], name, d, way);
      if i :| 0 <= i < |infos[1..]| && Meant(infos[1..][i], name, d, way) {
        assert infos[i + 1] == infos[1..][i];
      }
      if i :| 1 <= i < |infos| && Meant(infos[i], name, d, way) {
        assert infos[1..][i - 1] == infos[i];
      }
    }
  }

  /** Nothing is found exactly if no folder carries the token and none is named so: exactly, in the
      server's terms, or up to case. */
  lemma {:induction false} NotResolvedIff(infos: seq<Info>, name: string)
    ensures Resolved(infos, name).None? <==>
              && !TokenFound(infos, name) && !NameFound(infos, name)
              && !TranslationFound(infos, name) && !FoldFound(infos, name)
  {
    NotFoundSo(infos, name);
  }

  /** A token leads to the first folder that carries it, whatever the folders are called. */
  lemma {:induction false} TokenResolves(infos: seq<Info>, name: string, k: nat)
    requires SpecialUseName(name) && k < |infos| && Carries(infos[k], name)
    requires forall i :: 0 <= i < k ==> !Carries(infos[i], name)
    ensures Resolved(infos, name) == Some(infos[k].name)
  {
    forall i | 0 <= i <= k ensures Meant(infos[i], name, FolderDelimiter(infos), ByToken) <==> Carries(infos[i], name) {
      MeantMeans(infos, infos[i], name);
    }
    OnlyMeant(infos, k, name, FolderDelimiter(infos), ByToken);
  }

  /** Otherwise a folder of exactly that name is found. */
  lemma {:induction false} NameResolves(infos: seq<Info>, name: string)
    requires !TokenFound(infos, name) && NameFound(infos, name)
    ensures Resolved(infos, name) == Some(name)
  {
    NotFoundSo(infos, name);
    FoundByName(infos, name, FolderDelimiter(infos));
  }

  lemma {:induction false} FoundByName(infos: seq<Info>, name: string, d: char)
    requires First(infos, name, d, ByName).Some?
    ensures First(infos, name, d, ByName) == Some(name)
  {
    if infos[0].name != name {
      FoundByName(infos[1..], name, d);
    }
  }

  /** Otherwise the first folder of that name in the server's terms, up to case. */
  lemma {:induction false} TranslationResolves(infos: seq<Info>, name: string, k: nat)
    requires !TokenFound(infos, name) && !NameFound(infos, name)
    requires k < |infos| && Translates(infos, name, infos[k])
    requires forall i :: 0 <= i < k ==> !Translates(infos, name, infos[i])
    ensures Resolved(infos, name) == Some(infos[k].name)
  {
    NotFoundSo(infos, name);
    forall i | 0 <= i <= k
      ensures Meant(infos[i], name, FolderDelimiter(infos), ByNative) <==> Translates(infos, name, infos[i])
    {
      MeantMeans(infos, infos[i], name);
    }
    OnlyMeant(infos, k, name, FolderDelimiter(infos), ByNative);
  }

  /** And otherwise the first folder of that name up to case. */
  lemma {:induction false} FoldResolves(infos: seq<Info>, name: string, k: nat)
    requires !TokenFound(infos, name) && !NameFound(infos, name) && !TranslationFound(infos, name)
    requires k < |infos| && ToLower(infos[k].name) == ToLower(name)
    requires forall i :: 0 <= i < k ==> ToLower(infos[i].name) != ToLower(name)
    ensures Resolved(infos, name) == Some(infos[k].name)
  {
    NotFoundSo(infos, name);
    OnlyMeant(infos, k, name, FolderDelimiter(infos), ByFold);
  }

  // ---------------------------------------------------------------- what a listing says

  /** The delimiter is that of the first folder that has one, a slash if none has. */
  lemma {:induction false} DelimiterIs(infos: seq<Info>, k: nat)
    requires k <= |infos| && forall i :: 0 <= i < k ==> infos[i].delimiter.None?
    ensures k < |infos| && infos[k].delimiter.Some? ==> FolderDelimiter(infos) == infos[k].delimiter.value
    ensures k == |infos| ==> FolderDelimiter(infos) == '/'
  {
    if k > 0 {
      DelimiterIs(infos[1..], k - 1);
    }
  }

  /** The token of a folder is the last of its attributes that is one, spelled as it should be. */
  lemma {:induction false} SpecialUseIs(attributes: seq<string>, k: int)
    requires -1 <= k < |attributes| && (k >= 0 ==> SpecialUseName(attributes[k]))
    requires forall i :: k < i < |attributes| ==> !SpecialUseName(attributes[i])
    ensures SpecialUse(attributes) == if k >= 0 then attributes[k] else ""
  {
    if k < |attributes| - 1 {
      SpecialUseIs(attributes[..|attributes| - 1], k);
    }
  }

  /** A folder cannot be selected exactly if it has the attribute \Noselect, in any spelling. */
  lemma {:induction false} NoselectIff(attributes: seq<string>)
    ensures CanSelect(attributes) <==> forall i :: 0 <= i < |attributes| ==> ToLower(attributes[i]) != "\\noselect"
  {
    assert ToLower("\\Noselect") == "\\noselect";
    assert forall i :: 0 <= i < |attributes| ==>
        (EqualFold(attributes[i], "\\Noselect") <==> ToLower(attributes[i]) == "\\noselect");
  }
}
