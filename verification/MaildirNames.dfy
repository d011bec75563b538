/** The file names of a Maildir folder (internal/endpoint/maildir.go): a unique part, and an info
    suffix ":2," with one letter per flag. */
module MaildirNames {
  import opened Text
  import opened RunRows

  // ---------------------------------------------------------------- flags and letters

  function LetterOf(flag: string): Option<char> {
    if flag == "\\Seen" then Some('S')
    else if flag == "\\Answered" then Some('R')
    else if flag == "\\Flagged" then Some('F')
    else if flag == "\\Draft" then Some('D')
    else if flag == "\\Deleted" then Some('T')
    else None
  }

  function FlagOf(letter: char): Option<string> {
    match letter
    case 'S' => Some("\\Seen")
    case 'R' => Some("\\Answered")
    case 'F' => Some("\\Flagged")
    case 'D' => Some("\\Draft")
    case 'T' => Some("\\Deleted")
    case _ => None
  }

  function Letters(flags: seq<string>): seq<char> {
    if flags == [] then []
    else (match LetterOf(flags[0]) case Some(c) => [c] case None => []) + Letters(flags[1..])
  }

  function Decoded(letters: seq<char>): seq<string> {
    if letters == [] then []
    else (match FlagOf(letters[0]) case Some(f) => [f] case None => []) + Decoded(letters[1..])
  }

  function Recognized(flags: seq<string>): seq<string> {
    if flags == [] then []
    else (if LetterOf(flags[0]).Some? then [flags[0]] else []) + Recognized(flags[1..])
  }

  function Count<T(==)>(s: seq<T>, x: T): nat {
    if s == [] then 0 else (if s[0] == x then 1 else 0) + Count(s[1..], x)
  }

  predicate Ascending(s: seq<char>) {
    |s| > 1 ==> s[0] <= s[1] && Ascending(s[1..])
  }

  function Insert(c: char, s: seq<char>): seq<char> {
    if s == [] || c <= s[0] then [c] + s else [s[0]] + Insert(c, s[1..])
  }

  function Ordered(s: seq<char>): seq<char> {
    if s == [] then [] else Insert(s[0], Ordered(s[1..]))
  }

  lemma CountFirst<T>(x: T, s: seq<T>, y: T)
    ensures Count([x] + s, y) == (if x == y then 1 else 0) + Count(s, y)
  {
    assert ([x] + s)[1..] == s;
  }

  lemma {:induction false} InsertOrders(c: char, s: seq<char>)
    requires Ascending(s)
    ensures Ascending(Insert(c, s)) && Insert(c, s) != []
    ensures Insert(c, s)[0] == if s == [] || c <= s[0] then c else s[0]
    ensures forall d :: Count(Insert(c, s), d) == (if c == d then 1 else 0) + Count(s, d)
  {
    if s == [] || c <= s[0] {
      assert ([c] + s)[1..] == s;
    } else {
      InsertOrders(c, s[1..]);
      var t := Insert(c, s[1..]);
      assert ([s[0]] + t)[1..] == t;
    }
  }

  /** Ordered is ascending and has every letter as often as before. */
  lemma {:induction false} OrderedOrders(s: seq<char>)
    ensures Ascending(Ordered(s))
    ensures forall c :: Count(Ordered(s), c) == Count(s, c)
  {
    if s != [] {
      OrderedOrders(s[1..]);
      InsertOrders(s[0], Ordered(s[1..]));
    }
  }

  lemma {:induction false} FirstIsLeast(s: seq<char>, c: char)
    requires Ascending(s) && Count(s, c) > 0
    ensures s != [] && s[0] <= c
  {
    if s[0] != c {
      FirstIsLeast(s[1..], c);
    }
  }

  /** There is only one order, so any sort gives the same suffix. */
  lemma {:induction false} OneOrder(s: seq<char>, t: seq<char>)
    requires Ascending(s) && Ascending(t) && forall c :: Count(s, c) == Count(t, c)
    ensures s == t
  {
    assert s != [] ==> Count(t, s[0]) == Count(s, s[0]) > 0;
    assert t != [] ==> Count(s, t[0]) == Count(t, t[0]) > 0;
    if s != [] {
      FirstIsLeast(t, s[0]);
      FirstIsLeast(s, t[0]);
      forall c ensures Count(s[1..], c) == Count(t[1..], c) {
        assert Count(s, c) == Count(t, c);
      }
      OneOrder(s[1..], t[1..]);
      assert s == [s[0]] + s[1..] && t == [t[0]] + t[1..];
    }
  }

  function FlagSuffix(flags: seq<string>): string {
    var letters := Letters(flags);
    if letters == [] then "" else ":2," + Ordered(letters)
  }

  function UniqueID(name: string): string {
    name[..Colon(name)]
  }

  /** The position of the first ":2,", or the length. */
  function InfoAt(name: string): (i: nat)
    ensures i == |name| || i + 3 <= |name|
  {
    if name == [] || ":2," <= name then 0 else 1 + InfoAt(name[1..])
  }

  function FlagsFromName(name: string): seq<string> {
    var i := InfoAt(name);
    if i == |name| then [] else Decoded(name[i + 3..])
  }

  /** The name Append gives a message: without flags it goes to new/, otherwise to cur/. */
  function FileName(unique: string, flags: seq<string>): string {
    unique + FlagSuffix(flags)
  }

  // ---------------------------------------------------------------- loops

  method MakeFlagSuffix(flags: seq<string>) returns (suffix: string)
    ensures suffix == FlagSuffix(flags)
  {
    var letters: seq<char> := [];
    for i := 0 to |flags|
      invariant letters + Letters(flags[i..]) == Letters(flags)
    {
      NextFlag(flags, i);
      var l := LetterOf(flags[i]);
      if l.Some? {
        letters := letters + [l.value];
      }
    }
    assert letters + [] == letters;
    suffix := if |letters| == 0 then "" else ":2," + Ordered(letters);
  }

  lemma {:induction false} NextFlag(flags: seq<string>, i: nat)
    requires i < |flags|
    ensures Letters(flags[i..])
            == (match LetterOf(flags[i]) case Some(c) => [c] case None => []) + Letters(flags[i + 1..])
  {
    assert flags[i..][1..] == flags[i + 1..];
  }

  method ReadFlags(name: string) returns (out: seq<string>)
    ensures out == FlagsFromName(name)
  {
    var i := InfoAt(name);
    out := [];
    if i < |name| {
      out := ReadLetters(name[i + 3..]);
    }
  }

  method ReadLetters(info: seq<char>) returns (out: seq<string>)
    ensures out == Decoded(info)
  {
    out := [];
    for k := 0 to |info|
      invariant out + Decoded(info[k..]) == Decoded(info)
    {
      NextLetter(info, k);
      var f := FlagOf(info[k]);
      if f.Some? {
        out := out + [f.value];
      }
    }
  }

  lemma {:induction false} NextLetter(s: seq<char>, k: nat)
    requires k < |s|
    ensures Decoded(s[k..]) == (match FlagOf(s[k]) case Some(f) => [f] case None => []) + Decoded(s[k + 1..])
  {
    assert s[k..][1..] == s[k + 1..];
  }

  // ---------------------------------------------------------------- round trip

  lemma {:induction false} LetterRoundTrip(flag: string, letter: char)
    ensures LetterOf(flag).Some? ==> FlagOf(LetterOf(flag).value) == Some(flag)
    ensures FlagOf(letter).Some? ==> LetterOf(FlagOf(letter).value) == Some(letter)
  {
  }

  predicate AllLetters(s: seq<char>) {
    forall i :: 0 <= i < |s| ==> FlagOf(s[i]).Some?
  }

  lemma {:induction false} LettersAreLetters(flags: seq<string>)
    ensures AllLetters(Letters(flags))
    ensures Decoded(Letters(flags)) == Recognized(flags)
  {
    if flags != [] {
      LettersAreLetters(flags[1..]);
      LetterRoundTrip(flags[0], 'S');
      match LetterOf(flags[0])
      case Some(c) => assert ([c] + Letters(flags[1..]))[1..] == Letters(flags[1..]);
      case None => assert [] + Letters(flags[1..]) == Letters(flags[1..]);
    }
  }

  lemma {:induction false} DecodedEncodes(s: seq<char>)
    requires AllLetters(s)
    ensures Letters(Decoded(s)) == s && |Decoded(s)| == |s|
    ensures forall i :: 0 <= i < |s| ==> Decoded(s)[i] == FlagOf(s[i]).value
  {
    if s != [] {
      DecodedEncodes(s[1..]);
      var f := FlagOf(s[0]).value;
      LetterRoundTrip("", s[0]);
      assert ([f] + Decoded(s[1..]))[1..] == Decoded(s[1..]);
      assert s == [s[0]] + s[1..];
    }
  }

  /** A flag is decoded as often as its letter occurs. */
  lemma {:induction false} DecodedCount(s: seq<char>, f: string)
    ensures Count(Decoded(s), f) == match LetterOf(f) case Some(c) => Count(s, c) case None => 0
  {
    if s != [] {
      DecodedCount(s[1..], f);
      LetterRoundTrip(f, s[0]);
      match FlagOf(s[0])
      case Some(g) => CountFirst(g, Decoded(s[1..]), f);
      case None => assert [] + Decoded(s[1..]) == Decoded(s[1..]);
    }
  }

  lemma {:induction false} NameParts(unique: string, letters: string)
    requires ':' !in unique
    ensures Colon(unique + (":2," + letters)) == InfoAt(unique + (":2," + letters)) == |unique|
  {
    var name := unique + (":2," + letters);
    if unique == [] {
      assert name == ":2," + letters;
    } else {
      assert unique[0] in unique;
      NameParts(unique[1..], letters);
      assert name[1..] == unique[1..] + (":2," + letters);
    }
  }

  lemma {:induction false} PlainParts(unique: string)
    requires ':' !in unique
    ensures UniqueID(unique) == unique && InfoAt(unique) == |unique|
  {
    if unique != [] {
      assert unique[0] in unique;
      PlainParts(unique[1..]);
      assert unique == [unique[0]] + unique[1..];
    }
  }

  /** The name of a message gives back its unique ID and its flags: the same recognized flags,
      each as often as given, in the order of their letters; and writing the flags that were read
      gives the same name. */
  lemma {:induction false} NameRoundTrip(unique: string, flags: seq<string>)
    requires ':' !in unique
    ensures var name := FileName(unique, flags);
            var read := FlagsFromName(name);
            && UniqueID(name) == unique
            && (forall f :: Count(read, f) == Count(Recognized(flags), f))
            && Ascending(Letters(read)) && |Letters(read)| == |read|
            && FileName(unique, read) == name
  {
    LettersAreLetters(flags);
    if Letters(flags) == [] {
      PlainParts(unique);
      assert unique + "" == unique;
    } else {
      var o := Ordered(Letters(flags));
      NameParts(unique, o);
      assert FileName(unique, flags) == unique + (":2," + o);
      assert (unique + (":2," + o))[..|unique|] == unique && (unique + (":2," + o))[|unique| + 3..] == o;
      LettersRoundTrip(flags);
    }
  }

  lemma {:induction false} LettersRoundTrip(flags: seq<string>)
    ensures var o := Ordered(Letters(flags));
            && (o == [] <==> Letters(flags) == []) && Ordered(o) == o && Ascending(o)
            && Letters(Decoded(o)) == o && |Decoded(o)| == |o|
            && forall f :: Count(Decoded(o), f) == Count(Recognized(flags), f)
  {
    var letters := Letters(flags);
    var o := Ordered(letters);
    LettersAreLetters(flags);
    OrderedLetters(letters);
    OrderedOrders(letters);
    OrderedOrders(o);
    OneOrder(Ordered(o), o);
    DecodedEncodes(o);
    forall f ensures Count(Decoded(o), f) == Count(Recognized(flags), f) {
      DecodedCount(o, f);
      DecodedCount(letters, f);
    }
    assert letters != [] ==> Count(o, letters[0]) == Count(letters, letters[0]) > 0;
  }

  lemma {:induction false} InsertLetters(c: char, s: seq<char>)
    requires AllLetters(s) && FlagOf(c).Some?
    ensures AllLetters(Insert(c, s))
  {
    if s != [] && c > s[0] {
      InsertLetters(c, s[1..]);
    }
  }

  lemma {:induction false} OrderedLetters(s: seq<char>)
    requires AllLetters(s)
    ensures AllLetters(Ordered(s))
  {
    if s != [] {
      OrderedLetters(s[1..]);
      InsertLetters(s[0], Ordered(s[1..]));
    }
  }

  // ---------------------------------------------------------------- unique names

  function Digits(n: nat): (s: string)
    ensures s != [] && forall i :: 0 <= i < |s| ==> '0' <= s[i] <= '9'
  {
    if n < 10 then [('0' as int + n) as char] else Digits(n / 10) + Digits(n % 10)
  }

  lemma {:induction false} DigitsInjective(m: nat, n: nat)
    requires Digits(m) == Digits(n)
    ensures m == n
    decreases m
  {
    if m >= 10 && n >= 10 {
      var a, b := Digits(m), Digits(n);
      assert a[..|a| - 1] == Digits(m / 10) && b[..|b| - 1] == Digits(n / 10);
      assert a[|a| - 1] == Digits(m % 10)[0] && b[|b| - 1] == Digits(n % 10)[0];
      DigitsInjective(m / 10, n / 10);
    }
  }

  /** Seconds, process, counter and host; the host loses its slashes and colons. */
  function UniqueName(now: nat, pid: nat, counter: nat, host: string): string {
    Digits(now) + ("." + (Digits(pid) + ("_" + (Digits(counter) + ("." +
      ReplaceChar(ReplaceChar(host, '/', '_'), ':', '_'))))))
  }

  /** Digits up to a mark are determined by the whole. */
  lemma {:induction false} CutDigits(m: nat, n: nat, mark: char, s: string, t: string)
    requires !('0' <= mark <= '9') && Digits(m) + ([mark] + s) == Digits(n) + ([mark] + t)
    ensures m == n && s == t
  {
    var a, b := Digits(m), Digits(n);
    var whole := a + ([mark] + s);
    assert whole[|a|] == mark && whole[|b|] == mark by { assert whole == b + ([mark] + t); }
    assert forall i :: 0 <= i < |a| ==> whole[i] == a[i];
    assert forall i :: 0 <= i < |b| ==> whole[i] == b[i];
    assert |a| == |b|;
    assert a == whole[..|a|] && b == whole[..|b|];
    DigitsInjective(m, n);
    assert s == whole[|a| + 1..] && t == whole[|b| + 1..];
  }

  /** Two names of one host are equal only for the same second, process and counter, so no two
      appends of a process share a name; and no name holds a colon or begins with a dot. */
  lemma {:induction false} UniqueNames(now: nat, pid: nat, counter: nat, now': nat, pid': nat, counter': nat,
                                       host: string, host': string)
    ensures UniqueName(now, pid, counter, host) == UniqueName(now', pid', counter', host')
            ==> now == now' && pid == pid' && counter == counter'
    ensures var u := UniqueName(now, pid, counter, host); ':' !in u && '/' !in u && u[0] != '.'
  {
    var h := ReplaceChar(ReplaceChar(host, '/', '_'), ':', '_');
    var h' := ReplaceChar(ReplaceChar(host', '/', '_'), ':', '_');
    var s := Digits(counter) + ("." + h);
    var s' := Digits(counter') + ("." + h');
    if UniqueName(now, pid, counter, host) == UniqueName(now', pid', counter', host') {
      CutDigits(now, now', '.', Digits(pid) + ("_" + s), Digits(pid') + ("_" + s'));
      CutDigits(pid, pid', '_', s, s');
      CutDigits(counter, counter', '.', h, h');
    }
  }

  // ---------------------------------------------------------------- the folder

  datatype Sub = New | Cur
  datatype Path = Path(sub: Sub, name: string)

  /** A message file: its bytes, and its modification time, which keeps the date of the message. */
  datatype File = File(bytes: string, modified: int)

  function Indexed(sub: Sub, names: seq<string>, files: map<string, Path>): map<string, Path> {
    if names == [] then files
    else if "." <= names[0] then Indexed(sub, names[1..], files)
    else Indexed(sub, names[1..], files[UniqueID(names[0]) := Path(sub, names[0])])
  }

  /** The index a scan of new/ and then cur/ builds. */
  function Scanned(unseen: seq<string>, seen: seq<string>): map<string, Path> {
    Indexed(Cur, seen, Indexed(New, unseen, map[]))
  }

  predicate Absent(id: string, names: seq<string>) {
    forall i :: 0 <= i < |names| ==> UniqueID(names[i]) != id
  }

  lemma {:induction false} IndexedCommutes(sub: Sub, names: seq<string>, files: map<string, Path>, id: string, p: Path)
    requires Absent(id, names)
    ensures Indexed(sub, names, files[id := p]) == Indexed(sub, names, files)[id := p]
  {
    if names != [] {
      if "." <= names[0] {
        IndexedCommutes(sub, names[1..], files, id, p);
      } else {
        var d, q := UniqueID(names[0]), Path(sub, names[0]);
        IndexedCommutes(sub, names[1..], files[d := q], id, p);
        assert files[id := p][d := q] == files[d := q][id := p];
      }
    }
  }

  lemma {:induction false} IndexedInside(sub: Sub, s: seq<string>, name: string, t: seq<string>,
                                         files: map<string, Path>)
    requires !("." <= name) && Absent(UniqueID(name), t)
    ensures Indexed(sub, s + [name] + t, files) == Indexed(sub, s + t, files)[UniqueID(name) := Path(sub, name)]
  {
    if s == [] {
      assert s + [name] + t == [name] + t && s + t == t && ([name] + t)[1..] == t;
      IndexedCommutes(sub, t, files, UniqueID(name), Path(sub, name));
    } else {
      assert (s + [name] + t)[1..] == s[1..] + [name] + t && (s + t)[1..] == s[1..] + t;
      IndexedInside(sub, s[1..], name, t,
                    if "." <= s[0] then files else files[UniqueID(s[0]) := Path(sub, s[0])]);
    }
  }

  /** A selected folder: the names in its two directories, in the order they are read, and the
      index of the scan. */
  class Folder {
    var unseen: seq<string>
    var seen: seq<string>
    var files: map<string, Path>
    var contents: map<Path, File>

    ghost predicate InStep()
      reads this
    {
      files == Scanned(unseen, seen)
    }

    constructor (unseen: seq<string>, seen: seq<string>, contents: map<Path, File>)
      ensures this.unseen == unseen && this.seen == seen && this.contents == contents && InStep()
    {
      this.unseen, this.seen, this.contents := unseen, seen, contents;
      new;
      Scan();
    }

    method Scan()
      modifies this`files
      ensures InStep()
    {
      files := map[];
      for i := 0 to |unseen|
        invariant Indexed(New, unseen[i..], files) == Indexed(New, unseen, map[])
      {
        assert unseen[i..][1..] == unseen[i + 1..];
        if !("." <= unseen[i]) {
          files := files[UniqueID(unseen[i]) := Path(New, unseen[i])];
        }
      }
      ghost var start := files;
      for i := 0 to |seen|
        invariant Indexed(Cur, seen[i..], files) == Indexed(Cur, seen, start)
      {
        assert seen[i..][1..] == seen[i + 1..];
        if !("." <= seen[i]) {
          files := files[UniqueID(seen[i]) := Path(Cur, seen[i])];
        }
      }
    }

    /** Appending: the message is found under the returned ID with its flags, its bytes and its
        date, if it has one, and every other one as before. If no file had that ID the index also stays in step with the
        directories, wherever the new name sorts. If the file cannot be written or moved into
        place, nothing changes. */
    method Append(now: nat, pid: nat, counter: nat, host: string, flags: seq<string>, date: Option<int>,
                  body: string, at: nat, works: bool)
      returns (ok: bool, id: string)
      requires at <= |if Recognized(flags) == [] then unseen else seen|
      modifies this
      ensures ok == works && id == if ok then UniqueName(now, pid, counter, host) else ""
      ensures !ok ==> files == old(files) && contents == old(contents) && unseen == old(unseen) && seen == old(seen)
      ensures ok && old(InStep()) && old(Absent(id, unseen) && Absent(id, seen)) ==> InStep()
      ensures ok ==> && files.Keys == old(files).Keys + {id}
                     && (forall other :: other in old(files) && other != id ==> files[other] == old(files)[other])
                     && UniqueID(files[id].name) == id
                     && contents == old(contents)[files[id] := File(body, if date.Some? then date.value else now)]
                     && (forall f :: Count(FlagsFromName(files[id].name), f) == Count(Recognized(flags), f))
                     && files[id].sub == (if Recognized(flags) == [] then New else Cur)
      // new/ holds what has no flag that a letter stands for
      ensures ok ==> (files[id].sub.New? <==> Count(flags, "\\Seen") + Count(flags, "\\Answered")
                                              + Count(flags, "\\Flagged") + Count(flags, "\\Draft")
                                              + Count(flags, "\\Deleted") == 0)
    {
      ok := works;
      if !works {
        return ok, "";
      }
      id := UniqueName(now, pid, counter, host);
      UniqueNames(now, pid, counter, now, pid, counter, host, host);
      var suffix := MakeFlagSuffix(flags);
      var name := id + suffix;
      NameRoundTrip(id, flags);
      PlacedBy(flags);
      SuffixLetters(flags);
      Place(id, name, if suffix != "" then Cur else New, at, File(body, if date.Some? then date.value else now));
    }

    /** Moves a written file into place and indexes it. */
    method Place(id: string, name: string, sub: Sub, at: nat, file: File)
      requires UniqueID(name) == id && !("." <= name) && at <= |if sub == New then unseen else seen|
      modifies this
      ensures files == old(files)[id := Path(sub, name)] && contents == old(contents)[Path(sub, name) := file]
      ensures old(InStep()) && old(Absent(id, unseen) && Absent(id, seen)) ==> InStep()
    {
      if Absent(id, unseen) && Absent(id, seen) {
        AppendKeepsStep(unseen, seen, name, at, sub);
      }
      if sub == Cur {
        seen := if name in seen then seen else seen[..at] + [name] + seen[at..];
      } else {
        unseen := if name in unseen then unseen else unseen[..at] + [name] + unseen[at..];
      }
      files := files[id := Path(sub, name)];
      contents := contents[Path(sub, name) := file];
    }
  }

  lemma {:induction false} PlacedBy(flags: seq<string>)
    ensures FlagSuffix(flags) == "" <==> Recognized(flags) == []
  {
    LettersAreLetters(flags);
    DecodedEncodes(Letters(flags));
  }

  /** One more file with a new unique ID adds exactly its entry to the scan. */
  lemma {:induction false} AppendKeepsStep(unseen: seq<string>, seen: seq<string>, name: string, at: nat, sub: Sub)
    requires !("." <= name) && at <= |if sub == New then unseen else seen|
    requires Absent(UniqueID(name), unseen) && Absent(UniqueID(name), seen)
    ensures Scanned(if sub == New then unseen[..at] + [name] + unseen[at..] else unseen,
                    if sub == Cur then seen[..at] + [name] + seen[at..] else seen)
            == Scanned(unseen, seen)[UniqueID(name) := Path(sub, name)]
  {
    if sub == Cur {
      IndexedInside(Cur, seen[..at], name, seen[at..], Indexed(New, unseen, map[]));
      assert seen[..at] + seen[at..] == seen;
    } else {
      IndexedInside(New, unseen[..at], name, unseen[at..], map[]);
      assert unseen[..at] + unseen[at..] == unseen;
      IndexedCommutes(Cur, seen, Indexed(New, unseen, map[]), UniqueID(name), Path(New, name));
    }
  }

  // ---------------------------------------------------------------- letter by letter

  lemma {:induction false} LettersCount(flags: seq<string>, c: char)
    ensures Count(Letters(flags), c) == match FlagOf(c) case Some(f) => Count(flags, f) case None => 0
  {
    if flags != [] {
      LettersCount(flags[1..], c);
      LetterRoundTrip(flags[0], c);
      match LetterOf(flags[0])
      case Some(d) => CountFirst(d, Letters(flags[1..]), c);
      case None => assert [] + Letters(flags[1..]) == Letters(flags[1..]);
    }
  }

  /** The info suffix has S, R, F, D and T as often as the flags \Seen, \Answered, \Flagged, \Draft
      and \Deleted are set, in ascending order, and no other letter; without any it is empty. */
  lemma {:induction false} SuffixLetters(flags: seq<string>)
    ensures var s := FlagSuffix(flags);
            var n := Count(flags, "\\Seen") + Count(flags, "\\Answered") + Count(flags, "\\Flagged")
                     + Count(flags, "\\Draft") + Count(flags, "\\Deleted");
            if n == 0 then s == ""
            else && ":2," <= s && |s| == 3 + n && Ascending(s[3..])
                 && Count(s[3..], 'S') == Count(flags, "\\Seen") && Count(s[3..], 'R') == Count(flags, "\\Answered")
                 && Count(s[3..], 'F') == Count(flags, "\\Flagged") && Count(s[3..], 'D') == Count(flags, "\\Draft")
                 && Count(s[3..], 'T') == Count(flags, "\\Deleted")
  {
    var letters := Letters(flags);
    var o := Ordered(letters);
    LettersAreLetters(flags);
    OrderedLetters(letters);
    OrderedOrders(letters);
    FiveLetters(letters);
    FiveLetters(o);
    FiveCounts(flags, letters);
    assert (":2," + o)[3..] == o;
  }

  lemma {:induction false} FiveCounts(flags: seq<string>, letters: seq<char>)
    requires letters == Letters(flags)
    ensures Count(letters, 'S') == Count(flags, "\\Seen") && Count(letters, 'R') == Count(flags, "\\Answered")
    ensures Count(letters, 'F') == Count(flags, "\\Flagged") && Count(letters, 'D') == Count(flags, "\\Draft")
    ensures Count(letters, 'T') == Count(flags, "\\Deleted")
  {
    LettersCount(flags, 'S');
    LettersCount(flags, 'R');
    LettersCount(flags, 'F');
    LettersCount(flags, 'D');
    LettersCount(flags, 'T');
  }

  lemma {:induction false} FiveLetters(s: seq<char>)
    requires AllLetters(s)
    ensures |s| == Count(s, 'S') + Count(s, 'R') + Count(s, 'F') + Count(s, 'D') + Count(s, 'T')
  {
    if s != [] {
      FiveLetters(s[1..]);
      assert FlagOf(s[0]).Some?;
    }
  }

  lemma {:induction false} DecodedConcat(s: seq<char>, t: seq<char>)
    ensures Decoded(s + t) == Decoded(s) + Decoded(t)
  {
    if s == [] {
      assert s + t == t;
    } else {
      DecodedConcat(s[1..], t);
      assert (s + t)[1..] == s[1..] + t;
    }
  }

  /** Reading a name letter by letter: each known letter behind the mark gives its flag, in order, and
      any other letter none; without the mark there are no flags. */
  lemma {:induction false} NameFlags(unique: string, info: string, c: char)
    requires ':' !in unique
    ensures FlagsFromName(unique) == [] && FlagsFromName(unique + ":2,") == []
    ensures FlagsFromName(unique + (":2," + (info + [c])))
            == FlagsFromName(unique + (":2," + info))
               + (if c == 'S' then ["\\Seen"] else if c == 'R' then ["\\Answered"] else if c == 'F' then ["\\Flagged"]
                  else if c == 'D' then ["\\Draft"] else if c == 'T' then ["\\Deleted"] else [])
  {
    PlainParts(unique);
    NamedInfo(unique, []);
    assert ":2," + [] == ":2,";
    NamedInfo(unique, info);
    NamedInfo(unique, info + [c]);
    DecodedConcat(info, [c]);
    OneLetter(c);
  }

  lemma {:induction false} OneLetter(c: char)
    ensures Decoded([c])
            == if c == 'S' then ["\\Seen"] else if c == 'R' then ["\\Answered"] else if c == 'F' then ["\\Flagged"]
               else if c == 'D' then ["\\Draft"] else if c == 'T' then ["\\Deleted"] else []
  {
    assert [c][1..] == [];
  }

  lemma {:induction false} NamedInfo(unique: string, info: string)
    requires ':' !in unique
    ensures FlagsFromName(unique + (":2," + info)) == Decoded(info)
  {
    NameParts(unique, info);
    assert (unique + (":2," + info))[|unique| + 3..] == info;
  }

  // ---------------------------------------------------------------- what a scan finds

  /** A file of that ID: not hidden, and the ID is its name up to the first colon. */
  predicate Shows(name: string, id: string) {
    && (name == [] || name[0] != '.')
    && id <= name && ':' !in id && (|id| < |name| ==> name[|id|] == ':')
  }

  lemma {:induction false} ShowsIff(name: string, id: string)
    ensures Shows(name, id) <==> !("." <= name) && UniqueID(name) == id
  {
    var k := Colon(name);
    if Shows(name, id) {
      assert name[..|id|] == id;
      forall i | 0 <= i < |id| ensures name[i] != ':' {
        assert id[i] in id && id[i] == name[i];
      }
      assert k == |id|;
    }
  }

  lemma {:induction false} IndexedIs(sub: Sub, names: seq<string>, files: map<string, Path>, id: string, last: int)
    requires -1 <= last < |names| && (last >= 0 ==> Shows(names[last], id))
    requires forall i :: last < i < |names| ==> !Shows(names[i], id)
    ensures last >= 0 ==> id in Indexed(sub, names, files) && Indexed(sub, names, files)[id] == Path(sub, names[last])
    ensures last < 0 ==> (id in Indexed(sub, names, files) <==> id in files)
    ensures last < 0 && id in files ==> Indexed(sub, names, files)[id] == files[id]
  {
    if names != [] {
      var name := names[0];
      ShowsIff(name, id);
      var next := if "." <= name then files else files[UniqueID(name) := Path(sub, name)];
      IndexedIs(sub, names[1..], next, id, if last < 0 then -1 else last - 1);
    }
  }

  /** A scan finds an ID exactly if a file in either directory shows it: the last such file in cur/,
      or else the last in new/. */
  lemma {:induction false} ScannedIs(unseen: seq<string>, seen: seq<string>, id: string, n: int, c: int)
    requires -1 <= n < |unseen| && (n >= 0 ==> Shows(unseen[n], id))
    requires -1 <= c < |seen| && (c >= 0 ==> Shows(seen[c], id))
    requires forall i :: n < i < |unseen| ==> !Shows(unseen[i], id)
    requires forall i :: c < i < |seen| ==> !Shows(seen[i], id)
    ensures id in Scanned(unseen, seen) <==> n >= 0 || c >= 0
    ensures c >= 0 ==> Scanned(unseen, seen)[id] == Path(Cur, seen[c])
    ensures c < 0 && n >= 0 ==> Scanned(unseen, seen)[id] == Path(New, unseen[n])
  {
    IndexedIs(New, unseen, map[], id, n);
    IndexedIs(Cur, seen, Indexed(New, unseen, map[]), id, c);
  }
}
