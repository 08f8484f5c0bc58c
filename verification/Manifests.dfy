/** read_manifest: fingerprinting the workspace from inside the sandbox, either through `find | sha256sum` or, when the image
    has no sha256sum, through a tar stream. Both must report the same digests as a plain filter over the files. */
module Manifests {
  import opened Options
  import opened Paths
  import opened Patterns
  import opened SandboxPath
  import opened Texts

  type Path = seq<string>

  datatype Fingerprint = Fingerprint(size: int, digest: string)

  // --- Text -----------------------------------------------------------------------------------------------------

  /** The characters str.splitlines breaks at. */
  predicate IsBreak(c: char) {
    '\n' <= c <= '\r' || '\U{1c}' <= c <= '\U{1e}' || c == '\U{85}' || c == '\U{2028}' || c == '\U{2029}'
  }

  lemma BreaksAre(c: char)
    ensures IsBreak(c) <==> c as int in {10, 11, 12, 13, 28, 29, 30, 133, 8232, 8233}
  {
  }

  predicate NoBreaks(s: string) {
    forall i :: 0 <= i < |s| ==> !IsBreak(s[i])
  }

  function LineLength(s: string): (n: nat)
    ensures n <= |s| && NoBreaks(s[..n]) && (n < |s| ==> IsBreak(s[n]))
  {
    if s == "" || IsBreak(s[0]) then 0
    else
      var n := 1 + LineLength(s[1..]);
      assert s[..n] == [s[0]] + s[1..][..n - 1];
      n
  }

  /** str.splitlines. */
  function Lines(s: string): seq<string>
    decreases |s|
  {
    if s == "" then []
    else
      var n := LineLength(s);
      if n == |s| then [s]
      else if s[n] == '\r' && n + 1 < |s| && s[n + 1] == '\n' then [s[..n]] + Lines(s[n + 2..])
      else [s[..n]] + Lines(s[n + 1..])
  }

  /** The index str.partition("  ") splits at. */
  function DoubleSpace(s: string): (at: Option<nat>)
    ensures at.Some? ==> at.value + 2 <= |s|
  {
    if |s| < 2 then None
    else if s[0] == ' ' && s[1] == ' ' then Some(0)
    else match DoubleSpace(s[1..]) case None => None case Some(n) => Some(n + 1)
  }

  // --- The sha256sum route --------------------------------------------------------------------------------------

  type Entry = (string, Fingerprint)

  /** Assigning the entries to a dictionary one after the other. */
  function Collect(entries: seq<Entry>): map<string, Fingerprint> {
    if entries == [] then map[] else Collect(entries[..|entries| - 1])[entries[|entries| - 1].0 := entries[|entries| - 1].1]
  }

  /** What one line of output says, if anything. */
  function LineEntry(line: string): Option<Entry> {
    var stripped := Strip(line);
    match DoubleSpace(stripped)
    case None => None
    case Some(n) =>
      var path := stripped[n + 2..];
      if path == "" then None
      else Some((if "./" <= path then path[2..] else path, Fingerprint(-1, stripped[..n])))
  }

  /** The entries that some of the items stand for, in order. */
  function Entries<T>(items: seq<T>, read: T -> Option<Entry>): seq<Entry> {
    if items == [] then []
    else
      var before := Entries(items[..|items| - 1], read);
      match read(items[|items| - 1]) case None => before case Some(entry) => before + [entry]
  }

  function LineEntries(lines: seq<string>): seq<Entry> { Entries(lines, LineEntry) }

  lemma CollectPush(entries: seq<Entry>, entry: Entry)
    ensures Collect(entries + [entry]) == Collect(entries)[entry.0 := entry.1]
  {
    assert (entries + [entry])[..|entries|] == entries;
  }

  lemma OneMoreEntry<T>(items: seq<T>, i: nat, read: T -> Option<Entry>)
    requires i < |items|
    ensures Collect(Entries(items[..i + 1], read)) ==
            match read(items[i])
            case None => Collect(Entries(items[..i], read))
            case Some(entry) => Collect(Entries(items[..i], read))[entry.0 := entry.1]
  {
    assert items[..i + 1][..i] == items[..i];
    if read(items[i]).Some? { CollectPush(Entries(items[..i], read), read(items[i]).value); }
  }

  method ParseSha256sumOutput(output: string) returns (manifest: map<string, Fingerprint>)
    ensures manifest == Collect(LineEntries(Lines(output)))
  {
    manifest := map[];
    var lines := Lines(output);
    for i := 0 to |lines|
      invariant manifest == Collect(LineEntries(lines[..i]))
    {
      OneMoreEntry(lines, i, LineEntry);
      var stripped := Strip(lines[i]);
      if stripped == "" { continue; }
      var space := DoubleSpace(stripped);
      if space.None? { continue; }
      var digest, path := stripped[..space.value], stripped[space.value + 2..];
      if path == "" { continue; }
      var relative := if "./" <= path then path[2..] else path;
      manifest := manifest[relative := Fingerprint(-1, digest)];
    }
    assert lines[..|lines|] == lines;
  }

  /** Path(path).name. */
  function NameOf(path: string): string {
    var parts := Parse(path).parts;
    if parts == [] then "" else parts[|parts| - 1]
  }

  function FilterManifest(manifest: map<string, Fingerprint>, excludes: seq<Pattern>): map<string, Fingerprint> {
    map path | path in manifest && !MatchesAny(NameOf(path), path, excludes) :: manifest[path]
  }

  // --- What find and sha256sum print ----------------------------------------------------------------------------

  /** `"/" not in e and "*" not in e`. */
  predicate PruneShaped(p: Pattern) {
    !HasSlash(p) && AnyRun !in p
  }

  /** `-name` prunes whatever bears such a name, starting with the `.` the search begins at. */
  predicate Found(path: Path, excludes: seq<Pattern>) {
    forall p :: p in excludes && PruneShaped(p) ==> !Matches(p, ".") && forall c :: c in path ==> !Matches(p, c)
  }

  /** sha256sum marks a line whose name holds a backslash or a newline and escapes both. */
  function Escape(name: string): string {
    if name == "" then ""
    else (if name[0] == '\\' then "\\\\" else if name[0] == '\n' then "\\n" else [name[0]]) + Escape(name[1..])
  }

  function Sha256sumLine(digest: string, name: string): string {
    if '\\' in name || '\n' in name then "\\" + digest + "  " + Escape(name) else digest + "  " + name
  }

  function Sha256sumText(listing: seq<Path>, files: map<Path, string>, hash: string -> string): string
    requires forall p :: p in listing ==> p in files
  {
    if listing == [] then ""
    else Sha256sumLine(hash(files[listing[0]]), "./" + Join(listing[0])) + "\n" + Sha256sumText(listing[1..], files, hash)
  }

  predicate IsDigest(d: string) {
    |d| == 64 && forall i :: 0 <= i < |d| ==> '0' <= d[i] <= '9' || 'a' <= d[i] <= 'f'
  }

  ghost predicate HexDigests(hash: string -> string) {
    forall s :: IsDigest(hash(s))
  }

  /** Names that survive the trip through lines of text. */
  predicate Printable(name: string) {
    name != "" && NoBreaks(name) && '\\' !in name && !IsSpace(name[|name| - 1])
  }

  lemma {:induction false} FirstDoubleSpace(digest: string, rest: string)
    requires forall i :: 0 <= i < |digest| ==> digest[i] != ' '
    ensures DoubleSpace(digest + "  " + rest) == Some(|digest|)
  {
    var s := digest + "  " + rest;
    if digest != "" {
      assert s[1..] == digest[1..] + "  " + rest;
      FirstDoubleSpace(digest[1..], rest);
      assert s[0] == digest[0];
    }
  }

  lemma PlainName(name: string)
    requires Printable(name)
    ensures '\\' !in "./" + name && '\n' !in "./" + name
  {
    assert forall c :: c in "./" + name ==> c in "./" || c in name;
    assert forall i :: 0 <= i < |name| ==> name[i] != '\n';
  }

  lemma PrintableLine(digest: string, name: string)
    requires IsDigest(digest) && Printable(name)
    ensures LineEntry(Sha256sumLine(digest, "./" + name)) == Some((name, Fingerprint(-1, digest)))
    ensures NoBreaks(Sha256sumLine(digest, "./" + name))
  {
    var path := "./" + name;
    PlainName(name);
    assert path[2..] == name && path[..2] == "./";
    assert NoBreaks(path) && !IsSpace(path[|path| - 1]);
    LineSays(digest, path);
    PlainLine(digest, path);
  }

  lemma LineSays(digest: string, path: string)
    requires digest != "" && (forall i :: 0 <= i < |digest| ==> !IsSpace(digest[i])) && path != "" && !IsSpace(path[|path| - 1])
    ensures LineEntry(digest + "  " + path) == Some((if "./" <= path then path[2..] else path, Fingerprint(-1, digest)))
  {
    var line := digest + "  " + path;
    assert line[|line| - 1] == path[|path| - 1] && line[0] == digest[0];
    StripNothing(line);
    FirstDoubleSpace(digest, path);
    assert line[|digest| + 2..] == path && line[..|digest|] == digest;
  }

  lemma PlainLine(digest: string, path: string)
    requires NoBreaks(digest) && NoBreaks(path)
    ensures NoBreaks(digest + "  " + path)
  {
    var line := digest + "  " + path;
    forall i | 0 <= i < |line| ensures !IsBreak(line[i]) {
      if i >= |digest| + 2 { assert line[i] == path[i - |digest| - 2]; }
      else if i < |digest| { assert line[i] == digest[i]; }
    }
  }

  lemma {:induction false} LineLengthOf(line: string, brk: char, rest: string)
    requires NoBreaks(line) && IsBreak(brk)
    ensures LineLength(line + [brk] + rest) == |line|
  {
    var s := line + [brk] + rest;
    if line != "" {
      assert s[1..] == line[1..] + [brk] + rest && s[0] == line[0];
      LineLengthOf(line[1..], brk, rest);
    }
  }

  lemma BrokenLine(line: string, brk: char, rest: string)
    requires NoBreaks(line) && IsBreak(brk) && brk != '\r'
    ensures Lines(line + [brk] + rest) == [line] + Lines(rest)
  {
    var s := line + [brk] + rest;
    LineLengthOf(line, brk, rest);
    assert s[..|line|] == line && s[|line| + 1..] == rest && s[|line|] == brk;
  }

  lemma FirstLine(line: string, rest: string)
    requires NoBreaks(line)
    ensures Lines(line + "\n" + rest) == [line] + Lines(rest)
  {
    BrokenLine(line, '\n', rest);
  }

  lemma LineEntriesCons(line: string, lines: seq<string>)
    ensures LineEntries([line] + lines) ==
            (match LineEntry(line) case None => [] case Some(entry) => [entry]) + LineEntries(lines)
  {
    EntriesCons(line, lines, LineEntry);
  }

  lemma {:induction false} EntriesCons<T>(first: T, rest: seq<T>, read: T -> Option<Entry>)
    ensures Entries([first] + rest, read) ==
            (match read(first) case None => [] case Some(entry) => [entry]) + Entries(rest, read)
  {
    var all := [first] + rest;
    if rest == [] {
      assert all[..0] == [];
    } else {
      EntriesCons(first, rest[..|rest| - 1], read);
      assert all[..|all| - 1] == [first] + rest[..|rest| - 1];
      assert all[|all| - 1] == rest[|rest| - 1];
    }
  }

  function ListingEntries(listing: seq<Path>, files: map<Path, string>, hash: string -> string): seq<Entry>
    requires forall p :: p in listing ==> p in files
  {
    if listing == [] then []
    else [(Join(listing[0]), Fingerprint(-1, hash(files[listing[0]])))] + ListingEntries(listing[1..], files, hash)
  }

  /** Printing a listing and reading it back gives the listing's own digests. */
  lemma {:induction false} OutputReadsBack(listing: seq<Path>, files: map<Path, string>, hash: string -> string)
    requires HexDigests(hash)
    requires forall p :: p in listing ==> p in files && Printable(Join(p))
    ensures LineEntries(Lines(Sha256sumText(listing, files, hash))) == ListingEntries(listing, files, hash)
  {
    if listing != [] {
      var name, digest := Join(listing[0]), hash(files[listing[0]]);
      var line := Sha256sumLine(digest, "./" + name);
      var rest := Sha256sumText(listing[1..], files, hash);
      PrintableLine(digest, name);
      FirstLine(line, rest);
      LineEntriesCons(line, Lines(rest));
      OutputReadsBack(listing[1..], files, hash);
    }
  }

  // --- Exactly which names survive ------------------------------------------------------------------------------

  lemma {:induction false} NoBreakInLines(s: string)
    ensures forall line :: line in Lines(s) ==> NoBreaks(line)
    decreases |s|
  {
    if s != "" {
      var n := LineLength(s);
      if n < |s| {
        if s[n] == '\r' && n + 1 < |s| && s[n + 1] == '\n' { NoBreakInLines(s[n + 2..]); } else { NoBreakInLines(s[n + 1..]); }
      } else {
        assert s[..n] == s;
      }
    }
  }

  lemma {:induction false} StripLeftKeepsOutBreaks(s: string)
    requires NoBreaks(s)
    ensures NoBreaks(StripLeft(s))
  {
    if s != "" && IsSpace(s[0]) { StripLeftKeepsOutBreaks(s[1..]); }
  }

  lemma TailEndsAlike(s: string, path: string, from: nat)
    requires from <= |s| && path == s[from..] && NoBreaks(s) && (s != "" ==> !IsSpace(s[|s| - 1]))
    ensures NoBreaks(path) && (path != "" ==> !IsSpace(path[|path| - 1]))
  {
  }

  lemma StripEndsWell(line: string)
    requires NoBreaks(line)
    ensures NoBreaks(Strip(line)) && (Strip(line) != "" ==> !IsSpace(Strip(line)[|Strip(line)| - 1]))
  {
    StripLeftKeepsOutBreaks(line);
  }

  /** A name that is read back has no line break and does not end in whitespace. */
  lemma LineKey(line: string)
    requires NoBreaks(line) && LineEntry(line).Some?
    ensures var path := LineEntry(line).value.0; NoBreaks(path) && (path != "" ==> !IsSpace(path[|path| - 1]))
  {
    var stripped := Strip(line);
    StripEndsWell(line);
    var path := stripped[DoubleSpace(stripped).value + 2..];
    TailEndsAlike(stripped, path, DoubleSpace(stripped).value + 2);
    if "./" <= path { TailEndsAlike(path, path[2..], 2); }
  }

  lemma {:induction false} CollectedKey(lines: seq<string>, key: string)
    requires key in Collect(LineEntries(lines))
    ensures exists line :: line in lines && LineEntry(line).Some? && LineEntry(line).value.0 == key
  {
    var i := |lines| - 1;
    OneMoreEntry(lines, i, LineEntry);
    assert lines[..i + 1] == lines;
    if LineEntry(lines[i]).None? || LineEntry(lines[i]).value.0 != key {
      CollectedKey(lines[..i], key);
    }
  }

  /** A name that keeps its line in one piece. */
  predicate OneLineName(name: string) {
    name != "" && NoBreaks(name) && !IsSpace(name[|name| - 1])
  }

  /** If some listed name is there under itself, it has no line break and does not end in white space. */
  lemma ReadKeysAreOneLine(text: string, name: string)
    requires name != "" && name in Collect(LineEntries(Lines(text)))
    ensures OneLineName(name)
  {
    NoBreakInLines(text);
    LineKeysAreOneLine(Lines(text), name);
  }

  lemma LineKeysAreOneLine(lines: seq<string>, name: string)
    requires name != "" && name in Collect(LineEntries(lines)) && forall line :: line in lines ==> NoBreaks(line)
    ensures OneLineName(name)
  {
    CollectedKey(lines, name);
    var line :| line in lines && LineEntry(line).Some? && LineEntry(line).value.0 == name;
    KeyIsOneLine(line, name);
  }

  lemma KeyIsOneLine(line: string, name: string)
    requires name != "" && NoBreaks(line) && LineEntry(line).Some? && LineEntry(line).value.0 == name
    ensures OneLineName(name)
  {
    LineKey(line);
  }

  lemma {:induction false} EscapeKeepsOutBreaks(name: string)
    requires forall i :: 0 <= i < |name| ==> !IsBreak(name[i]) || name[i] == '\n'
    ensures NoBreaks(Escape(name))
  {
    if name != "" { EscapeKeepsOutBreaks(name[1..]); }
  }

  lemma {:induction false} EscapeKeepsEnd(name: string)
    requires name != "" && !IsSpace(name[|name| - 1])
    ensures Escape(name) != "" && !IsSpace(Escape(name)[|Escape(name)| - 1])
  {
    if |name| > 1 { EscapeKeepsEnd(name[1..]); }
  }

  /** The name of a file listed alone comes back as itself with its own digest exactly if it is free of line breaks and
      backslashes and does not end in whitespace. */
  lemma ReadsBackExactly(digest: string, name: string)
    requires IsDigest(digest) && name != ""
    ensures var manifest := Collect(LineEntries(Lines(Sha256sumLine(digest, "./" + name) + "\n")));
            name in manifest && manifest[name] == Fingerprint(-1, digest) <==> Printable(name)
  {
    var line := Sha256sumLine(digest, "./" + name);
    var manifest := Collect(LineEntries(Lines(line + "\n")));
    assert line + "\n" == line + "\n" + "";
    if Printable(name) {
      PrintableLine(digest, name);
      OneLine(line);
    } else if !NoBreaks(name) || IsSpace(name[|name| - 1]) {
      if name in manifest {
        ReadKeysAreOneLine(line + "\n", name);
        assert false;
      }
    } else {
      BackslashLine(digest, name);
      OneLine(line);
    }
  }

  lemma OneLine(line: string)
    requires NoBreaks(line)
    ensures Collect(LineEntries(Lines(line + "\n"))) == match LineEntry(line) case None => map[] case Some(e) => map[e.0 := e.1]
  {
    assert line + "\n" == line + "\n" + "";
    FirstLine(line, "");
    assert Lines(line + "\n") == [line];
    OneMoreEntry([line], 0, LineEntry);
    assert [line][..1] == [line] && [line][..0] == [];
  }

  /** The mark in front of the digest makes it a different digest. */
  lemma BackslashLine(digest: string, name: string)
    requires IsDigest(digest) && name != "" && NoBreaks(name) && '\\' in name && !IsSpace(name[|name| - 1])
    ensures var line := Sha256sumLine(digest, "./" + name);
            NoBreaks(line) && LineEntry(line).Some? && LineEntry(line).value.1.digest == "\\" + digest
  {
    var marked, path := "\\" + digest, Escape("./" + name);
    var line := marked + "  " + path;
    assert '\\' in "./" + name by { var i :| 0 <= i < |name| && name[i] == '\\'; assert ("./" + name)[i + 2] == '\\'; }
    EscapeKeepsOutBreaks("./" + name);
    EscapeKeepsEnd("./" + name);
    forall i | 0 <= i < |marked| ensures !IsSpace(marked[i]) && !IsBreak(marked[i]) {
      if i > 0 { assert marked[i] == digest[i - 1]; }
    }
    LineSays(marked, path);
    PlainLine(marked, path);
  }

  // --- The tar route --------------------------------------------------------------------------------------------

  datatype Member = Member(name: string, regular: bool, payload: string)

  /** get_archive names every member below the directory's own name. */
  function StripArchiveRoot(name: string): string {
    var parts := Parts(Parse(name));
    if |parts| > 1 then Render(FromParts(parts[1..])) else ""
  }

  function MemberEntry(member: Member, excludes: seq<Pattern>, hash: string -> string): Option<Entry> {
    var relative := StripArchiveRoot(member.name);
    if !member.regular || relative == "" || MatchesAny(NameOf(relative), relative, excludes) then None
    else Some((relative, Fingerprint(|member.payload|, hash(member.payload))))
  }

  function MemberReader(excludes: seq<Pattern>, hash: string -> string): Member -> Option<Entry> {
    member => MemberEntry(member, excludes, hash)
  }

  function MemberEntries(members: seq<Member>, excludes: seq<Pattern>, hash: string -> string): seq<Entry> {
    Entries(members, MemberReader(excludes, hash))
  }

  method ManifestViaArchive(members: seq<Member>, excludes: seq<Pattern>, hash: string -> string)
    returns (manifest: map<string, Fingerprint>)
    ensures manifest == Collect(MemberEntries(members, excludes, hash))
  {
    manifest := map[];
    for i := 0 to |members|
      invariant manifest == Collect(MemberEntries(members[..i], excludes, hash))
    {
      OneMoreEntry(members, i, MemberReader(excludes, hash));
      if !members[i].regular { continue; }
      var relative := StripArchiveRoot(members[i].name);
      if relative == "" || MatchesAny(NameOf(relative), relative, excludes) { continue; }
      manifest := manifest[relative := Fingerprint(|members[i].payload|, hash(members[i].payload))];
    }
    assert members[..|members|] == members;
  }

  // --- Both routes against the flat filter ----------------------------------------------------------------------

  /** Files of the workspace by their path below it. */
  predicate IsWorkspace(files: map<Path, string>) {
    forall p :: p in files ==> p != [] && forall c :: c in p ==> Clean(c)
  }

  /** The digests of exactly the files no pattern matches. */
  ghost predicate IsFlat(manifest: map<string, Fingerprint>, files: map<Path, string>, excludes: seq<Pattern>, hash: string -> string)
    requires IsWorkspace(files)
  {
    && (forall p :: p in files && !Excluded(p, excludes) ==>
          Join(p) in manifest && manifest[Join(p)].digest == hash(files[p]))
    && (forall k :: k in manifest ==> exists p :: p in files && !Excluded(p, excludes) && Join(p) == k)
  }

  function Digests(manifest: map<string, Fingerprint>): map<string, string> {
    map k | k in manifest :: manifest[k].digest
  }

  lemma FlatIsUnique(a: map<string, Fingerprint>, b: map<string, Fingerprint>, files: map<Path, string>, excludes: seq<Pattern>,
      hash: string -> string)
    requires IsWorkspace(files) && IsFlat(a, files, excludes, hash) && IsFlat(b, files, excludes, hash)
    ensures Digests(a) == Digests(b)
  {
    forall k | k in a ensures k in b && a[k].digest == b[k].digest {
      var p :| p in files && !Excluded(p, excludes) && Join(p) == k;
    }
    forall k | k in b ensures k in a {
      var p :| p in files && !Excluded(p, excludes) && Join(p) == k;
    }
  }

  lemma {:induction false} CollectHolds(entries: seq<Entry>)
    ensures forall k :: k in Collect(entries) ==> (k, Collect(entries)[k]) in entries
    ensures forall e :: e in entries ==> e.0 in Collect(entries)
  {
    if entries != [] {
      var last := entries[|entries| - 1];
      CollectHolds(entries[..|entries| - 1]);
      assert entries == entries[..|entries| - 1] + [last];
    }
  }

  lemma {:induction false} ListingHolds(listing: seq<Path>, files: map<Path, string>, hash: string -> string, e: Entry)
    requires forall p :: p in listing ==> p in files
    ensures e in ListingEntries(listing, files, hash) <==>
            exists p :: p in listing && e == (Join(p), Fingerprint(-1, hash(files[p])))
  {
    if listing != [] {
      ListingHolds(listing[1..], files, hash, e);
      assert listing == [listing[0]] + listing[1..];
    }
  }

  lemma NameOfJoin(p: Path)
    requires CleanParts(p)
    ensures NameOf(Join(p)) == p[|p| - 1]
  {
    PartsOfJoin(p);
    var parts := Parse(Join(p)).parts;
    assert parts == p;
  }

  /** What find leaves out the filter leaves out as well: a slash-free pattern is tried on every component. */
  lemma PrunedIsExcluded(p: Path, excludes: seq<Pattern>)
    requires CleanParts(p) && !Found(p, excludes)
    requires SparesStart(excludes)
    ensures Excluded(p, excludes)
  {
    PartsOfJoin(p);
    var e :| e in excludes && PruneShaped(e) && !(forall c :: c in p ==> !Matches(e, c));
    var k :| 0 <= k < |excludes| && excludes[k] == e;
    var c :| c in p && Matches(e, c);
    var j :| 0 <= j < |p| && p[j] == c;
  }

  /** find's listing, printed by sha256sum. */
  ghost predicate Lists(listing: seq<Path>, files: map<Path, string>, excludes: seq<Pattern>) {
    forall p :: p in listing <==> p in files && Found(p, excludes)
  }

  /** A dictionary with the digest of each found file under its own path. */
  ghost predicate Faithful(manifest: map<string, Fingerprint>, listing: seq<Path>, files: map<Path, string>, hash: string -> string)
    requires forall p :: p in listing ==> p in files
  {
    && (forall p :: p in listing ==> Join(p) in manifest && manifest[Join(p)].digest == hash(files[p]))
    && (forall k :: k in manifest ==> exists p :: p in listing && Join(p) == k)
  }

  lemma OutputIsFaithful(listing: seq<Path>, files: map<Path, string>, hash: string -> string)
    requires IsWorkspace(files) && HexDigests(hash) && forall p :: p in listing ==> p in files && Printable(Join(p))
    ensures Faithful(Collect(LineEntries(Lines(Sha256sumText(listing, files, hash)))), listing, files, hash)
  {
    OutputReadsBack(listing, files, hash);
    var entries := ListingEntries(listing, files, hash);
    var manifest := Collect(entries);
    CollectHolds(entries);
    forall p | p in listing ensures Join(p) in manifest && manifest[Join(p)].digest == hash(files[p]) {
      ListingHolds(listing, files, hash, (Join(p), Fingerprint(-1, hash(files[p]))));
      ListingHolds(listing, files, hash, (Join(p), manifest[Join(p)]));
      var q :| q in listing && (Join(p), manifest[Join(p)]) == (Join(q), Fingerprint(-1, hash(files[q])));
      JoinInjective(p, q);
    }
    forall k | k in manifest ensures exists p :: p in listing && Join(p) == k {
      ListingHolds(listing, files, hash, (k, manifest[k]));
    }
  }

  lemma FilteredIsFlat(manifest: map<string, Fingerprint>, listing: seq<Path>, files: map<Path, string>,
      excludes: seq<Pattern>, hash: string -> string)
    requires IsWorkspace(files) && (forall p :: p in listing ==> p in files) && Faithful(manifest, listing, files, hash)
    requires forall p :: p in files && p !in listing ==> Excluded(p, excludes)
    ensures IsFlat(FilterManifest(manifest, excludes), files, excludes, hash)
  {
    forall p | p in listing ensures MatchesAny(NameOf(Join(p)), Join(p), excludes) <==> Excluded(p, excludes) {
      NameOfJoin(p);
    }
  }

  /** The sha256sum route, with find's pruning, reports what the filter alone would leave. */
  lemma Sha256sumRouteIsFlat(listing: seq<Path>, files: map<Path, string>, excludes: seq<Pattern>, hash: string -> string)
    requires IsWorkspace(files) && HexDigests(hash) && Lists(listing, files, excludes)
    requires forall p :: p in listing ==> Printable(Join(p))
    requires SparesStart(excludes)
    ensures IsFlat(FilterManifest(Collect(LineEntries(Lines(Sha256sumText(listing, files, hash)))), excludes), files, excludes, hash)
  {
    OutputIsFaithful(listing, files, hash);
    forall p | p in files && p !in listing ensures Excluded(p, excludes) {
      PrunedIsExcluded(p, excludes);
    }
    FilteredIsFlat(Collect(LineEntries(Lines(Sha256sumText(listing, files, hash)))), listing, files, excludes, hash);
  }

  // --- Exactly which listings survive ---------------------------------------------------------------------------

  /** How sha256sum prints a file. */
  function LineOf(p: Path, files: map<Path, string>, hash: string -> string): string
    requires p in files
  {
    Sha256sumLine(hash(files[p]), "./" + Join(p))
  }

  lemma NameIsThere(p: Path, files: map<Path, string>)
    requires IsWorkspace(files) && p in files
    ensures Join(p) != ""
  {
    assert p[0] in p;
    JoinStarts(p);
  }

  /** What the line of such a name says: itself with its digest, or, if it holds a backslash, a digest that is none. */
  lemma LineOfSays(p: Path, files: map<Path, string>, hash: string -> string)
    requires p in files && IsDigest(hash(files[p])) && OneLineName(Join(p))
    ensures NoBreaks(LineOf(p, files, hash)) && LineEntry(LineOf(p, files, hash)).Some?
    ensures var entry := LineEntry(LineOf(p, files, hash)).value;
            if Printable(Join(p)) then entry.0 == Join(p) else !IsDigest(entry.1.digest)
  {
    if Printable(Join(p)) { PrintableLine(hash(files[p]), Join(p)); } else { BackslashLine(hash(files[p]), Join(p)); }
  }

  lemma {:induction false} LinesOfListing(listing: seq<Path>, files: map<Path, string>, hash: string -> string, line: string)
    requires HexDigests(hash) && forall p :: p in listing ==> p in files && OneLineName(Join(p))
    requires line in Lines(Sha256sumText(listing, files, hash))
    ensures exists p :: p in listing && line == LineOf(p, files, hash)
  {
    var p, rest := listing[0], Sha256sumText(listing[1..], files, hash);
    LineOfSays(p, files, hash);
    FirstLine(LineOf(p, files, hash), rest);
    if line != LineOf(p, files, hash) {
      LinesOfListing(listing[1..], files, hash, line);
      var q :| q in listing[1..] && line == LineOf(q, files, hash);
      assert q in listing;
    }
  }

  /** If the entry of a name with a backslash is a digest, some listed name is not kept in one line. */
  lemma BackslashIsLost(listing: seq<Path>, files: map<Path, string>, hash: string -> string, p: Path)
    requires HexDigests(hash) && forall q :: q in listing ==> q in files && OneLineName(Join(q))
    requires p in listing && !Printable(Join(p)) && Join(p) in Collect(LineEntries(Lines(Sha256sumText(listing, files, hash))))
    ensures Collect(LineEntries(Lines(Sha256sumText(listing, files, hash))))[Join(p)].digest != hash(files[p])
  {
    var lines := Lines(Sha256sumText(listing, files, hash));
    var entry := (Join(p), Collect(LineEntries(lines))[Join(p)]);
    CollectHolds(LineEntries(lines));
    EntriesHold(lines, LineEntry, entry);
    var line :| line in lines && LineEntry(line) == Some(entry);
    LinesOfListing(listing, files, hash, line);
    var q :| q in listing && line == LineOf(q, files, hash);
    LineOfSays(q, files, hash);
  }

  /** A printed listing reads back faithfully, every file under its own path with its own digest and nothing else, exactly if
      all its names are printable. */
  lemma ListingReadsBackExactly(listing: seq<Path>, files: map<Path, string>, hash: string -> string)
    requires IsWorkspace(files) && HexDigests(hash) && forall p :: p in listing ==> p in files
    ensures Faithful(Collect(LineEntries(Lines(Sha256sumText(listing, files, hash)))), listing, files, hash)
            <==> forall p :: p in listing ==> Printable(Join(p))
  {
    var text := Sha256sumText(listing, files, hash);
    if forall p :: p in listing ==> Printable(Join(p)) {
      OutputIsFaithful(listing, files, hash);
    } else if Faithful(Collect(LineEntries(Lines(text))), listing, files, hash) {
      forall p | p in listing ensures OneLineName(Join(p)) {
        NameIsThere(p, files);
        ReadKeysAreOneLine(text, Join(p));
      }
      var p :| p in listing && !Printable(Join(p));
      BackslashIsLost(listing, files, hash, p);
    }
  }

  /** Why the other names matter: sha256sum prints a vertical tab as it is and the reader breaks the line there, so a file
      whose name continues like a line about `a` replaces a's digest, however printable `a` is. */
  lemma OtherNameReplacesDigest(a: string, b: string, digest: string, files: map<Path, string>, hash: string -> string)
    requires HexDigests(hash) && IsDigest(digest) && Clean(a) && Clean(b) && Printable(a) && Printable(b)
    requires [a] in files && [LineInName(b, digest, a)] in files
    ensures Clean(LineInName(b, digest, a))
    ensures var manifest := Collect(LineEntries(Lines(Sha256sumText([[a], [LineInName(b, digest, a)]], files, hash))));
            a in manifest && manifest[a] == Fingerprint(-1, digest)
  {
    NameWithTab(a, b, digest, "");
    PrintedTwo(a, b, digest, files, hash);
    ThreeLinesRead(hash(files[[a]]), hash(files[[LineInName(b, digest, a)]]), a, b, digest);
  }

  /** A name that goes on, after a vertical tab, like a line of output. */
  function LineInName(b: string, digest: string, a: string): string {
    b + ['\U{b}'] + (digest + "  " + a)
  }

  function ThreeLinesText(first: string, second: string, third: string): string {
    first + "\n" + (second + ['\U{b}'] + (third + "\n" + ""))
  }

  lemma PrintedTwo(a: string, b: string, digest: string, files: map<Path, string>, hash: string -> string)
    requires HexDigests(hash) && IsDigest(digest) && Clean(a) && Clean(b) && Printable(a) && Printable(b)
    requires [a] in files && [LineInName(b, digest, a)] in files
    ensures Sha256sumText([[a], [LineInName(b, digest, a)]], files, hash) ==
            ThreeLinesText(hash(files[[a]]) + "  " + ("./" + a), hash(files[[LineInName(b, digest, a)]]) + "  " + ("./" + b), digest + "  " + a)
  {
    var q := LineInName(b, digest, a);
    TextOfTwo([a], [q], files, hash);
    PlainName(a);
    NameWithTab(a, b, digest, hash(files[[q]]));
  }

  lemma ThreeLinesRead(x: string, y: string, a: string, b: string, digest: string)
    requires IsDigest(x) && IsDigest(y) && IsDigest(digest) && Clean(a) && Printable(a) && Printable(b)
    ensures var manifest := Collect(LineEntries(Lines(ThreeLinesText(x + "  " + ("./" + a), y + "  " + ("./" + b), digest + "  " + a))));
            a in manifest && manifest[a] == Fingerprint(-1, digest)
  {
    var first, second, third := x + "  " + ("./" + a), y + "  " + ("./" + b), digest + "  " + a;
    PlainLine(x, "./" + a);
    PlainLine(y, "./" + b);
    PlainLine(digest, a);
    ThreeLines(first, second, third);
    LineOfA(digest, a);
    LastLineWins(first, second, third);
  }

  lemma LineOfA(digest: string, a: string)
    requires IsDigest(digest) && Clean(a) && Printable(a)
    ensures LineEntry(digest + "  " + a) == Some((a, Fingerprint(-1, digest)))
  {
    assert |a| >= 2 ==> a[1] in a;
    LineSays(digest, a);
  }

  lemma ThreeLines(first: string, second: string, third: string)
    requires NoBreaks(first) && NoBreaks(second) && NoBreaks(third)
    ensures Lines(ThreeLinesText(first, second, third)) == [first, second, third]
  {
    FirstLine(first, second + "\U{b}" + (third + "\n" + ""));
    BrokenLine(second, '\U{b}', third + "\n" + "");
    FirstLine(third, "");
  }

  lemma NameWithTab(a: string, b: string, digest: string, own: string)
    requires IsDigest(digest) && Clean(a) && Clean(b) && Printable(a) && Printable(b)
    ensures var q := LineInName(b, digest, a);
            Clean(q) && Sha256sumLine(own, "./" + q) == own + "  " + ("./" + b) + ['\U{b}'] + (digest + "  " + a)
  {
    var q := LineInName(b, digest, a);
    assert forall c :: c in q ==> c in b || c == '\U{b}' || c in digest || c == ' ' || c in a;
    assert forall c :: c in "./" + q ==> c in "./" || c in q;
    assert forall i :: 0 <= i < |a| ==> a[i] != '\n';
    assert forall i :: 0 <= i < |b| ==> b[i] != '\n';
    assert own + "  " + ("./" + q) == own + "  " + ("./" + b) + ['\U{b}'] + (digest + "  " + a);
  }

  lemma TextOfTwo(p: Path, q: Path, files: map<Path, string>, hash: string -> string)
    requires p in files && q in files
    ensures Sha256sumText([p, q], files, hash) == LineOf(p, files, hash) + "\n" + (LineOf(q, files, hash) + "\n" + "")
  {
    assert [p, q][1..] == [q] && [q][1..] == [];
    assert Sha256sumText([q], files, hash) == LineOf(q, files, hash) + "\n" + "";
  }

  lemma LastLineWins(first: string, second: string, third: string)
    requires LineEntry(third).Some?
    ensures var entry := LineEntry(third).value;
            var manifest := Collect(LineEntries([first, second, third]));
            entry.0 in manifest && manifest[entry.0] == entry.1
  {
    var lines := [first, second, third];
    OneMoreEntry(lines, 2, LineEntry);
    assert lines[..3] == lines;
  }

  /** The sha256sum route reports what the filter alone would leave exactly if two things hold.  Either no prune name matches
      the start of the search, which would list nothing at all, or the filter leaves nothing anyway.  And every listed name
      is printable; those that are filtered afterwards are taken to be. */
  lemma Sha256sumRouteExactly(listing: seq<Path>, files: map<Path, string>, excludes: seq<Pattern>, hash: string -> string)
    requires IsWorkspace(files) && HexDigests(hash) && Lists(listing, files, excludes)
    requires forall p :: p in listing && Excluded(p, excludes) ==> Printable(Join(p))
    ensures IsFlat(FilterManifest(Collect(LineEntries(Lines(Sha256sumText(listing, files, hash)))), excludes), files, excludes, hash)
            <==> (SparesStart(excludes) || forall p :: p in files ==> Excluded(p, excludes))
                 && forall p :: p in listing ==> Printable(Join(p))
  {
    assert listing != [] ==> listing[0] in listing;
    if !SparesStart(excludes) {
      assert forall p :: p !in listing;
      assert Sha256sumText(listing, files, hash) == "";
    } else if forall p :: p in listing ==> Printable(Join(p)) {
      Sha256sumRouteIsFlat(listing, files, excludes, hash);
    } else {
      OtherNamesAreLost(listing, files, excludes, hash);
    }
  }

  lemma OtherNamesAreLost(listing: seq<Path>, files: map<Path, string>, excludes: seq<Pattern>, hash: string -> string)
    requires IsWorkspace(files) && HexDigests(hash) && forall p :: p in listing ==> p in files
    requires forall p :: p in listing && Excluded(p, excludes) ==> Printable(Join(p))
    requires !(forall p :: p in listing ==> Printable(Join(p)))
    ensures !IsFlat(FilterManifest(Collect(LineEntries(Lines(Sha256sumText(listing, files, hash)))), excludes), files, excludes, hash)
  {
    var text := Sha256sumText(listing, files, hash);
    if IsFlat(FilterManifest(Collect(LineEntries(Lines(text))), excludes), files, excludes, hash) {
      forall p | p in listing ensures OneLineName(Join(p)) {
        if !Excluded(p, excludes) {
          NameIsThere(p, files);
          ReadKeysAreOneLine(text, Join(p));
        }
      }
      var p :| p in listing && !Printable(Join(p));
      BackslashIsLost(listing, files, hash, p);
    }
  }

  /** The archive holds every file once under the directory's own name, and nothing else that counts as a file. */
  ghost predicate ArchiveOf(members: seq<Member>, base: string, files: map<Path, string>) {
    && (forall p :: p in files ==> Member(Join([base] + p), true, files[p]) in members)
    && (forall m :: m in members && m.regular ==> exists p :: p in files && m == Member(Join([base] + p), true, files[p]))
  }

  lemma PartsOfRelative(q: Path)
    requires CleanParts(q)
    ensures Parts(Parse(Join(q))) == q
  {
    PartsOfJoin(q);
    assert q[0] in q;
    JoinStarts(q);
    var parsed := Parse(Join(q));
    assert parsed.root == "" && parsed.parts == q;
  }

  lemma StripOfJoin(base: string, p: Path)
    requires Clean(base) && CleanParts(p)
    ensures StripArchiveRoot(Join([base] + p)) == Join(p) != ""
  {
    var q := [base] + p;
    PartsOfRelative(q);
    assert q[1..] == p && p[0] in p;
    JoinStarts(p);
  }

  lemma {:induction false} EntriesHold<T>(items: seq<T>, read: T -> Option<Entry>, e: Entry)
    ensures e in Entries(items, read) <==> exists x :: x in items && read(x) == Some(e)
  {
    if items != [] {
      EntriesHold(items[..|items| - 1], read, e);
      assert items == items[..|items| - 1] + [items[|items| - 1]];
    }
  }

  lemma MembersHold(members: seq<Member>, excludes: seq<Pattern>, hash: string -> string, e: Entry)
    ensures e in MemberEntries(members, excludes, hash) <==>
            exists m :: m in members && MemberEntry(m, excludes, hash) == Some(e)
  {
    var read := MemberReader(excludes, hash);
    EntriesHold(members, read, e);
    assert forall m :: read(m) == MemberEntry(m, excludes, hash);
  }

  lemma EntryOfFile(base: string, p: Path, files: map<Path, string>, excludes: seq<Pattern>, hash: string -> string)
    requires Clean(base) && IsWorkspace(files) && p in files
    ensures MemberEntry(Member(Join([base] + p), true, files[p]), excludes, hash) ==
            if Excluded(p, excludes) then None else Some((Join(p), Fingerprint(|files[p]|, hash(files[p]))))
  {
    StripOfJoin(base, p);
    NameOfJoin(p);
  }

  lemma ArchiveKey(members: seq<Member>, base: string, files: map<Path, string>, excludes: seq<Pattern>, hash: string -> string, k: string)
    returns (p: Path)
    requires Clean(base) && IsWorkspace(files) && ArchiveOf(members, base, files)
    requires k in Collect(MemberEntries(members, excludes, hash))
    ensures p in files && !Excluded(p, excludes) && Join(p) == k
    ensures Collect(MemberEntries(members, excludes, hash))[k] == Fingerprint(|files[p]|, hash(files[p]))
  {
    var entries := MemberEntries(members, excludes, hash);
    var e := (k, Collect(entries)[k]);
    CollectHolds(entries);
    MembersHold(members, excludes, hash, e);
    var m :| m in members && MemberEntry(m, excludes, hash) == Some(e);
    p :| p in files && m == Member(Join([base] + p), true, files[p]);
    EntryOfFile(base, p, files, excludes, hash);
  }

  lemma ArchiveHas(members: seq<Member>, base: string, files: map<Path, string>, excludes: seq<Pattern>, hash: string -> string, p: Path)
    requires Clean(base) && IsWorkspace(files) && ArchiveOf(members, base, files)
    requires p in files && !Excluded(p, excludes)
    ensures Join(p) in Collect(MemberEntries(members, excludes, hash))
  {
    var e := (Join(p), Fingerprint(|files[p]|, hash(files[p])));
    EntryOfFile(base, p, files, excludes, hash);
    MembersHold(members, excludes, hash, e);
    CollectHolds(MemberEntries(members, excludes, hash));
    assert e in MemberEntries(members, excludes, hash);
  }

  lemma ArchiveRouteIsFlat(members: seq<Member>, base: string, files: map<Path, string>, excludes: seq<Pattern>, hash: string -> string)
    requires Clean(base) && IsWorkspace(files) && ArchiveOf(members, base, files)
    ensures IsFlat(Collect(MemberEntries(members, excludes, hash)), files, excludes, hash)
  {
    var manifest := Collect(MemberEntries(members, excludes, hash));
    forall k | k in manifest ensures exists p :: p in files && !Excluded(p, excludes) && Join(p) == k {
      var p := ArchiveKey(members, base, files, excludes, hash, k);
    }
    forall p | p in files && !Excluded(p, excludes) ensures Join(p) in manifest && manifest[Join(p)].digest == hash(files[p]) {
      ArchiveHas(members, base, files, excludes, hash, p);
      var q := ArchiveKey(members, base, files, excludes, hash, Join(p));
      JoinInjective(p, q);
    }
  }

  // --- read_manifest --------------------------------------------------------------------------------------------

  datatype Reading = Read(manifest: map<string, Fingerprint>) | WorkspaceMissing

  datatype Outcome = Outcome(exitCode: Option<int>, stdout: string, stderr: string)

  predicate UsesSha256sum(outcome: Outcome) {
    outcome.exitCode == Some(0) && (Strip(outcome.stdout) != "" || Strip(outcome.stderr) == "")
  }

  function ReadingOf(outcome: Outcome, members: seq<Member>, excludes: seq<Pattern>, hash: string -> string): Reading {
    if outcome.exitCode == Some(3) then WorkspaceMissing
    else if UsesSha256sum(outcome) then Read(FilterManifest(Collect(LineEntries(Lines(outcome.stdout))), excludes))
    else Read(Collect(MemberEntries(members, excludes, hash)))
  }

  method ReadManifest(outcome: Outcome, members: seq<Member>, excludes: seq<Pattern>, hash: string -> string) returns (r: Reading)
    ensures r == ReadingOf(outcome, members, excludes, hash)
  {
    if outcome.exitCode == Some(3) { return WorkspaceMissing; }
    var manifest;
    if outcome.exitCode == Some(0) && (Strip(outcome.stdout) != "" || Strip(outcome.stderr) == "") {
      manifest := ParseSha256sumOutput(outcome.stdout);
      return Read(FilterManifest(manifest, excludes));
    }
    manifest := ManifestViaArchive(members, excludes, hash);
    return Read(manifest);
  }

  /** No name that find prunes, one without slash and star, matches the start of the search. */
  predicate SparesStart(excludes: seq<Pattern>) {
    forall e :: e in excludes && !HasSlash(e) && AnyRun !in e ==> !Matches(e, ".")
  }

  /** What find lists: the files of which no component, nor the starting dot, matches a pattern without slash and star. */
  lemma ListedExactly(listing: seq<Path>, files: map<Path, string>, excludes: seq<Pattern>, p: Path)
    requires Lists(listing, files, excludes)
    ensures p in listing <==>
            p in files && forall e :: e in excludes && !HasSlash(e) && AnyRun !in e ==> !Matches(e, ".") && forall c :: c in p ==> !Matches(e, c)
  {
  }

  /** The search and sha256sum ran: exit code 0, and something printed or nothing to complain about. */
  predicate RanCleanly(outcome: Outcome) {
    outcome.exitCode == Some(0) && (Blank(outcome.stderr) || exists i :: 0 <= i < |outcome.stdout| && !IsSpace(outcome.stdout[i]))
  }

  /** What the sandbox hands over for the files it holds: the archive of all of them and, if the search ran cleanly, find's
      listing as sha256sum prints it.  Names that the filter drops afterwards are taken to be printable. */
  ghost predicate Reports(outcome: Outcome, members: seq<Member>, base: string, listing: seq<Path>, files: map<Path, string>,
      excludes: seq<Pattern>, hash: string -> string)
  {
    && Clean(base) && IsWorkspace(files) && ArchiveOf(members, base, files)
    && (RanCleanly(outcome) ==>
          && HexDigests(hash)
          && Lists(listing, files, excludes) && (forall p :: p in listing && Excluded(p, excludes) ==> Printable(Join(p)))
          && outcome.stdout == Sha256sumText(listing, files, hash))
  }

  /** Pruning at the very start is harmless when nothing was to be reported. */
  ghost predicate PruningHarmless(outcome: Outcome, files: map<Path, string>, excludes: seq<Pattern>)
    requires IsWorkspace(files)
  {
    RanCleanly(outcome) ==> SparesStart(excludes) || forall p :: p in files ==> Excluded(p, excludes)
  }

  ghost predicate NamesPrintable(outcome: Outcome, listing: seq<Path>) {
    RanCleanly(outcome) ==> forall p :: p in listing ==> Printable(Join(p))
  }

  /** The code's own test says the same. */
  lemma RouteIsByOutcome(outcome: Outcome)
    ensures UsesSha256sum(outcome) <==> RanCleanly(outcome)
  {
    BlankStrips(outcome.stdout);
    BlankStrips(outcome.stderr);
  }

  /** Exit code 3, and only that, is the missing workspace. */
  lemma MissingExactly(outcome: Outcome, members: seq<Member>, excludes: seq<Pattern>, hash: string -> string)
    ensures ReadingOf(outcome, members, excludes, hash) == WorkspaceMissing <==> outcome.exitCode == Some(3)
  {
  }

  /** Whenever the search did not run cleanly the archive alone decides, whatever was printed: the reading holds exactly the
      files no pattern matches. */
  lemma ArchiveAnswers(outcome: Outcome, members: seq<Member>, base: string, files: map<Path, string>, excludes: seq<Pattern>,
      hash: string -> string)
    requires Clean(base) && IsWorkspace(files) && ArchiveOf(members, base, files)
    requires !RanCleanly(outcome) && outcome.exitCode != Some(3)
    ensures var r := ReadingOf(outcome, members, excludes, hash); r.Read? && IsFlat(r.manifest, files, excludes, hash)
  {
    RouteIsByOutcome(outcome);
    ArchiveRouteIsFlat(members, base, files, excludes, hash);
  }

  /** A reading by either route reports exactly the files no pattern matches, exactly if pruning at the start is harmless and
      every listed name is printable. */
  lemma ReadingIsFlatExactly(outcome: Outcome, members: seq<Member>, base: string, listing: seq<Path>, files: map<Path, string>,
      excludes: seq<Pattern>, hash: string -> string)
    requires Reports(outcome, members, base, listing, files, excludes, hash) && outcome.exitCode != Some(3)
    ensures var r := ReadingOf(outcome, members, excludes, hash);
            r.Read? && (IsFlat(r.manifest, files, excludes, hash) <==> PruningHarmless(outcome, files, excludes) && NamesPrintable(outcome, listing))
  {
    RouteIsByOutcome(outcome);
    if RanCleanly(outcome) {
      Sha256sumRouteExactly(listing, files, excludes, hash);
    } else {
      ArchiveAnswers(outcome, members, base, files, excludes, hash);
    }
  }

  lemma LineSizes(lines: seq<string>, key: string)
    requires key in Collect(LineEntries(lines))
    ensures Collect(LineEntries(lines))[key].size == -1
  {
    var e := (key, Collect(LineEntries(lines))[key]);
    CollectHolds(LineEntries(lines));
    EntriesHold(lines, LineEntry, e);
  }

  /** The tar route knows every file's size; sha256sum prints none, and the entry says -1. */
  lemma ReadingSizes(outcome: Outcome, members: seq<Member>, base: string, files: map<Path, string>, excludes: seq<Pattern>,
      hash: string -> string, p: Path)
    requires Clean(base) && IsWorkspace(files) && ArchiveOf(members, base, files) && outcome.exitCode != Some(3)
    requires p in files && Join(p) in ReadingOf(outcome, members, excludes, hash).manifest
    ensures ReadingOf(outcome, members, excludes, hash).manifest[Join(p)].size == if RanCleanly(outcome) then -1 else |files[p]|
  {
    RouteIsByOutcome(outcome);
    if RanCleanly(outcome) {
      LineSizes(Lines(outcome.stdout), Join(p));
    } else {
      var q := ArchiveKey(members, base, files, excludes, hash, Join(p));
      JoinInjective(p, q);
    }
  }

  lemma SameDigestsFlat(a: map<string, Fingerprint>, b: map<string, Fingerprint>, files: map<Path, string>, excludes: seq<Pattern>,
      hash: string -> string)
    requires IsWorkspace(files) && IsFlat(b, files, excludes, hash) && Digests(a) == Digests(b)
    ensures IsFlat(a, files, excludes, hash)
  {
    forall k: string ensures k in a <==> k in b {
      assert k in Digests(a) <==> k in Digests(b);
    }
    forall k | k in a ensures a[k].digest == b[k].digest {
      assert Digests(a)[k] == Digests(b)[k];
    }
  }

  /** The tar route always gives the digests of the files no pattern matches, and the two routes agree exactly if the sha256sum
      route does too. */
  lemma RoutesAgreeExactly(listing: seq<Path>, members: seq<Member>, base: string, files: map<Path, string>, excludes: seq<Pattern>,
      hash: string -> string)
    requires Clean(base) && IsWorkspace(files) && HexDigests(hash)
    requires Lists(listing, files, excludes) && ArchiveOf(members, base, files)
    requires forall p :: p in listing && Excluded(p, excludes) ==> Printable(Join(p))
    ensures IsFlat(Collect(MemberEntries(members, excludes, hash)), files, excludes, hash)
    ensures Digests(FilterManifest(Collect(LineEntries(Lines(Sha256sumText(listing, files, hash)))), excludes)) ==
            Digests(Collect(MemberEntries(members, excludes, hash)))
            <==> (SparesStart(excludes) || forall p :: p in files ==> Excluded(p, excludes))
                 && forall p :: p in listing ==> Printable(Join(p))
  {
    var read := FilterManifest(Collect(LineEntries(Lines(Sha256sumText(listing, files, hash)))), excludes);
    var taken := Collect(MemberEntries(members, excludes, hash));
    Sha256sumRouteExactly(listing, files, excludes, hash);
    ArchiveRouteIsFlat(members, base, files, excludes, hash);
    if IsFlat(read, files, excludes, hash) { FlatIsUnique(read, taken, files, excludes, hash); }
    if Digests(read) == Digests(taken) { SameDigestsFlat(read, taken, files, excludes, hash); }
  }
}
