/** ArtifactManager: which files are fetched from the sandbox, and where they land on the host. */
module Artifacts {
  import opened Common
  import opened Manifests
  import opened Options
  import opened Paths
  import opened SandboxPath
  import opened Texts

  datatype Skip =
    | BadPattern(pattern: string)
    | OutsideWorkspace(candidate: string)
    | Unreadable(path: string)
    | LimitReached(path: string)
    | NothingMatched

  datatype Artifact = Artifact(sandboxPath: string, hostPath: seq<string>, size: nat, sha256: string)

  // --- Which lines of the search are matches --------------------------------------------------------------------

  /** The validated paths the lines name, in order, repeats included. */
  function Validated(lines: seq<string>, check: string -> Verdict): seq<string> {
    if lines == [] then []
    else
      var before := Validated(lines[..|lines| - 1], check);
      match check(Strip(lines[|lines| - 1]))
      case Accepted(path) => before + [path]
      case _ => before
  }

  /** The lines that name something outside the workspace. */
  function Outsiders(lines: seq<string>, check: string -> Verdict): seq<Skip> {
    if lines == [] then []
    else
      var before, candidate := Outsiders(lines[..|lines| - 1], check), Strip(lines[|lines| - 1]);
      if candidate == "" || check(candidate).Accepted? then before else before + [OutsideWorkspace(candidate)]
  }

  /** A pattern the search takes: not blank, relative, and without `..`. */
  predicate IsRelativePattern(pattern: string) {
    var cleaned := Strip(pattern);
    cleaned != "" && cleaned[0] != '/' && ".." !in Parse(cleaned).parts
  }

  function Refused(patterns: seq<string>): seq<Skip> {
    if patterns == [] then []
    else
      var before, last := Refused(patterns[..|patterns| - 1]), patterns[|patterns| - 1];
      if IsRelativePattern(last) then before else before + [BadPattern(last)]
  }

  /** First occurrences only. */
  function Dedup(xs: seq<string>): seq<string> {
    if xs == [] then []
    else
      var before, last := Dedup(xs[..|xs| - 1]), xs[|xs| - 1];
      if last in xs[..|xs| - 1] then before else before + [last]
  }

  /** A pattern made of slash-free pieces, with any white space around it, is searched for exactly if it does not start with a
      slash and none of its pieces is `..`; a blank one is not. */
  lemma RelativePatternExactly(pre: string, pieces: seq<string>, post: string)
    requires Blank(pre) && Blank(post) && pieces != [] && forall p :: p in pieces ==> '/' !in p
    requires Join(pieces) != "" ==> !IsSpace(Join(pieces)[0]) && !IsSpace(Join(pieces)[|Join(pieces)| - 1])
    ensures IsRelativePattern(pre + (Join(pieces) + post)) <==> Join(pieces) != "" && Join(pieces)[0] != '/' && ".." !in pieces
  {
    var text := pre + (Join(pieces) + post);
    if Join(pieces) == "" {
      BlankStrips(text);
    } else {
      StripAround(pre, Join(pieces), post);
      SplitJoin(pieces);
      KeptAre(pieces);
    }
  }

  /** Exactly the patterns that are not searched for are reported, and exactly the lines that name nothing acceptable. */
  lemma {:induction false} RefusedExactly(patterns: seq<string>, p: string)
    ensures BadPattern(p) in Refused(patterns) <==> p in patterns && !IsRelativePattern(p)
    ensures forall x :: x in Refused(patterns) ==> x.BadPattern?
  {
    if patterns != [] {
      RefusedExactly(patterns[..|patterns| - 1], p);
      assert patterns == patterns[..|patterns| - 1] + [patterns[|patterns| - 1]];
    }
  }

  lemma {:induction false} OutsidersExactly(lines: seq<string>, check: string -> Verdict, c: string)
    ensures OutsideWorkspace(c) in Outsiders(lines, check) <==> c != "" && !check(c).Accepted? && exists line :: line in lines && Strip(line) == c
    ensures forall x :: x in Outsiders(lines, check) ==> x.OutsideWorkspace?
  {
    if lines != [] {
      OutsidersExactly(lines[..|lines| - 1], check, c);
      assert lines == lines[..|lines| - 1] + [lines[|lines| - 1]];
    }
  }

  /** In the order they come. */
  lemma {:induction false} RefusedConcat(a: seq<string>, b: seq<string>)
    ensures Refused(a + b) == Refused(a) + Refused(b)
  {
    if b == [] {
      assert a + b == a;
    } else {
      RefusedConcat(a, b[..|b| - 1]);
      assert (a + b)[..|a + b| - 1] == a + b[..|b| - 1];
    }
  }

  ghost predicate Distinct<T>(xs: seq<T>) {
    forall i, j :: 0 <= i < j < |xs| ==> xs[i] != xs[j]
  }

  lemma {:induction false} DedupIsDistinct(xs: seq<string>)
    ensures Distinct(Dedup(xs)) && forall x :: x in Dedup(xs) <==> x in xs
  {
    if xs != [] {
      DedupIsDistinct(xs[..|xs| - 1]);
      assert xs == xs[..|xs| - 1] + [xs[|xs| - 1]];
    }
  }

  /** Each keeps the place of its first occurrence: when the one ahead first came up, the one behind had not yet. */
  lemma {:induction false} DedupKeepsOrder(xs: seq<string>, i: nat, j: nat) returns (k: nat)
    requires i < j < |Dedup(xs)|
    ensures k < |xs| && xs[k] == Dedup(xs)[i] && Dedup(xs)[j] !in xs[..k + 1]
  {
    var earlier := xs[..|xs| - 1];
    if j < |Dedup(earlier)| {
      k := DedupKeepsOrder(earlier, i, j);
      assert earlier[..k + 1] == xs[..k + 1];
    } else {
      DedupIsDistinct(earlier);
      assert Dedup(earlier)[i] in earlier;
      k :| 0 <= k < |earlier| && earlier[k] == Dedup(earlier)[i];
      assert forall x :: x in xs[..k + 1] ==> x in earlier;
    }
  }

  /** One line after the other. */
  lemma {:induction false} ValidatedConcat(a: seq<string>, b: seq<string>, check: string -> Verdict)
    ensures Validated(a + b, check) == Validated(a, check) + Validated(b, check)
  {
    if b == [] {
      assert a + b == a;
    } else {
      ValidatedConcat(a, b[..|b| - 1], check);
      assert (a + b)[..|a + b| - 1] == a + b[..|b| - 1];
    }
  }

  lemma {:induction false} OutsidersConcat(a: seq<string>, b: seq<string>, check: string -> Verdict)
    ensures Outsiders(a + b, check) == Outsiders(a, check) + Outsiders(b, check)
  {
    if b == [] {
      assert a + b == a;
    } else {
      OutsidersConcat(a, b[..|b| - 1], check);
      assert (a + b)[..|a + b| - 1] == a + b[..|b| - 1];
    }
  }

  /** Each adds the path it is accepted as, and nothing otherwise. */
  lemma {:induction false} ValidatedExactly(lines: seq<string>, check: string -> Verdict, path: string)
    ensures path in Validated(lines, check) <==> exists line :: line in lines && check(Strip(line)) == Accepted(path)
  {
    if lines != [] {
      ValidatedExactly(lines[..|lines| - 1], check, path);
      assert lines == lines[..|lines| - 1] + [lines[|lines| - 1]];
    }
  }

  lemma DedupPush(xs: seq<string>, x: string)
    ensures Dedup(xs + [x]) == if x in xs then Dedup(xs) else Dedup(xs) + [x]
  {
    assert (xs + [x])[..|xs|] == xs;
  }

  lemma OneMoreLine(lines: seq<string>, i: nat, check: string -> Verdict, verdict: Verdict)
    requires i < |lines| && verdict == check(Strip(lines[i]))
    ensures Validated(lines[..i + 1], check) ==
            if verdict.Accepted? then Validated(lines[..i], check) + [verdict.path] else Validated(lines[..i], check)
    ensures Outsiders(lines[..i + 1], check) ==
            if Strip(lines[i]) == "" || verdict.Accepted? then Outsiders(lines[..i], check)
            else Outsiders(lines[..i], check) + [OutsideWorkspace(Strip(lines[i]))]
    ensures verdict.Accepted? ==>
              Dedup(Validated(lines[..i + 1], check)) ==
              if verdict.path in Validated(lines[..i], check) then Dedup(Validated(lines[..i], check))
              else Dedup(Validated(lines[..i], check)) + [verdict.path]
  {
    assert lines[..i + 1][..i] == lines[..i];
    if verdict.Accepted? { DedupPush(Validated(lines[..i], check), verdict.path); }
  }

  /** What the first i lines have led to. */
  ghost predicate Seen(lines: seq<string>, i: nat, check: string -> Verdict, matches: seq<string>, seen: set<string>, outside: seq<Skip>)
    requires i <= |lines|
  {
    && matches == Dedup(Validated(lines[..i], check))
    && seen == (set x | x in Validated(lines[..i], check))
    && outside == Outsiders(lines[..i], check)
  }

  lemma SeenOneMore(lines: seq<string>, i: nat, check: string -> Verdict, matches: seq<string>, seen: set<string>, outside: seq<Skip>)
    requires i < |lines| && !check("").Accepted? && Seen(lines, i, check, matches, seen, outside)
    ensures var candidate := Strip(lines[i]);
            var verdict := check(candidate);
            && (candidate == "" || (verdict.Accepted? && verdict.path in seen) ==> Seen(lines, i + 1, check, matches, seen, outside))
            && (verdict.Accepted? && verdict.path !in seen ==>
                  Seen(lines, i + 1, check, matches + [verdict.path], seen + {verdict.path}, outside))
            && (candidate != "" && !verdict.Accepted? ==> Seen(lines, i + 1, check, matches, seen, outside + [OutsideWorkspace(candidate)]))
  {
    var verdict := check(Strip(lines[i]));
    OneMoreLine(lines, i, check, verdict);
    if verdict.Accepted? && verdict.path in seen { assert seen + {verdict.path} == seen; }
  }

  /** The match loop of _expand. */
  method MatchLines(lines: seq<string>, check: string -> Verdict) returns (matches: seq<string>, outside: seq<Skip>)
    requires !check("").Accepted?
    ensures matches == Dedup(Validated(lines, check)) && outside == Outsiders(lines, check)
  {
    matches, outside := [], [];
    var seen: set<string> := {};
    for i := 0 to |lines|
      invariant Seen(lines, i, check, matches, seen, outside)
    {
      SeenOneMore(lines, i, check, matches, seen, outside);
      var candidate := Strip(lines[i]);
      if candidate == "" { continue; }
      var verdict := check(candidate);
      if !verdict.Accepted? {
        outside := outside + [OutsideWorkspace(candidate)];
        continue;
      }
      if verdict.path !in seen {
        seen := seen + {verdict.path};
        matches := matches + [verdict.path];
      }
    }
    assert lines[..|lines|] == lines;
  }

  function Checker(workspace: string): string -> Verdict {
    candidate => Validate(candidate, workspace)
  }

  /** The loop over the patterns; `scripts` counts the parts of the search script. */
  method ScreenPatterns(patterns: seq<string>) returns (skipped: seq<Skip>, scripts: nat)
    ensures skipped == Refused(patterns)
    ensures scripts > 0 <==> exists p :: p in patterns && IsRelativePattern(p)
  {
    skipped, scripts := [], 0;
    for i := 0 to |patterns|
      invariant skipped == Refused(patterns[..i])
      invariant scripts > 0 <==> exists p :: p in patterns[..i] && IsRelativePattern(p)
    {
      assert patterns[..i + 1][..i] == patterns[..i] && patterns[..i + 1] == patterns[..i] + [patterns[i]];
      assert patterns[i] in patterns[..i + 1];
      var cleaned := Strip(patterns[i]);
      if cleaned == "" || cleaned[0] == '/' || ".." in Parse(cleaned).parts {
        skipped := skipped + [BadPattern(patterns[i])];
        continue;
      }
      scripts := scripts + 1;
    }
    assert patterns[..|patterns|] == patterns;
  }

  datatype Expansion = Matches(matches: seq<string>, skipped: seq<Skip>) | WorkspaceGone

  /** _expand, with the search's own exit code and output. */
  method Expand(patterns: seq<string>, workspace: string, exitCode: Option<int>, stdout: string) returns (r: Expansion)
    ensures var searched := exists p :: p in patterns && IsRelativePattern(p);
            var matches := Dedup(Validated(Lines(stdout), Checker(workspace)));
            var skipped := Refused(patterns) + Outsiders(Lines(stdout), Checker(workspace));
            r == if !searched then Matches([], Refused(patterns))
                 else if exitCode == Some(3) then WorkspaceGone
                 else Matches(matches, if matches == [] && skipped == [] then [NothingMatched] else skipped)
  {
    var skipped, scripts := ScreenPatterns(patterns);
    if scripts == 0 { return Matches([], skipped); }
    if exitCode == Some(3) { return WorkspaceGone; }
    var matches, outside := MatchLines(Lines(stdout), Checker(workspace));
    skipped := skipped + outside;
    if matches == [] && skipped == [] { skipped := [NothingMatched]; }
    return Matches(matches, skipped);
  }

  lemma {:induction false} ValidatedAre(lines: seq<string>, workspace: string)
    ensures forall x :: x in Validated(lines, Checker(workspace)) ==> IsValidated(x, workspace)
  {
    if lines != [] {
      ValidatedAre(lines[..|lines| - 1], workspace);
      var verdict := Checker(workspace)(Strip(lines[|lines| - 1]));
      if verdict.Accepted? {
        assert Validate(Strip(lines[|lines| - 1]), workspace) == Accepted(verdict.path);
      }
    }
  }

  /** Every match is a validated path, and none comes twice. */
  lemma MatchesAreValidated(lines: seq<string>, workspace: string)
    ensures var matches := Dedup(Validated(lines, Checker(workspace)));
            Distinct(matches) && forall m :: m in matches ==> IsValidated(m, workspace)
  {
    DedupIsDistinct(Validated(lines, Checker(workspace)));
    ValidatedAre(lines, workspace);
  }

  // --- Where they land ------------------------------------------------------------------------------------------

  /** The host path below the experiment's own directory, name by name. */
  function HostPath(artifactsDir: seq<string>, experiment: string, sandboxPath: string, workspace: string): seq<string> {
    var parts, base := Parse(sandboxPath).parts, Parse(workspace).parts;
    artifactsDir + [experiment] + if |base| <= |parts| then parts[|base|..] else []
  }

  predicate NoDots(parts: seq<string>) {
    "." !in parts && ".." !in parts
  }

  ghost predicate IsValidated(path: string, workspace: string) {
    exists raw :: Validate(raw, workspace) == Accepted(path)
  }

  lemma ValidatedShape(path: string, workspace: string)
    requires NormalWorkspace(workspace) && IsValidated(path, workspace)
    ensures var p := Parse(path);
            && path == Render(PurePath("/", p.parts)) && Parse(workspace).parts <= p.parts
            && NoDots(p.parts)
  {
    var raw :| Validate(raw, workspace) == Accepted(path);
    AcceptedIsConfined(raw, workspace);
    ValidateIsWalk(raw, workspace);
  }

  /** A path below the workspace lands at the same path below the experiment's directory. */
  lemma HostPathMirrors(artifactsDir: seq<string>, experiment: string, workspace: string, below: seq<string>)
    requires NormalWorkspace(workspace) && forall c :: c in below ==> Clean(c)
    ensures HostPath(artifactsDir, experiment, Render(PurePath("/", Parse(workspace).parts + below)), workspace) ==
            artifactsDir + [experiment] + below
  {
    ParseRender(Parse(workspace).parts + below);
  }

  /** Every validated path lands in its experiment's directory with no `..` on the way, and strictly below it unless it is the
      workspace itself. */
  lemma HostPathIsConfined(artifactsDir: seq<string>, experiment: string, path: string, workspace: string)
    requires NormalWorkspace(workspace) && IsValidated(path, workspace)
    ensures var host := HostPath(artifactsDir, experiment, path, workspace);
            && artifactsDir + [experiment] <= host
            && (artifactsDir + [experiment] < host <==> path != Render(Parse(workspace)))
            && NoDots(host[|artifactsDir| + 1..])
  {
    ValidatedShape(path, workspace);
    var parts, base := Parse(path).parts, Parse(workspace).parts;
    assert HostPath(artifactsDir, experiment, path, workspace)[|artifactsDir| + 1..] == parts[|base|..];
    assert parts == base + parts[|base|..];
    assert Parse(workspace) == PurePath("/", base);
    ParseRender(base);
    assert path == Render(PurePath("/", base)) <==> parts == base;
    assert |HostPath(artifactsDir, experiment, path, workspace)| == |artifactsDir + [experiment]| + |parts| - |base|;
    assert |parts| == |base| ==> parts == base;
  }

  /** Different files, or different experiments, never share a host path. */
  lemma HostPathsAreDistinct(artifactsDir: seq<string>, e: string, p: string, f: string, q: string, workspace: string)
    requires NormalWorkspace(workspace) && IsValidated(p, workspace) && IsValidated(q, workspace)
    ensures HostPath(artifactsDir, e, p, workspace) == HostPath(artifactsDir, f, q, workspace) <==> e == f && p == q
  {
    ValidatedShape(p, workspace);
    ValidatedShape(q, workspace);
    var base, n := Parse(workspace).parts, |artifactsDir|;
    var a, b := HostPath(artifactsDir, e, p, workspace), HostPath(artifactsDir, f, q, workspace);
    if a == b {
      assert a[n] == e && b[n] == f;
      assert a[n + 1..] == Parse(p).parts[|base|..] && b[n + 1..] == Parse(q).parts[|base|..];
      assert Parse(p).parts == base + Parse(p).parts[|base|..] && Parse(q).parts == base + Parse(q).parts[|base|..];
    }
  }

  // --- Fetching -------------------------------------------------------------------------------------------------

  type Disk = map<seq<string>, Bytes>

  /** The sandbox's answer to read_file, the digest, and where a path lands on the host. */
  datatype Source = Source(
    read: string -> Option<Bytes>, hash: Bytes -> string, place: string -> seq<string>)

  function Readable(matches: seq<string>, source: Source): seq<string> {
    if matches == [] then []
    else
      var before, last := Readable(matches[..|matches| - 1], source), matches[|matches| - 1];
      if source.read(last).Some? then before + [last] else before
  }

  function Failures(matches: seq<string>, source: Source): seq<Skip> {
    if matches == [] then []
    else
      var before, last := Failures(matches[..|matches| - 1], source), matches[|matches| - 1];
      if source.read(last).Some? then before else before + [Unreadable(last)]
  }

  /** How many matches are looked at before the limit stops the loop. */
  function CutOff(matches: seq<string>, source: Source, limit: nat): (n: nat)
    ensures n <= |matches|
  {
    if matches == [] || limit == 0 then 0
    else 1 + CutOff(matches[1..], source, if source.read(matches[0]).Some? then limit - 1 else limit)
  }

  function Fetched(path: string, source: Source): Artifact
    requires source.read(path).Some?
  {
    var payload := source.read(path).value;
    Artifact(path, source.place(path), |payload|, source.hash(payload))
  }

  /** The artifacts are exactly those of the readable paths, in order. */
  ghost predicate AreFetched(artifacts: seq<Artifact>, paths: seq<string>, source: Source) {
    |artifacts| == |paths| && forall i :: 0 <= i < |paths| ==> source.read(paths[i]).Some? && artifacts[i] == Fetched(paths[i], source)
  }

  function SizeSum(artifacts: seq<Artifact>): nat {
    if artifacts == [] then 0 else SizeSum(artifacts[..|artifacts| - 1]) + artifacts[|artifacts| - 1].size
  }

  /** Each artifact's file holds its payload, and no other file of the disk is touched. */
  ghost predicate Stored(disk: Disk, was: Disk, artifacts: seq<Artifact>, source: Source) {
    && (forall a :: a in artifacts ==>
          a.hostPath in disk && Some(disk[a.hostPath]) == source.read(a.sandboxPath) && a.size == |disk[a.hostPath]|
          && a.sha256 == source.hash(disk[a.hostPath]))
    && (forall h :: h in disk && (forall a :: a in artifacts ==> a.hostPath != h) ==> h in was && disk[h] == was[h])
    && (forall h :: h in was ==> h in disk)
  }

  lemma OneMoreMatch(matches: seq<string>, i: nat, source: Source)
    requires i < |matches|
    ensures source.read(matches[i]).Some? ==>
              && Readable(matches[..i + 1], source) == Readable(matches[..i], source) + [matches[i]]
              && Failures(matches[..i + 1], source) == Failures(matches[..i], source)
    ensures source.read(matches[i]).None? ==>
              && Readable(matches[..i + 1], source) == Readable(matches[..i], source)
              && Failures(matches[..i + 1], source) == Failures(matches[..i], source) + [Unreadable(matches[i])]
  {
    assert matches[..i + 1][..i] == matches[..i];
  }

  lemma {:induction false} ReadableAre(matches: seq<string>, source: Source)
    ensures forall m :: m in Readable(matches, source) <==> m in matches && source.read(m).Some?
    ensures forall m :: Unreadable(m) in Failures(matches, source) <==> m in matches && source.read(m).None?
    ensures |Readable(matches, source)| <= |matches|
  {
    if matches != [] {
      ReadableAre(matches[..|matches| - 1], source);
      assert matches == matches[..|matches| - 1] + [matches[|matches| - 1]];
    }
  }

  /** Storing one more file under a new path. */
  lemma StoreOneMore(disk: Disk, was: Disk, artifacts: seq<Artifact>, path: string, source: Source)
    requires Stored(disk, was, artifacts, source) && source.read(path).Some?
    requires forall a :: a in artifacts ==> a.hostPath != Fetched(path, source).hostPath
    ensures var made := Fetched(path, source);
            Stored(disk[made.hostPath := source.read(path).value], was, artifacts + [made], source)
  {
    var made := Fetched(path, source);
    assert made in artifacts + [made];
  }

  lemma FetchOneMore(artifacts: seq<Artifact>, paths: seq<string>, path: string, source: Source)
    requires AreFetched(artifacts, paths, source) && source.read(path).Some?
    ensures AreFetched(artifacts + [Fetched(path, source)], paths + [path], source)
    ensures SizeSum(artifacts + [Fetched(path, source)]) == SizeSum(artifacts) + Fetched(path, source).size
  {
    assert (artifacts + [Fetched(path, source)])[..|artifacts|] == artifacts;
  }

  /** No two matches land in the same place. */
  ghost predicate PlacedApart(matches: seq<string>, source: Source) {
    forall i, j :: 0 <= i < j < |matches| ==> source.place(matches[i]) != source.place(matches[j])
  }

  /** Where the collect loop puts an experiment's artifacts. */
  function Placing(artifactsDir: seq<string>, experiment: string, workspace: string): string -> seq<string> {
    path => HostPath(artifactsDir, experiment, path, workspace)
  }

  /** The matches _expand hands over always land apart. */
  lemma MatchesArePlacedApart(lines: seq<string>, artifactsDir: seq<string>, experiment: string, workspace: string, source: Source)
    requires NormalWorkspace(workspace) && source.place == Placing(artifactsDir, experiment, workspace)
    ensures PlacedApart(Dedup(Validated(lines, Checker(workspace))), source)
  {
    var matches := Dedup(Validated(lines, Checker(workspace)));
    MatchesAreValidated(lines, workspace);
    forall i, j | 0 <= i < j < |matches| ensures source.place(matches[i]) != source.place(matches[j]) {
      assert matches[i] in matches && matches[j] in matches;
      HostPathsAreDistinct(artifactsDir, experiment, matches[i], experiment, matches[j], workspace);
    }
  }

  lemma NewHostPath(matches: seq<string>, i: nat, artifacts: seq<Artifact>, source: Source)
    requires PlacedApart(matches, source) && i < |matches|
    requires AreFetched(artifacts, Readable(matches[..i], source), source)
    ensures forall a :: a in artifacts ==> a.hostPath != source.place(matches[i])
  {
    ReadableAre(matches[..i], source);
    forall a | a in artifacts ensures a.hostPath != source.place(matches[i]) {
      var k :| 0 <= k < |artifacts| && artifacts[k] == a;
      assert a.sandboxPath == Readable(matches[..i], source)[k];
      var j :| 0 <= j < i && matches[j] == a.sandboxPath;
    }
  }

  /** Where the collect loop stands after i matches. */
  ghost predicate Collected(matches: seq<string>, i: nat, source: Source, limit: nat,
      artifacts: seq<Artifact>, failures: seq<Skip>, totalBytes: nat)
  {
    && i <= |matches| && |artifacts| <= limit
    && AreFetched(artifacts, Readable(matches[..i], source), source)
    && failures == Failures(matches[..i], source)
    && CutOff(matches, source, limit) == i + CutOff(matches[i..], source, limit - |artifacts|)
    && totalBytes == SizeSum(artifacts)
  }

  lemma CutOffMoves(matches: seq<string>, i: nat, source: Source, left: nat)
    requires i < |matches| && left > 0
    ensures CutOff(matches[i..], source, left) ==
            1 + CutOff(matches[i + 1..], source, if source.read(matches[i]).Some? then left - 1 else left)
  {
    assert matches[i..][1..] == matches[i + 1..];
  }

  lemma FailureMoves(matches: seq<string>, i: nat, source: Source, limit: nat,
      artifacts: seq<Artifact>, failures: seq<Skip>, totalBytes: nat)
    requires Collected(matches, i, source, limit, artifacts, failures, totalBytes)
    requires i < |matches| && |artifacts| < limit && source.read(matches[i]).None?
    ensures Collected(matches, i + 1, source, limit, artifacts, failures + [Unreadable(matches[i])], totalBytes)
  {
    OneMoreMatch(matches, i, source);
    CutOffMoves(matches, i, source, limit - |artifacts|);
  }

  lemma FetchMoves(matches: seq<string>, i: nat, source: Source, limit: nat,
      artifacts: seq<Artifact>, failures: seq<Skip>, totalBytes: nat)
    requires Collected(matches, i, source, limit, artifacts, failures, totalBytes)
    requires i < |matches| && |artifacts| < limit && source.read(matches[i]).Some?
    ensures var made := Fetched(matches[i], source);
            Collected(matches, i + 1, source, limit, artifacts + [made], failures, totalBytes + made.size)
  {
    OneMoreMatch(matches, i, source);
    CutOffMoves(matches, i, source, limit - |artifacts|);
    FetchOneMore(artifacts, Readable(matches[..i], source), matches[i], source);
  }

  lemma StoreMoves(matches: seq<string>, i: nat, source: Source, limit: nat, was: Disk,
      artifacts: seq<Artifact>, failures: seq<Skip>, totalBytes: nat, disk: Disk)
    requires PlacedApart(matches, source)
    requires Collected(matches, i, source, limit, artifacts, failures, totalBytes) && Stored(disk, was, artifacts, source)
    requires i < |matches| && source.read(matches[i]).Some?
    ensures var made := Fetched(matches[i], source);
            Stored(disk[made.hostPath := source.read(matches[i]).value], was, artifacts + [made], source)
  {
    NewHostPath(matches, i, artifacts, source);
    StoreOneMore(disk, was, artifacts, matches[i], source);
  }

  lemma CollectedNothing(matches: seq<string>, source: Source, limit: nat, was: Disk)
    ensures Collected(matches, 0, source, limit, [], [], 0) && Stored(was, was, [], source)
  {
    assert matches[0..] == matches;
  }

  /** The collect loop. */
  method Collect(matches: seq<string>, skippedSoFar: seq<Skip>, source: Source, limit: nat, was: Disk)
    returns (artifacts: seq<Artifact>, skipped: seq<Skip>, totalBytes: nat, disk: Disk)
    requires PlacedApart(matches, source)
    ensures var cut := CutOff(matches, source, limit);
            && AreFetched(artifacts, Readable(matches[..cut], source), source) && |artifacts| <= limit
            && skipped == skippedSoFar + Failures(matches[..cut], source) + if cut < |matches| then [LimitReached(matches[cut])] else []
    ensures totalBytes == SizeSum(artifacts)
    ensures Stored(disk, was, artifacts, source)
  {
    artifacts, skipped, totalBytes, disk := [], skippedSoFar, 0, was;
    ghost var failures: seq<Skip> := [];
    CollectedNothing(matches, source, limit, was);
    var i := 0;
    while i < |matches|
      invariant Collected(matches, i, source, limit, artifacts, failures, totalBytes)
      invariant Stored(disk, was, artifacts, source)
      invariant skipped == skippedSoFar + failures
    {
      var path := matches[i];
      if |artifacts| >= limit {
        skipped := skipped + [LimitReached(path)];
        return;
      }
      var payload := source.read(path);
      if payload.None? {
        FailureMoves(matches, i, source, limit, artifacts, failures, totalBytes);
        skipped, failures := skipped + [Unreadable(path)], failures + [Unreadable(path)];
      } else {
        FetchMoves(matches, i, source, limit, artifacts, failures, totalBytes);
        StoreMoves(matches, i, source, limit, was, artifacts, failures, totalBytes, disk);
        var artifact := Fetched(path, source);
        disk := disk[artifact.hostPath := payload.value];
        artifacts, totalBytes := artifacts + [artifact], totalBytes + artifact.size;
      }
      i := i + 1;
    }
  }

  lemma {:induction false} CutOffReadable(matches: seq<string>, source: Source, limit: nat)
    ensures var cut := CutOff(matches, source, limit);
            && |Readable(matches[..cut], source)| <= limit
            && (cut < |matches| ==> |Readable(matches[..cut], source)| == limit)
  {
    if matches == [] || limit == 0 {
    } else {
      var rest, left := matches[1..], if source.read(matches[0]).Some? then limit - 1 else limit;
      var cut := CutOff(rest, source, left);
      CutOffReadable(rest, source, left);
      ReadableCons(matches[0], rest[..cut], source);
      assert matches[..cut + 1] == [matches[0]] + rest[..cut];
    }
  }

  /** Failures are noted in the order of the matches. */
  lemma {:induction false} FailuresConcat(a: seq<string>, b: seq<string>, source: Source)
    ensures Failures(a + b, source) == Failures(a, source) + Failures(b, source)
    ensures forall m :: Failures([m], source) == if source.read(m).Some? then [] else [Unreadable(m)]
  {
    forall m ensures Failures([m], source) == if source.read(m).Some? then [] else [Unreadable(m)] {
      assert [m][..0] == [];
    }
    if b == [] {
      assert a + b == a;
    } else {
      FailuresConcat(a, b[..|b| - 1], source);
      assert (a + b)[..|a + b| - 1] == a + b[..|b| - 1];
    }
  }

  lemma {:induction false} ReadableCons(first: string, rest: seq<string>, source: Source)
    ensures Readable([first] + rest, source) == (if source.read(first).Some? then [first] else []) + Readable(rest, source)
  {
    var all := [first] + rest;
    if rest == [] {
      assert all[..0] == [];
    } else {
      ReadableCons(first, rest[..|rest| - 1], source);
      assert all[..|all| - 1] == [first] + rest[..|rest| - 1];
    }
  }

  /** Every match before the cut-off is either collected or skipped, never both; matches are only cut off at a full limit. */
  lemma EveryMatchIsAccountedFor(matches: seq<string>, source: Source, limit: nat, artifacts: seq<Artifact>, m: string)
    requires var cut := CutOff(matches, source, limit);
             AreFetched(artifacts, Readable(matches[..cut], source), source) && m in matches[..cut]
    ensures (exists a :: a in artifacts && a.sandboxPath == m) <==> Unreadable(m) !in Failures(matches[..CutOff(matches, source, limit)], source)
    ensures CutOff(matches, source, limit) < |matches| ==> |artifacts| == limit
  {
    var cut := CutOff(matches, source, limit);
    ReadableAre(matches[..cut], source);
    CutOffReadable(matches, source, limit);
    if source.read(m).Some? {
      var k :| 0 <= k < |Readable(matches[..cut], source)| && Readable(matches[..cut], source)[k] == m;
      assert artifacts[k] in artifacts;
    }
  }
}
