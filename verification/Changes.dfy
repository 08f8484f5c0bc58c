/** compute_changes: what differs between two manifests, with line statistics for as many files as the budget allows. */
module Changes {
  import opened Common
  import opened Options
  import opened Paths
  import opened Patterns
  import opened Manifests

  // --- sorted() -------------------------------------------------------------------------------------------------

  /** Python's order on str: code points, left to right. */
  predicate Leq(a: string, b: string) {
    a == "" || (b != "" && (a[0] < b[0] || (a[0] == b[0] && Leq(a[1..], b[1..]))))
  }

  lemma {:induction false} LeqTotal(a: string, b: string)
    ensures Leq(a, b) || Leq(b, a)
    ensures Leq(a, b) && Leq(b, a) ==> a == b
  {
    if a != "" && b != "" {
      LeqTotal(a[1..], b[1..]);
      assert a == [a[0]] + a[1..] && b == [b[0]] + b[1..];
    }
  }

  lemma {:induction false} LeqTransitive(a: string, b: string, c: string)
    requires Leq(a, b) && Leq(b, c)
    ensures Leq(a, c)
  {
    if a != "" && a[0] == b[0] == c[0] { LeqTransitive(a[1..], b[1..], c[1..]); }
  }

  ghost predicate IsLeast(m: string, s: set<string>) {
    m in s && forall x :: x in s ==> Leq(m, x)
  }

  lemma {:induction false} HasLeast(s: set<string>) returns (m: string)
    requires s != {}
    ensures IsLeast(m, s)
    decreases |s|
  {
    var x :| x in s;
    LeqTotal(x, x);
    var rest := s - {x};
    if rest == {} {
      m := x;
      assert s == {x};
    } else {
      var least := HasLeast(rest);
      LeqTotal(x, least);
      m := if Leq(x, least) then x else least;
      forall y | y in s ensures Leq(m, y) {
        if y != x && m == x { LeqTransitive(x, least, y); }
      }
    }
  }

  ghost predicate Ascending(xs: seq<string>) {
    forall i, j :: 0 <= i < j < |xs| ==> Leq(xs[i], xs[j]) && xs[i] != xs[j]
  }

  ghost predicate IsSorted(xs: seq<string>, s: set<string>) {
    Ascending(xs) && forall x :: x in xs <==> x in s
  }

  lemma SortedEmpty(xs: seq<string>, s: set<string>)
    requires IsSorted(xs, s)
    ensures xs == [] <==> s == {}
  {
    if xs != [] { assert xs[0] in s; }
    if s != {} { var x :| x in s; }
  }

  /** There is one sorted list of a set. */
  lemma {:induction false} SortedUnique(xs: seq<string>, ys: seq<string>, s: set<string>)
    requires IsSorted(xs, s) && IsSorted(ys, s)
    ensures xs == ys
  {
    SortedEmpty(xs, s);
    SortedEmpty(ys, s);
    if xs != [] {
      assert xs[0] in s && ys[0] in s;
      LeqTotal(xs[0], ys[0]);
      SortedTail(xs, s);
      SortedTail(ys, s);
      SortedUnique(xs[1..], ys[1..], s - {xs[0]});
    }
  }

  lemma SortedTail(xs: seq<string>, s: set<string>)
    requires IsSorted(xs, s) && xs != []
    ensures IsSorted(xs[1..], s - {xs[0]})
    ensures IsLeast(xs[0], s)
  {
    assert forall i :: 0 <= i < |xs| - 1 ==> xs[1..][i] == xs[i + 1];
    assert xs == [xs[0]] + xs[1..];
    LeqTotal(xs[0], xs[0]);
  }

  /** sorted(), by repeated choice of the least. */
  method SortPaths(s: set<string>) returns (xs: seq<string>)
    ensures IsSorted(xs, s)
  {
    xs := [];
    var rest := s;
    while rest != {}
      invariant rest <= s && IsSorted(xs, s - rest)
      invariant forall x, y :: x in xs && y in rest ==> Leq(x, y)
      decreases rest
    {
      ghost var least := HasLeast(rest);
      var m :| m in rest && forall x :: x in rest ==> Leq(m, x);
      xs, rest := xs + [m], rest - {m};
    }
    assert s - {} == s;
  }

  // --- One file -------------------------------------------------------------------------------------------------

  datatype ChangeType = Created | Modified | Deleted

  datatype FileChange = FileChange(
    path: string, kind: ChangeType, size: Option<nat>, binary: bool, insertions: nat, deletions: nat, diff: Option<string>)

  /** What the comparison reads and how: the snapshot and the sandbox file by file, whether bytes decode as UTF-8, and the
      diff text with its line counts. */
  datatype Sources = Sources(
    snapshot: Option<map<string, Bytes>>, sandbox: string -> Option<Bytes>, decodes: Bytes -> bool,
    diff: (string, Bytes, Bytes) -> (string, nat, nat), includeDiff: bool, maxFileBytes: int)

  const BINARY_SNIFF_BYTES := 8000

  predicate IsBinary(payload: Bytes, decodes: Bytes -> bool) {
    var head := if |payload| <= BINARY_SNIFF_BYTES then payload else payload[..BINARY_SNIFF_BYTES];
    0 in head || !decodes(head)
  }

  function ReadBaseline(path: string, sources: Sources): Option<Bytes> {
    match sources.snapshot
    case None => None
    case Some(files) => if path in files && |files[path]| <= sources.maxFileBytes then Some(files[path]) else None
  }

  function Content(b: Option<Bytes>): Bytes {
    match b case None => [] case Some(bytes) => bytes
  }

  function BuildChange(path: string, kind: ChangeType, before: Option<Bytes>, after: Option<Bytes>, sources: Sources): FileChange {
    var payload := if after.Some? then after else before;
    var size := match after case None => None case Some(bytes) => Some(|bytes|);
    match payload
    case None => FileChange(path, kind, size, false, 0, 0, None)
    case Some(bytes) =>
      if |bytes| > sources.maxFileBytes then FileChange(path, kind, size, false, 0, 0, None)
      else if IsBinary(bytes, sources.decodes) then FileChange(path, kind, size, true, 0, 0, None)
      else
        var (text, insertions, deletions) := sources.diff(path, Content(before), Content(after));
        FileChange(path, kind, size, false, insertions, deletions, if sources.includeDiff then Some(text) else None)
  }

  function Detail(path: string, kind: ChangeType, sources: Sources): FileChange {
    BuildChange(path, kind, ReadBaseline(path, sources), if kind == Deleted then None else sources.sandbox(path), sources)
  }

  /** Asking for diffs adds their text and changes nothing else. */
  lemma DiffTextIsAllThatIsAdded(path: string, kind: ChangeType, sources: Sources)
    ensures Detail(path, kind, sources.(includeDiff := true)).(diff := None) == Detail(path, kind, sources.(includeDiff := false))
    ensures Detail(path, kind, sources.(includeDiff := true)).diff.Some? ==> !Detail(path, kind, sources).binary
  {
  }

  /** A deleted file is described without looking into the sandbox, and a changed one with no readable copy at all is still
      reported, with nothing known about it. */
  lemma DeletedIgnoresSandbox(path: string, sources: Sources, other: string -> Option<Bytes>)
    ensures Detail(path, Deleted, sources) == Detail(path, Deleted, sources.(sandbox := other))
    ensures ReadBaseline(path, sources).None? ==> Detail(path, Deleted, sources) == FileChange(path, Deleted, None, false, 0, 0, None)
  {
  }

  /** What is said of one file.  The new copy comes from the sandbox unless the file was deleted, the old one from the snapshot
      if it is there and not too long; the size is the new copy's.  Lines are counted from the old to the new copy, exactly
      if there is a copy, it is not too long, and its first 8000 bytes hold no NUL and decode. */
  lemma DetailInWords(path: string, kind: ChangeType, sources: Sources)
    ensures var change := Detail(path, kind, sources);
            var after := if kind == Deleted then None else sources.sandbox(path);
            var earlier := if sources.snapshot.Some? && path in sources.snapshot.value && |sources.snapshot.value[path]| <= sources.maxFileBytes
                       then Some(sources.snapshot.value[path]) else None;
            var shown := if after.Some? then after else earlier;
            var text := shown.Some? && |shown.value| <= sources.maxFileBytes && IsText(shown.value, sources.decodes);
            && change.path == path && change.kind == kind
            && (change.size.Some? <==> after.Some?) && (after.Some? ==> change.size == Some(|after.value|))
            && (change.binary <==> shown.Some? && |shown.value| <= sources.maxFileBytes && !IsText(shown.value, sources.decodes))
            && (text ==> var told := sources.diff(path, if earlier.Some? then earlier.value else [], if after.Some? then after.value else []);
                         && change.insertions == told.1 && change.deletions == told.2
                         && change.diff == if sources.includeDiff then Some(told.0) else None)
            && (!text ==> change.insertions == 0 && change.deletions == 0 && change.diff == None)
  {
    forall payload: Bytes ensures IsBinary(payload, sources.decodes) <==> !IsText(payload, sources.decodes) {
      TextOrBinary(payload, sources.decodes);
    }
  }

  lemma TextOrBinary(payload: Bytes, decodes: Bytes -> bool)
    ensures IsBinary(payload, decodes) <==> !IsText(payload, decodes)
  {
    var n := Min(8000, |payload|);
    var head := if |payload| <= 8000 then payload else payload[..8000];
    assert head == payload[..n];
    assert forall i :: 0 <= i < n ==> head[i] == payload[i];
  }

  /** No NUL among the first 8000 bytes, and they decode. */
  predicate IsText(payload: Bytes, decodes: Bytes -> bool) {
    var n := Min(8000, |payload|);
    (forall i :: 0 <= i < n ==> payload[i] != 0) && decodes(payload[..n])
  }

  // --- The whole change set -------------------------------------------------------------------------------------

  datatype ChangeSet = ChangeSet(
    created: seq<string>, modified: seq<string>, deleted: seq<string>,
    changes: seq<FileChange>, insertions: nat, deletions: nat, truncated: bool)

  function Tagged(paths: seq<string>, kind: ChangeType): seq<(string, ChangeType)> {
    seq(|paths|, i requires 0 <= i < |paths| => (paths[i], kind))
  }

  /** The order in which files get their line statistics. */
  function Queue(cs: ChangeSet): seq<(string, ChangeType)> {
    Tagged(cs.modified, Modified) + Tagged(cs.created, Created) + Tagged(cs.deleted, Deleted)
  }

  /** Modified files come first, then created, then deleted ones, each in the order of its list. */
  lemma QueueInWords(cs: ChangeSet)
    ensures |Queue(cs)| == |cs.modified| + |cs.created| + |cs.deleted|
    ensures forall i :: 0 <= i < |cs.modified| ==> Queue(cs)[i] == (cs.modified[i], Modified)
    ensures forall i :: 0 <= i < |cs.created| ==> Queue(cs)[|cs.modified| + i] == (cs.created[i], Created)
    ensures forall i :: 0 <= i < |cs.deleted| ==> Queue(cs)[|cs.modified| + |cs.created| + i] == (cs.deleted[i], Deleted)
  {
  }

  function Insertions(changes: seq<FileChange>): nat {
    if changes == [] then 0 else Insertions(changes[..|changes| - 1]) + changes[|changes| - 1].insertions
  }

  function Deletions(changes: seq<FileChange>): nat {
    if changes == [] then 0 else Deletions(changes[..|changes| - 1]) + changes[|changes| - 1].deletions
  }

  /** The lists hold the right paths in order. */
  ghost predicate Lists3(cs: ChangeSet, baseline: map<string, Fingerprint>, current: map<string, Fingerprint>) {
    && IsSorted(cs.created, current.Keys - baseline.Keys)
    && IsSorted(cs.deleted, baseline.Keys - current.Keys)
    && IsSorted(cs.modified, set p | p in baseline && p in current && baseline[p].digest != current[p].digest)
  }

  /** The first k files of the queue are detailed, and the totals add them up. */
  ghost predicate Detailed(cs: ChangeSet, k: nat, sources: Sources) {
    && k <= |Queue(cs)| && |cs.changes| == k
    && (forall i :: 0 <= i < k ==> cs.changes[i] == Detail(Queue(cs)[i].0, Queue(cs)[i].1, sources))
    && cs.insertions == Insertions(cs.changes)
    && cs.deletions == Deletions(cs.changes)
  }

  lemma OneMoreDetail(cs: ChangeSet, i: nat, change: FileChange, sources: Sources)
    requires Detailed(cs, i, sources) && i < |Queue(cs)| && change == Detail(Queue(cs)[i].0, Queue(cs)[i].1, sources)
    ensures Detailed(cs.(changes := cs.changes + [change], insertions := cs.insertions + change.insertions,
                         deletions := cs.deletions + change.deletions), i + 1, sources)
  {
    assert (cs.changes + [change])[..i] == cs.changes;
  }

  function Budget(maxFilesWithDiff: int): nat { if maxFilesWithDiff < 0 then 0 else maxFilesWithDiff }

  method ComputeChanges(baseline: map<string, Fingerprint>, current: map<string, Fingerprint>, sources: Sources, maxFilesWithDiff: int)
    returns (cs: ChangeSet)
    ensures Lists3(cs, baseline, current)
    ensures Detailed(cs, Min(Budget(maxFilesWithDiff), |Queue(cs)|), sources)
    ensures cs.truncated <==> |cs.modified| + |cs.created| + |cs.deleted| > Budget(maxFilesWithDiff)
    ensures cs.truncated <==> |cs.changes| < |cs.modified| + |cs.created| + |cs.deleted|
    ensures |cs.changes| <= maxFilesWithDiff || cs.changes == []
    ensures cs.truncated ==> |cs.changes| == maxFilesWithDiff || maxFilesWithDiff < 0
  {
    var created := SortPaths(current.Keys - baseline.Keys);
    var deleted := SortPaths(baseline.Keys - current.Keys);
    var modified := SortPaths(set p | p in baseline && p in current && baseline[p].digest != current[p].digest);
    cs := ChangeSet(created, modified, deleted, [], 0, 0, false);
    var queue := Queue(cs);
    var budget := maxFilesWithDiff;
    var i := 0;
    while i < |queue|
      invariant 0 <= i <= |queue| && queue == Queue(cs)
      invariant Lists3(cs, baseline, current) && Detailed(cs, i, sources) && !cs.truncated
      invariant budget == maxFilesWithDiff - i && i <= Budget(maxFilesWithDiff)
    {
      if budget <= 0 {
        cs := cs.(truncated := true);
        break;
      }
      budget := budget - 1;
      var (path, kind) := queue[i];
      var before := ReadBaseline(path, sources);
      var after := if kind == Deleted then None else sources.sandbox(path);
      var change := BuildChange(path, kind, before, after, sources);
      OneMoreDetail(cs, i, change, sources);
      cs := cs.(changes := cs.changes + [change], insertions := cs.insertions + change.insertions,
                deletions := cs.deletions + change.deletions);
      i := i + 1;
    }
  }

  /** Asking for diffs changes no list, no count and no total: of each detailed file at most the text differs. */
  lemma DiffsChangeOnlyText(plain: ChangeSet, full: ChangeSet, k: nat, sources: Sources)
    requires Detailed(plain, k, sources.(includeDiff := false)) && Detailed(full, k, sources.(includeDiff := true))
    requires Queue(plain) == Queue(full)
    ensures plain.insertions == full.insertions && plain.deletions == full.deletions
    ensures forall i :: 0 <= i < k ==> full.changes[i].(diff := None) == plain.changes[i]
  {
    forall i | 0 <= i < k ensures full.changes[i].(diff := None) == plain.changes[i] {
      DiffTextIsAllThatIsAdded(Queue(full)[i].0, Queue(full)[i].1, sources);
    }
    TotalsIgnoreText(plain.changes, full.changes);
  }

  lemma {:induction false} TotalsIgnoreText(plain: seq<FileChange>, full: seq<FileChange>)
    requires |plain| == |full| && forall i :: 0 <= i < |plain| ==> full[i].(diff := None) == plain[i]
    ensures Insertions(plain) == Insertions(full) && Deletions(plain) == Deletions(full)
  {
    if plain != [] { TotalsIgnoreText(plain[..|plain| - 1], full[..|full| - 1]); }
  }

  /** Of the sandbox only the created and modified files matter: what deleted names read as is never asked. */
  lemma DeletedAreNotRead(cs: ChangeSet, k: nat, sources: Sources, other: string -> Option<Bytes>)
    requires Detailed(cs, k, sources) && forall p :: p in cs.created || p in cs.modified ==> other(p) == sources.sandbox(p)
    ensures Detailed(cs, k, sources.(sandbox := other))
  {
    forall i | 0 <= i < k ensures cs.changes[i] == Detail(Queue(cs)[i].0, Queue(cs)[i].1, sources.(sandbox := other)) {
      var (path, kind) := Queue(cs)[i];
      if kind == Deleted { DeletedIgnoresSandbox(path, sources, other); }
    }
  }

  /** The three lists are disjoint, and applying them to the baseline's digests gives exactly the current digests. */
  function Applied(cs: ChangeSet, baseline: map<string, Fingerprint>, current: map<string, Fingerprint>): map<string, string>
    requires forall p :: p in cs.created + cs.modified ==> p in current
  {
    map p | p in baseline.Keys + (set p | p in cs.created) && p !in cs.deleted
      :: if p in cs.created || p in cs.modified then current[p].digest else baseline[p].digest
  }

  lemma ChangesTurnBaselineIntoCurrent(cs: ChangeSet, baseline: map<string, Fingerprint>, current: map<string, Fingerprint>)
    requires Lists3(cs, baseline, current)
    ensures forall p :: !(p in cs.created && p in cs.modified) && !(p in cs.created && p in cs.deleted) && !(p in cs.modified && p in cs.deleted)
    ensures forall p :: p in cs.created + cs.modified ==> p in current
    ensures Applied(cs, baseline, current) == Digests(current)
  {
    assert forall p :: p in cs.created + cs.modified <==> p in cs.created || p in cs.modified;
  }

  /** Nothing changed exactly if the digests agree. */
  lemma NoChangesExactly(cs: ChangeSet, baseline: map<string, Fingerprint>, current: map<string, Fingerprint>)
    requires Lists3(cs, baseline, current)
    ensures |Queue(cs)| == 0 <==> Digests(baseline) == Digests(current)
  {
    if |Queue(cs)| == 0 {
      assert forall p :: p !in cs.created && p !in cs.modified && p !in cs.deleted;
      assert Digests(baseline).Keys == baseline.Keys && Digests(current).Keys == current.Keys;
    } else {
      var (p, kind) := Queue(cs)[0];
      assert p in cs.created || p in cs.modified || p in cs.deleted;
      assert p in current <==> p in Digests(current);
      assert p in baseline <==> p in Digests(baseline);
    }
  }

  // --- From files to change set ---------------------------------------------------------------------------------

  ghost predicate TellsApart(hash: string -> string, a: map<Path, string>, b: map<Path, string>) {
    forall p :: p in a && p in b && hash(a[p]) == hash(b[p]) ==> a[p] == b[p]
  }

  /** Between two readings of the workspace, each by whichever route, the lists name exactly the files that were really
      created, edited or deleted and that no pattern matches. */
  lemma ChangesAreTheEdits(cs: ChangeSet, excludes: seq<Pattern>, hash: string -> string, base: string, p: Path,
      before: map<Path, string>, outcome0: Outcome, members0: seq<Member>, listing0: seq<Path>,
      after: map<Path, string>, outcome1: Outcome, members1: seq<Member>, listing1: seq<Path>)
    requires Reports(outcome0, members0, base, listing0, before, excludes, hash) && PruningHarmless(outcome0, before, excludes) && NamesPrintable(outcome0, listing0)
    requires Reports(outcome1, members1, base, listing1, after, excludes, hash) && PruningHarmless(outcome1, after, excludes) && NamesPrintable(outcome1, listing1)
    requires var r0, r1 := ReadingOf(outcome0, members0, excludes, hash), ReadingOf(outcome1, members1, excludes, hash);
             r0.Read? && r1.Read? && Lists3(cs, r0.manifest, r1.manifest)
    requires TellsApart(hash, before, after)
    requires p != [] && (forall c :: c in p ==> Clean(c)) && !Excluded(p, excludes)
    ensures Join(p) in cs.created <==> p in after && p !in before
    ensures Join(p) in cs.deleted <==> p in before && p !in after
    ensures Join(p) in cs.modified <==> p in before && p in after && before[p] != after[p]
  {
    ReadingIsFlatExactly(outcome0, members0, base, listing0, before, excludes, hash);
    ReadingIsFlatExactly(outcome1, members1, base, listing1, after, excludes, hash);
    FlatChangesAreTheEdits(cs, ReadingOf(outcome0, members0, excludes, hash).manifest, ReadingOf(outcome1, members1, excludes, hash).manifest,
                           before, after, excludes, hash, p);
  }

  lemma FlatChangesAreTheEdits(cs: ChangeSet, baseline: map<string, Fingerprint>, current: map<string, Fingerprint>,
      before: map<Path, string>, after: map<Path, string>, excludes: seq<Pattern>, hash: string -> string, p: Path)
    requires IsWorkspace(before) && IsFlat(baseline, before, excludes, hash)
    requires IsWorkspace(after) && IsFlat(current, after, excludes, hash)
    requires Lists3(cs, baseline, current) && TellsApart(hash, before, after)
    requires p != [] && (forall c :: c in p ==> Clean(c)) && !Excluded(p, excludes)
    ensures Join(p) in cs.created <==> p in after && p !in before
    ensures Join(p) in cs.deleted <==> p in before && p !in after
    ensures Join(p) in cs.modified <==> p in before && p in after && before[p] != after[p]
  {
    InManifest(baseline, before, excludes, hash, p);
    InManifest(current, after, excludes, hash, p);
  }

  lemma InManifest(manifest: map<string, Fingerprint>, files: map<Path, string>, excludes: seq<Pattern>, hash: string -> string, p: Path)
    requires IsWorkspace(files) && IsFlat(manifest, files, excludes, hash)
    requires p != [] && (forall c :: c in p ==> Clean(c)) && !Excluded(p, excludes)
    ensures Join(p) in manifest <==> p in files
    ensures p in files ==> manifest[Join(p)].digest == hash(files[p])
  {
    if Join(p) in manifest {
      var q :| q in files && !Excluded(q, excludes) && Join(q) == Join(p);
      JoinInjective(p, q);
    }
  }
}
