/** ProjectSnapshotter.snapshot: a walk over the project that never enters an excluded directory, against the plain
    statement of what it must copy. A path is its list of names; the manifest's text keys are their joins. */
module Snapshots {
  import opened Options
  import opened Paths
  import opened Patterns

  type Path = seq<string>

  /** What os.walk can meet. It lists a link to a directory with the directories but does not follow it. */
  datatype Node =
    | Dir(children: map<string, Node>)
    | DirLink
    | File(size: nat, digest: string)
    | Link(target: string)
    | Special

  datatype Fingerprint = Fingerprint(size: nat, digest: string, link: bool)

  type Manifest = map<Path, Fingerprint>

  datatype Outcome =
    | Copied(manifest: Manifest, fileCount: nat, totalBytes: nat)
    | TooManyFiles
    | TooManyBytes

  function Lookup(root: Node, path: Path): Option<Node> {
    if path == [] then Some(root)
    else if root.Dir? && path[0] in root.children then Lookup(root.children[path[0]], path[1..])
    else None
  }

  function AllPaths(root: Node): set<Path> {
    {[]} + if root.Dir? then set x, p | x in root.children && p in AllPaths(root.children[x]) :: [x] + p else {}
  }

  function Recorded(node: Node, hash: string -> string): Fingerprint
    requires node.File? || node.Link?
  {
    match node
    case File(size, digest) => Fingerprint(size, digest, false)
    case Link(target) => Fingerprint(0, hash(target), true)
  }

  /** The two filters: the protected patterns, then the configured ones. */
  datatype Filter = Filter(secret: seq<Pattern>, excludes: seq<Pattern>) {
    predicate Bars(path: Path)
      requires path != []
    {
      Excluded(path, secret) || Excluded(path, excludes)
    }

    /** Neither the path nor a directory above it is barred. */
    predicate Reaches(path: Path) {
      forall i :: 0 < i <= |path| ==> !Bars(path[..i])
    }

    predicate KeepsFile(root: Node, path: Path) {
      Reaches(path) && match Lookup(root, path) case Some(File(_, _)) => path != [] case Some(Link(_)) => path != [] case _ => false
    }

    predicate KeepsDirectory(root: Node, path: Path) {
      Reaches(path) && match Lookup(root, path) case Some(Dir(_)) => true case _ => false
    }
  }

  function KeptManifest(root: Node, filter: Filter, hash: string -> string): Manifest {
    map p | p in AllPaths(root) && filter.KeepsFile(root, p) :: Recorded(Lookup(root, p).value, hash)
  }

  function Regular(root: Node, paths: set<Path>): set<Path> {
    set p | p in paths && (match Lookup(root, p) case Some(File(_, _)) => true case _ => false)
  }

  function KeptRegular(root: Node, filter: Filter): set<Path> {
    Regular(root, KeptManifest(root, filter, s => s).Keys)
  }

  ghost function SizeSum(root: Node, files: set<Path>): nat {
    if files == {} then 0
    else
      var p :| p in files;
      Size(root, p) + SizeSum(root, files - {p})
  }

  function Size(root: Node, p: Path): nat {
    match Lookup(root, p)
    case Some(File(size, _)) => size
    case _ => 0
  }

  lemma {:induction false} SizeSumAdd(root: Node, files: set<Path>, p: Path)
    requires p !in files
    ensures SizeSum(root, files + {p}) == SizeSum(root, files) + Size(root, p)
    decreases files
  {
    var all := files + {p};
    var q :| q in all && SizeSum(root, all) == Size(root, q) + SizeSum(root, all - {q});
    if q == p {
      assert all - {q} == files;
    } else {
      SizeSumAdd(root, files - {q}, p);
      assert all - {q} == files - {q} + {p};
      SizeSumAdd(root, files - {q}, q);
      assert files - {q} + {q} == files;
    }
  }

  lemma {:induction false} SizeSumGrows(root: Node, some: set<Path>, all: set<Path>)
    requires some <= all
    ensures SizeSum(root, some) <= SizeSum(root, all) && |some| <= |all|
    decreases all - some
  {
    if some != all {
      assert all - some != {} by { assert some + (all - some) == all; }
      var p :| p in all - some;
      SizeSumAdd(root, some, p);
      SizeSumGrows(root, some + {p}, all);
    }
  }

  lemma {:induction false} AllPathsAre(root: Node, p: Path)
    ensures p in AllPaths(root) <==> Lookup(root, p).Some?
  {
    if p != [] && root.Dir? && p[0] in root.children {
      AllPathsAre(root.children[p[0]], p[1..]);
      assert p == [p[0]] + p[1..];
    }
  }

  lemma {:induction false} LookupChild(root: Node, d: Path, x: string)
    ensures Lookup(root, d + [x]) ==
            match Lookup(root, d)
            case Some(Dir(children)) => if x in children then Some(children[x]) else None
            case _ => None
  {
    if d == [] {
      assert ([] + [x])[1..] == [] && ([] + [x])[0] == x;
    } else {
      assert (d + [x])[1..] == d[1..] + [x] && (d + [x])[0] == d[0];
      if root.Dir? && d[0] in root.children { LookupChild(root.children[d[0]], d[1..], x); }
    }
  }

  lemma ReachesChild(filter: Filter, d: Path, x: string)
    ensures filter.Reaches(d + [x]) <==> filter.Reaches(d) && !filter.Bars(d + [x])
  {
    var p := d + [x];
    assert p[..|p|] == p;
    assert forall i :: 0 < i <= |d| ==> p[..i] == d[..i];
  }

  function Parent(p: Path): Path {
    if p == [] then [] else p[..|p| - 1]
  }

  // --- One directory --------------------------------------------------------------------------------------------

  /** The entries the manifest gets from some of one directory's names. */
  function FilesAmong(root: Node, filter: Filter, d: Path, names: set<string>, hash: string -> string): Manifest {
    map p | p in AllPaths(root) && filter.KeepsFile(root, p) && Parent(p) == d && p[|p| - 1] in names
      :: Recorded(Lookup(root, p).value, hash)
  }

  lemma FilesAmongGrows(root: Node, filter: Filter, d: Path, names: set<string>, x: string, hash: string -> string)
    requires filter.Reaches(d)
    ensures FilesAmong(root, filter, d, names + {x}, hash) ==
            if filter.KeepsFile(root, d + [x])
            then FilesAmong(root, filter, d, names, hash)[d + [x] := Recorded(Lookup(root, d + [x]).value, hash)]
            else FilesAmong(root, filter, d, names, hash)
  {
    var q, before, after := d + [x], FilesAmong(root, filter, d, names, hash), FilesAmong(root, filter, d, names + {x}, hash);
    AllPathsAre(root, q);
    ChildOf(d, x);
    forall p | p in after && p != q ensures p in before {
      LastNames(p, x);
    }
  }

  lemma ChildOf(d: Path, x: string)
    ensures Parent(d + [x]) == d && (d + [x])[|d|] == x
  {
  }

  lemma LastNames(p: Path, x: string)
    ensures p != [] && p[|p| - 1] == x ==> p == Parent(p) + [x]
  {
  }

  lemma RegularUnion(root: Node, a: set<Path>, b: set<Path>)
    ensures Regular(root, a + b) == Regular(root, a) + Regular(root, b)
  {
  }

  lemma RegularOne(root: Node, p: Path)
    ensures Regular(root, {p}) == if Lookup(root, p).Some? && Lookup(root, p).value.File? then {p} else {}
  {
  }

  lemma RegularGrows(root: Node, manifest: Manifest, p: Path, mark: Fingerprint)
    ensures var more := manifest[p := mark];
            Regular(root, more.Keys) ==
            if Lookup(root, p).Some? && Lookup(root, p).value.File? then Regular(root, manifest.Keys) + {p}
            else Regular(root, manifest.Keys)
  {
    assert manifest[p := mark].Keys == manifest.Keys + {p};
    RegularUnion(root, manifest.Keys, {p});
    RegularOne(root, p);
  }

  ghost predicate OverLimits(root: Node, filter: Filter, maxFiles: nat, maxBytes: nat) {
    |KeptRegular(root, filter)| > maxFiles || SizeSum(root, KeptRegular(root, filter)) > maxBytes
  }

  /** An error names a limit that the regular files to keep really exceed. */
  ghost predicate Justified(root: Node, filter: Filter, r: Outcome, maxFiles: nat, maxBytes: nat) {
    match r
    case TooManyFiles => |KeptRegular(root, filter)| > maxFiles
    case TooManyBytes => SizeSum(root, KeptRegular(root, filter)) > maxBytes
    case Copied(_, _, _) => true
  }

  /** Regular files that are all to be kept bound what the whole tree holds. */
  lemma PartBoundsWhole(root: Node, filter: Filter, files: set<Path>)
    requires forall p :: p in files ==> filter.KeepsFile(root, p) && Regular(root, {p}) != {}
    ensures |files| <= |KeptRegular(root, filter)| && SizeSum(root, files) <= SizeSum(root, KeptRegular(root, filter))
  {
    forall p | p in files ensures p in KeptRegular(root, filter) {
      AllPathsAre(root, p);
      assert p in KeptManifest(root, filter, s => s);
      var q :| q in Regular(root, {p});
    }
    SizeSumGrows(root, files, KeptRegular(root, filter));
  }

  /** The counters agree with the manifest and stay within the limits. */
  ghost predicate Counted(root: Node, r: Outcome, maxFiles: nat, maxBytes: nat) {
    && r.Copied?
    && r.fileCount == |Regular(root, r.manifest.Keys)| <= maxFiles
    && r.totalBytes == SizeSum(root, Regular(root, r.manifest.Keys)) <= maxBytes
  }

  lemma CountOneMore(root: Node, filter: Filter, r: Outcome, p: Path, maxFiles: nat, maxBytes: nat)
    requires Counted(root, r, maxFiles, maxBytes)
    requires forall q :: q in r.manifest ==> filter.KeepsFile(root, q)
    requires p !in r.manifest && filter.KeepsFile(root, p) && Lookup(root, p).value.File?
    ensures var all := Regular(root, r.manifest.Keys) + {p};
            && |all| == r.fileCount + 1 <= |KeptRegular(root, filter)|
            && SizeSum(root, all) == r.totalBytes + Size(root, p) <= SizeSum(root, KeptRegular(root, filter))
  {
    var files := Regular(root, r.manifest.Keys);
    SizeSumAdd(root, files, p);
    forall q | q in files + {p} ensures filter.KeepsFile(root, q) && Regular(root, {q}) != {} {
      assert q in Regular(root, {q});
    }
    PartBoundsWhole(root, filter, files + {p});
  }

  lemma AddLink(root: Node, so: Outcome, p: Path, mark: Fingerprint, maxFiles: nat, maxBytes: nat)
    requires Counted(root, so, maxFiles, maxBytes) && Lookup(root, p).Some? && Lookup(root, p).value.Link?
    ensures Counted(root, so.(manifest := so.manifest[p := mark]), maxFiles, maxBytes)
  {
    RegularGrows(root, so.manifest, p, mark);
  }

  lemma AddFile(root: Node, filter: Filter, so: Outcome, p: Path, mark: Fingerprint, maxFiles: nat, maxBytes: nat)
    requires Counted(root, so, maxFiles, maxBytes)
    requires forall q :: q in so.manifest ==> filter.KeepsFile(root, q)
    requires p !in so.manifest && filter.KeepsFile(root, p) && Lookup(root, p).value.File?
    requires so.fileCount + 1 <= maxFiles && so.totalBytes + Size(root, p) <= maxBytes
    ensures Counted(root, Copied(so.manifest[p := mark], so.fileCount + 1, so.totalBytes + Size(root, p)), maxFiles, maxBytes)
  {
    CountOneMore(root, filter, so, p, maxFiles, maxBytes);
    RegularGrows(root, so.manifest, p, mark);
  }

  /** One non-directory entry of a kept directory. */
  method CopyEntry(root: Node, filter: Filter, d: Path, x: string, so: Outcome, maxFiles: nat, maxBytes: nat, hash: string -> string)
    returns (r: Outcome)
    requires filter.KeepsDirectory(root, d) && x in Lookup(root, d).value.children
    requires !Lookup(root, d).value.children[x].Dir? && !Lookup(root, d).value.children[x].DirLink?
    requires Counted(root, so, maxFiles, maxBytes) && d + [x] !in so.manifest
    requires forall q :: q in so.manifest ==> filter.KeepsFile(root, q)
    ensures r.Copied? ==>
              && Counted(root, r, maxFiles, maxBytes)
              && r.manifest == if filter.KeepsFile(root, d + [x])
                               then so.manifest[d + [x] := Recorded(Lookup(root, d + [x]).value, hash)]
                               else so.manifest
    ensures Justified(root, filter, r, maxFiles, maxBytes)
  {
    var path := d + [x];
    LookupChild(root, d, x);
    ReachesChild(filter, d, x);
    var secret := MatchesAnyLoop(x, Join(path), filter.secret);
    if secret { return so; }
    var excluded := MatchesAnyLoop(x, Join(path), filter.excludes);
    if excluded { return so; }
    var node := Lookup(root, d).value.children[x];
    if node.Link? {
      var mark := Fingerprint(0, hash(node.target), true);
      AddLink(root, so, path, mark, maxFiles, maxBytes);
      return so.(manifest := so.manifest[path := mark]);
    }
    if !node.File? { return so; }
    var fileCount, totalBytes := so.fileCount + 1, so.totalBytes + node.size;
    CountOneMore(root, filter, so, path, maxFiles, maxBytes);
    if fileCount > maxFiles { return TooManyFiles; }
    if totalBytes > maxBytes { return TooManyBytes; }
    var mark := Fingerprint(node.size, node.digest, false);
    AddFile(root, filter, so, path, mark, maxFiles, maxBytes);
    return Copied(so.manifest[path := mark], fileCount, totalBytes);
  }

  lemma UpdateLast(a: Manifest, b: Manifest, p: Path, mark: Fingerprint)
    ensures a + b[p := mark] == (a + b)[p := mark]
  {
  }

  /** Before an entry is looked at, and after. */
  lemma EntryIsNew(root: Node, filter: Filter, d: Path, base: Manifest, seen: set<string>, x: string, hash: string -> string)
    requires forall q :: q in base ==> filter.KeepsFile(root, q) && Parent(q) != d
    requires x !in seen
    ensures var all := base + FilesAmong(root, filter, d, seen, hash);
            d + [x] !in all && forall q :: q in all ==> filter.KeepsFile(root, q)
  {
    assert Parent(d + [x]) == d;
  }

  lemma EntryIsSeen(root: Node, filter: Filter, d: Path, base: Manifest, seen: set<string>, x: string, hash: string -> string)
    requires filter.Reaches(d)
    ensures var all := base + FilesAmong(root, filter, d, seen, hash);
            base + FilesAmong(root, filter, d, seen + {x}, hash) ==
            if filter.KeepsFile(root, d + [x]) then all[d + [x] := Recorded(Lookup(root, d + [x]).value, hash)] else all
  {
    FilesAmongGrows(root, filter, d, seen, x, hash);
    if filter.KeepsFile(root, d + [x]) {
      UpdateLast(base, FilesAmong(root, filter, d, seen, hash), d + [x], Recorded(Lookup(root, d + [x]).value, hash));
    }
  }

  /** The loop over the file names of one directory, in any order. */
  method CopyFiles(root: Node, filter: Filter, d: Path, so: Outcome, maxFiles: nat, maxBytes: nat, hash: string -> string)
    returns (r: Outcome)
    requires filter.KeepsDirectory(root, d)
    requires Counted(root, so, maxFiles, maxBytes)
    requires forall q :: q in so.manifest ==> filter.KeepsFile(root, q) && Parent(q) != d
    ensures r.Copied? ==>
              && Counted(root, r, maxFiles, maxBytes)
              && r.manifest == so.manifest + FilesAmong(root, filter, d, Lookup(root, d).value.children.Keys, hash)
    ensures Justified(root, filter, r, maxFiles, maxBytes)
  {
    var children := Lookup(root, d).value.children;
    var names := set x | x in children && !children[x].Dir? && !children[x].DirLink?;
    ghost var directories := children.Keys - names;
    ghost var seen: set<string> := {};
    r := so;
    while names != {}
      invariant Counted(root, r, maxFiles, maxBytes) && r.manifest == so.manifest + FilesAmong(root, filter, d, seen, hash)
      invariant names + seen + directories == children.Keys && names !! seen
      invariant forall x :: x in names ==> !children[x].Dir? && !children[x].DirLink?
      decreases names
    {
      var x :| x in names;
      EntryIsNew(root, filter, d, so.manifest, seen, x, hash);
      r := CopyEntry(root, filter, d, x, r, maxFiles, maxBytes, hash);
      if !r.Copied? { return; }
      EntryIsSeen(root, filter, d, so.manifest, seen, x, hash);
      names, seen := names - {x}, seen + {x};
    }
    DirectoriesAddNothing(root, filter, d, seen, directories, hash);
    assert seen + directories == children.Keys;
  }

  lemma DirectoriesAddNothing(root: Node, filter: Filter, d: Path, seen: set<string>, directories: set<string>, hash: string -> string)
    requires filter.KeepsDirectory(root, d)
    requires forall x :: x in directories ==>
               x in Lookup(root, d).value.children && (Lookup(root, d).value.children[x].Dir? || Lookup(root, d).value.children[x].DirLink?)
    ensures FilesAmong(root, filter, d, seen + directories, hash) == FilesAmong(root, filter, d, seen, hash)
  {
    var more, without := FilesAmong(root, filter, d, seen + directories, hash), FilesAmong(root, filter, d, seen, hash);
    forall p | p in more ensures p in without {
      KeptFileIsEntry(root, filter, p);
    }
  }

  /** A kept file is an entry of its parent directory, and not a directory there. */
  lemma KeptFileIsEntry(root: Node, filter: Filter, p: Path)
    requires filter.KeepsFile(root, p)
    ensures var d, x := Parent(p), p[|p| - 1];
            match Lookup(root, d)
            case Some(Dir(children)) => x in children && (children[x].File? || children[x].Link?)
            case _ => false
  {
    var d, x := Parent(p), p[|p| - 1];
    assert p == d + [x];
    LookupChild(root, d, x);
  }

  // --- The whole walk -------------------------------------------------------------------------------------------

  /** The subdirectories left in `dirnames` after the pruning loop. */
  method PruneDirectories(d: Path, dirnames: set<string>, filter: Filter) returns (kept: set<string>)
    ensures kept == set x | x in dirnames && !filter.Bars(d + [x])
  {
    kept := {};
    var rest := dirnames;
    while rest != {}
      invariant rest <= dirnames
      invariant kept == set x | x in dirnames - rest && !filter.Bars(d + [x])
      decreases rest
    {
      var x :| x in rest;
      assert (d + [x])[|d|] == x;
      var secret := MatchesAnyLoop(x, Join(d + [x]), filter.secret);
      if !secret {
        var excluded := MatchesAnyLoop(x, Join(d + [x]), filter.excludes);
        if !excluded { kept := kept + {x}; }
      }
      rest := rest - {x};
    }
  }

  /** What has been gathered once the directories `done` have been visited. */
  function Gathered(root: Node, filter: Filter, done: set<Path>, hash: string -> string): Manifest {
    map p | p in AllPaths(root) && filter.KeepsFile(root, p) && Parent(p) in done :: Recorded(Lookup(root, p).value, hash)
  }

  /** `done` and `todo` hold kept directories only, and every kept directory under a visited one. */
  ghost predicate Frontier(root: Node, filter: Filter, done: set<Path>, todo: set<Path>) {
    && done !! todo
    && (forall d :: d in done + todo ==> filter.KeepsDirectory(root, d) && (d == [] || Parent(d) in done))
    && (filter.KeepsDirectory(root, []) ==> [] in done + todo)
    && (forall d :: d != [] && filter.KeepsDirectory(root, d) && Parent(d) in done ==> d in done + todo)
  }

  lemma KeptParent(root: Node, filter: Filter, p: Path)
    requires p != [] && (filter.KeepsDirectory(root, p) || filter.KeepsFile(root, p))
    ensures filter.KeepsDirectory(root, Parent(p))
  {
    var d, x := Parent(p), p[|p| - 1];
    assert p == d + [x];
    LookupChild(root, d, x);
    ReachesChild(filter, d, x);
  }

  lemma {:induction false} AllVisited(root: Node, filter: Filter, done: set<Path>, d: Path)
    requires Frontier(root, filter, done, {}) && filter.KeepsDirectory(root, d)
    ensures d in done
    decreases |d|
  {
    if d != [] {
      KeptParent(root, filter, d);
      AllVisited(root, filter, done, Parent(d));
    }
  }

  lemma FrontierMoves(root: Node, filter: Filter, done: set<Path>, todo: set<Path>, d: Path, kept: set<string>, below: set<Path>)
    requires Frontier(root, filter, done, todo) && d in todo
    requires var children := Lookup(root, d).value.children;
             && kept == (set x | x in children && (children[x].Dir? || children[x].DirLink?) && !filter.Bars(d + [x]))
             && below == set x | x in kept && children[x].Dir? :: d + [x]
    ensures Frontier(root, filter, done + {d}, todo - {d} + below)
  {
    forall p ensures p in below <==> p != [] && Parent(p) == d && filter.KeepsDirectory(root, p) {
      BelowIsKept(root, filter, d, kept, below, p);
    }
    FrontierAdds(root, filter, done, todo, d, below);
  }

  lemma BelowIsKept(root: Node, filter: Filter, d: Path, kept: set<string>, below: set<Path>, p: Path)
    requires filter.KeepsDirectory(root, d)
    requires var children := Lookup(root, d).value.children;
             && kept == (set x | x in children && (children[x].Dir? || children[x].DirLink?) && !filter.Bars(d + [x]))
             && below == set x | x in kept && children[x].Dir? :: d + [x]
    ensures p in below <==> p != [] && Parent(p) == d && filter.KeepsDirectory(root, p)
  {
    if p != [] && Parent(p) == d {
      KeptDirectoryIsEntry(root, filter, d, p[|p| - 1]);
      assert p == d + [p[|p| - 1]];
    }
  }

  /** Moving a directory to `done` and its kept subdirectories to `todo`. */
  lemma FrontierAdds(root: Node, filter: Filter, done: set<Path>, todo: set<Path>, d: Path, below: set<Path>)
    requires Frontier(root, filter, done, todo) && d in todo
    requires forall p :: p in below <==> p != [] && Parent(p) == d && filter.KeepsDirectory(root, p)
    ensures Frontier(root, filter, done + {d}, todo - {d} + below)
  {
    var done', todo' := done + {d}, todo - {d} + below;
    forall p | p in below ensures p !in done' {
    }
    forall p | p in done' + todo' ensures filter.KeepsDirectory(root, p) && (p == [] || Parent(p) in done') {
    }
    forall p | p != [] && filter.KeepsDirectory(root, p) && Parent(p) in done' ensures p in done' + todo' {
    }
    assert filter.KeepsDirectory(root, []) ==> [] in done' + todo';
    assert done' !! todo';
  }

  lemma KeptDirectoryIsEntry(root: Node, filter: Filter, d: Path, x: string)
    requires filter.KeepsDirectory(root, d)
    ensures var children := Lookup(root, d).value.children;
            filter.KeepsDirectory(root, d + [x]) <==> x in children && children[x].Dir? && !filter.Bars(d + [x])
  {
    LookupChild(root, d, x);
    ReachesChild(filter, d, x);
  }

  lemma GatheredGrows(root: Node, filter: Filter, done: set<Path>, d: Path, hash: string -> string)
    requires filter.KeepsDirectory(root, d)
    ensures Gathered(root, filter, done + {d}, hash) ==
            Gathered(root, filter, done, hash) + FilesAmong(root, filter, d, Lookup(root, d).value.children.Keys, hash)
  {
    var names := Lookup(root, d).value.children.Keys;
    var more, here := Gathered(root, filter, done + {d}, hash), FilesAmong(root, filter, d, names, hash);
    forall p | p in more && Parent(p) == d ensures p in here {
      KeptFileIsEntry(root, filter, p);
    }
    var before := Gathered(root, filter, done, hash);
    forall p | p in more ensures p in before + here {
    }
    forall p | p in before + here ensures p in more && (before + here)[p] == more[p] {
    }
  }

  lemma GatheredElsewhere(root: Node, filter: Filter, done: set<Path>, todo: set<Path>, d: Path, hash: string -> string)
    requires Frontier(root, filter, done, todo) && d in todo
    ensures forall q :: q in Gathered(root, filter, done, hash) ==> filter.KeepsFile(root, q) && Parent(q) != d
  {
  }

  lemma GatheredAll(root: Node, filter: Filter, done: set<Path>, hash: string -> string)
    requires Frontier(root, filter, done, {})
    ensures Gathered(root, filter, done, hash) == KeptManifest(root, filter, hash)
    ensures Regular(root, Gathered(root, filter, done, hash).Keys) == KeptRegular(root, filter)
  {
    forall p | filter.KeepsFile(root, p) ensures Parent(p) in done {
      KeptParent(root, filter, p);
      AllVisited(root, filter, done, Parent(p));
    }
    assert KeptManifest(root, filter, hash).Keys == KeptManifest(root, filter, s => s).Keys;
  }

  lemma NothingGathered(root: Node, filter: Filter, todo: set<Path>, maxFiles: nat, maxBytes: nat, hash: string -> string)
    requires todo == if root.Dir? then {[]} else {}
    ensures Frontier(root, filter, {}, todo)
    ensures Gathered(root, filter, {}, hash) == map[] && Counted(root, Copied(map[], 0, 0), maxFiles, maxBytes)
  {
    assert Regular(root, {}) == {};
  }

  lemma Progress(root: Node, filter: Filter, done: set<Path>, todo: set<Path>, d: Path)
    requires Frontier(root, filter, done, todo) && d in todo
    ensures AllPaths(root) - (done + {d}) < AllPaths(root) - done
  {
    AllPathsAre(root, d);
  }

  /** One turn of the walk. */
  method VisitDirectory(root: Node, filter: Filter, d: Path, so: Outcome, maxFiles: nat, maxBytes: nat, hash: string -> string,
      ghost done: set<Path>, ghost todo: set<Path>)
    returns (r: Outcome, below: set<Path>)
    requires Frontier(root, filter, done, todo) && d in todo
    requires Counted(root, so, maxFiles, maxBytes) && so.manifest == Gathered(root, filter, done, hash)
    ensures Frontier(root, filter, done + {d}, todo - {d} + below)
    ensures r.Copied? ==> Counted(root, r, maxFiles, maxBytes) && r.manifest == Gathered(root, filter, done + {d}, hash)
    ensures Justified(root, filter, r, maxFiles, maxBytes)
  {
    GatheredElsewhere(root, filter, done, todo, d, hash);
    var children := Lookup(root, d).value.children;
    var dirnames := set x | x in children && (children[x].Dir? || children[x].DirLink?);
    var kept := PruneDirectories(d, dirnames, filter);
    r := CopyFiles(root, filter, d, so, maxFiles, maxBytes, hash);
    below := set x | x in kept && children[x].Dir? :: d + [x];
    FrontierMoves(root, filter, done, todo, d, kept, below);
    GatheredGrows(root, filter, done, d, hash);
  }

  /** The walk. Whatever order entries come in, it fails exactly if the regular files to keep exceed a limit, naming a limit
      that is exceeded, and otherwise it records exactly the files to keep. */
  method Snapshot(root: Node, filter: Filter, maxFiles: nat, maxBytes: nat, hash: string -> string) returns (r: Outcome)
    ensures r.Copied? <==> !OverLimits(root, filter, maxFiles, maxBytes)
    ensures Justified(root, filter, r, maxFiles, maxBytes)
    ensures r.Copied? ==>
              && r.manifest == KeptManifest(root, filter, hash)
              && r.fileCount == |KeptRegular(root, filter)|
              && r.totalBytes == SizeSum(root, KeptRegular(root, filter))
  {
    var todo: set<Path> := if root.Dir? then {[]} else {};
    ghost var done: set<Path> := {};
    r := Copied(map[], 0, 0);
    NothingGathered(root, filter, todo, maxFiles, maxBytes, hash);
    while todo != {}
      invariant Frontier(root, filter, done, todo)
      invariant Counted(root, r, maxFiles, maxBytes) && r.manifest == Gathered(root, filter, done, hash)
      decreases AllPaths(root) - done
    {
      var d :| d in todo;
      var below;
      r, below := VisitDirectory(root, filter, d, r, maxFiles, maxBytes, hash, done, todo);
      if !r.Copied? { return; }
      Progress(root, filter, done, todo, d);
      todo, done := todo - {d} + below, done + {d};
    }
    GatheredAll(root, filter, done, hash);
  }

  // --- Against the flat filter ----------------------------------------------------------------------------------

  ghost predicate CleanNames(root: Node) {
    forall p, x :: p in AllPaths(root) && x in p ==> Clean(x)
  }

  lemma BarsIsExcluded(filter: Filter, path: Path)
    requires path != []
    ensures filter.Bars(path) <==> Excluded(path, filter.secret + filter.excludes)
  {
    var all := filter.secret + filter.excludes;
    assert forall i :: 0 <= i < |filter.secret| ==> all[i] == filter.secret[i];
    assert forall i :: 0 <= i < |filter.excludes| ==> all[|filter.secret| + i] == filter.excludes[i];
  }

  /** For patterns that look at single components the walk keeps a file exactly if no pattern matches that file. */
  lemma SnapshotIsFlatFilter(root: Node, filter: Filter, path: Path)
    requires CleanNames(root) && forall p :: p in filter.secret + filter.excludes ==> PartLocal(p)
    ensures path in KeptManifest(root, filter, s => s) <==>
            && path != [] && (match Lookup(root, path) case Some(File(_, _)) => true case Some(Link(_)) => true case _ => false)
            && !Excluded(path, filter.secret + filter.excludes)
  {
    AllPathsAre(root, path);
    if path != [] && path in AllPaths(root) {
      PruningIsFiltering(path, filter.secret + filter.excludes);
      forall i | 0 < i <= |path| ensures filter.Bars(path[..i]) <==> Excluded(path[..i], filter.secret + filter.excludes) {
        BarsIsExcluded(filter, path[..i]);
      }
    }
  }

  /** For any patterns: the manifest holds exactly the files and links of which no part of the path, from the first name to the
      whole, is excluded by either list; a file with its size and digest, a link as such with the digest of its target. */
  lemma ManifestExactly(root: Node, filter: Filter, hash: string -> string, path: Path)
    ensures path in KeptManifest(root, filter, hash) <==>
            && path != [] && Lookup(root, path).Some? && (Lookup(root, path).value.File? || Lookup(root, path).value.Link?)
            && forall i :: 0 < i <= |path| ==> !Excluded(path[..i], filter.secret) && !Excluded(path[..i], filter.excludes)
    ensures path in KeptManifest(root, filter, hash) ==>
              var entry, node := KeptManifest(root, filter, hash)[path], Lookup(root, path).value;
              && (entry.link <==> node.Link?)
              && (node.File? ==> entry.size == node.size && entry.digest == node.digest)
              && (node.Link? ==> entry.size == 0 && entry.digest == hash(node.target))
  {
    AllPathsAre(root, path);
  }

  /** Different files have different keys. */
  lemma KeysAreDistinct(root: Node, p: Path, q: Path)
    requires CleanNames(root) && p in AllPaths(root) && q in AllPaths(root) && p != [] && q != []
    requires Join(p) == Join(q)
    ensures p == q
  {
    JoinInjective(p, q);
  }
}
