/** Exclude patterns: fnmatch, and `_matches_any` on an entry's name, path and path components.
    A pattern is the list of tokens its text stands for. */
module Patterns {
  import opened Paths

  datatype Token =
    | Lit(c: char)
    | AnyOne
    | AnyRun
    | OneOf(negated: bool, ranges: seq<(char, char)>)

  type Pattern = seq<Token>

  predicate Fits(t: Token, c: char) {
    match t
    case Lit(d) => c == d
    case OneOf(negated, ranges) => negated != exists i :: 0 <= i < |ranges| && ranges[i].0 <= c <= ranges[i].1
    case _ => true
  }

  /** fnmatch.fnmatch on a case-sensitive system: the whole text must match, and `*` runs over slashes too. */
  predicate Matches(p: Pattern, s: string)
    decreases |p| + |s|
  {
    if p == [] then s == ""
    else if p[0].AnyRun? then Matches(p[1..], s) || (s != "" && Matches(p, s[1..]))
    else s != "" && Fits(p[0], s[0]) && Matches(p[1..], s[1..])
  }

  /** '/' in pattern. */
  predicate HasSlash(p: Pattern) {
    exists i :: 0 <= i < |p| &&
      match p[i]
      case Lit(c) => c == '/'
      case OneOf(_, ranges) => exists j :: 0 <= j < |ranges| && (ranges[j].0 == '/' || ranges[j].1 == '/')
      case _ => false
  }

  predicate MatchesAny(name: string, relpath: string, patterns: seq<Pattern>) {
    exists i :: 0 <= i < |patterns| &&
      (|| Matches(patterns[i], name) || Matches(patterns[i], relpath)
       || (!HasSlash(patterns[i]) && exists j :: 0 <= j < |Parse(relpath).parts| && Matches(patterns[i], Parse(relpath).parts[j])))
  }

  /** _matches_any with its loop. */
  method MatchesAnyLoop(name: string, relpath: string, patterns: seq<Pattern>) returns (found: bool)
    ensures found == MatchesAny(name, relpath, patterns)
  {
    for i := 0 to |patterns|
      invariant !MatchesAny(name, relpath, patterns[..i])
    {
      assert patterns[..i + 1] == patterns[..i] + [patterns[i]];
      assert forall k :: 0 <= k < i ==> patterns[..i + 1][k] == patterns[..i][k];
      if Matches(patterns[i], name) || Matches(patterns[i], relpath) { return true; }
      if !HasSlash(patterns[i]) && exists j :: 0 <= j < |Parse(relpath).parts| && Matches(patterns[i], Parse(relpath).parts[j]) {
        return true;
      }
    }
    assert patterns[..|patterns|] == patterns;
    return false;
  }

  // --- What a pattern matches -----------------------------------------------------------------------------------

  /** Token by token: itself, any one character, anything, or one character in or out of the ranges. */
  lemma TokenMatches(t: Token, s: string)
    ensures Matches([], s) <==> s == ""
    ensures Matches([t], s) <==>
            match t
            case Lit(c) => s == [c]
            case AnyOne => |s| == 1
            case AnyRun => true
            case OneOf(negated, ranges) => |s| == 1 && (negated <==> forall i :: 0 <= i < |ranges| ==> !(ranges[i].0 <= s[0] <= ranges[i].1))
  {
    assert [t][1..] == [];
    if t.AnyRun? {
      RunMatches(s);
    } else if s != "" {
      assert s == [s[0]] + s[1..];
    }
  }

  lemma {:induction false} RunMatches(s: string)
    ensures Matches([AnyRun], s)
  {
    assert [AnyRun][1..] == [];
    if s != "" { RunMatches(s[1..]); }
  }

  ghost predicate SplitsAt(p: Pattern, q: Pattern, s: string, i: int) {
    0 <= i <= |s| && Matches(p, s[..i]) && Matches(q, s[i..])
  }

  lemma SplitsOn(p: Pattern, q: Pattern, s: string, i: nat)
    requires p != [] && s != "" && i < |s|
    ensures s[1..][..i] == s[..i + 1][1..] && s[1..][i..] == s[i + 1..] && s[..i + 1][0] == s[0]
  {
  }

  /** One pattern behind another matches exactly what can be cut in two for them. */
  lemma {:induction false} MatchesConcat(p: Pattern, q: Pattern, s: string)
    ensures Matches(p + q, s) <==> exists i :: SplitsAt(p, q, s, i)
    decreases |p| + |s|
  {
    if p == [] {
      assert p + q == q && s[0..] == s;
      if Matches(q, s) { assert SplitsAt(p, q, s, 0); }
    } else {
      assert (p + q)[1..] == p[1..] + q && (p + q)[0] == p[0];
      if p[0].AnyRun? { RunConcat(p, q, s); } else { OneConcat(p, q, s); }
    }
  }

  lemma {:induction false} RunConcat(p: Pattern, q: Pattern, s: string)
    requires p != [] && p[0].AnyRun? && (p + q)[1..] == p[1..] + q && (p + q)[0] == p[0]
    ensures Matches(p + q, s) <==> exists i :: SplitsAt(p, q, s, i)
    decreases |p| + |s|, 0
  {
    MatchesConcat(p[1..], q, s);
    if s != "" { MatchesConcat(p, q, s[1..]); }
    if Matches(p + q, s) {
      if Matches(p[1..] + q, s) {
        var i :| SplitsAt(p[1..], q, s, i);
        assert SplitsAt(p, q, s, i);
      } else {
        var i :| SplitsAt(p, q, s[1..], i);
        SplitsOn(p, q, s, i);
        assert SplitsAt(p, q, s, i + 1);
      }
    }
    if i :| SplitsAt(p, q, s, i) {
      if Matches(p[1..], s[..i]) {
        assert SplitsAt(p[1..], q, s, i);
      } else {
        SplitsOn(p, q, s, i - 1);
        assert SplitsAt(p, q, s[1..], i - 1);
      }
    }
  }

  lemma {:induction false} OneConcat(p: Pattern, q: Pattern, s: string)
    requires p != [] && !p[0].AnyRun? && (p + q)[1..] == p[1..] + q && (p + q)[0] == p[0]
    ensures Matches(p + q, s) <==> exists i :: SplitsAt(p, q, s, i)
    decreases |p| + |s|, 0
  {
    if s != "" {
      MatchesConcat(p[1..], q, s[1..]);
      if Matches(p + q, s) {
        var i :| SplitsAt(p[1..], q, s[1..], i);
        SplitsOn(p, q, s, i);
        assert SplitsAt(p, q, s, i + 1);
      }
      if i :| SplitsAt(p, q, s, i) {
        SplitsOn(p, q, s, i - 1);
        assert SplitsAt(p[1..], q, s[1..], i - 1);
      }
    }
  }

  // --- The three common shapes ----------------------------------------------------------------------------------

  function Literal(w: string): (p: Pattern)
    ensures |p| == |w| && forall i :: 0 <= i < |w| ==> p[i] == Lit(w[i])
  {
    if w == "" then [] else [Lit(w[0])] + Literal(w[1..])
  }

  function Ending(w: string): Pattern { [AnyRun] + Literal(w) }

  function Starting(w: string): Pattern { Literal(w) + [AnyRun] }

  function Around(u: string, v: string): Pattern { Literal(u) + Ending(v) }

  predicate EndsWith(s: string, w: string) {
    |w| <= |s| && s[|s| - |w|..] == w
  }

  lemma {:induction false} LiteralMatches(w: string, s: string)
    ensures Matches(Literal(w), s) <==> s == w
  {
    if w != "" {
      assert Literal(w)[1..] == Literal(w[1..]);
      if s != "" {
        LiteralMatches(w[1..], s[1..]);
        assert s == [s[0]] + s[1..] && w == [w[0]] + w[1..];
      }
    }
  }

  lemma {:induction false} EndingMatches(w: string, s: string)
    ensures Matches(Ending(w), s) <==> EndsWith(s, w)
  {
    assert Ending(w)[1..] == Literal(w);
    LiteralMatches(w, s);
    if s != "" {
      EndingMatches(w, s[1..]);
      if |w| < |s| { assert s[|s| - |w|..] == s[1..][|s| - 1 - |w|..]; }
    }
    if |w| == |s| { assert s[0..] == s; }
  }

  /** A literal beginning is matched off the front. */
  lemma {:induction false} FrontMatches(u: string, rest: Pattern, s: string)
    ensures Matches(Literal(u) + rest, s) <==> u <= s && Matches(rest, s[|u|..])
  {
    if u == "" {
      assert Literal(u) + rest == rest && s[0..] == s;
    } else {
      assert (Literal(u) + rest)[1..] == Literal(u[1..]) + rest;
      assert (Literal(u) + rest)[0] == Lit(u[0]);
      if s != "" {
        FrontMatches(u[1..], rest, s[1..]);
        if |u| <= |s| { assert s[1..][|u| - 1..] == s[|u|..]; }
        assert u <= s <==> u[0] == s[0] && u[1..] <= s[1..] by {
          assert s == [s[0]] + s[1..] && u == [u[0]] + u[1..];
        }
      }
    }
  }

  lemma StartingMatches(w: string, s: string)
    ensures Matches(Starting(w), s) <==> w <= s
  {
    FrontMatches(w, [AnyRun], s);
    if w <= s { EndingMatches("", s[|w|..]); assert Ending("") == [AnyRun]; }
  }

  lemma AroundMatches(u: string, v: string, s: string)
    ensures Matches(Around(u, v), s) <==> |u| + |v| <= |s| && u <= s && EndsWith(s, v)
  {
    FrontMatches(u, Ending(v), s);
    if u <= s {
      EndingMatches(v, s[|u|..]);
      if |u| + |v| <= |s| { assert s[|u|..][|s| - |u| - |v|..] == s[|s| - |v|..]; }
    }
  }

  // --- Patterns that only ever look at one component ------------------------------------------------------------

  ghost predicate CleanParts(parts: seq<string>) {
    parts != [] && forall p :: p in parts ==> Clean(p)
  }

  /** Whenever the pattern matches a whole path it matches one of the path's components. */
  ghost predicate PartLocal(p: Pattern) {
    !HasSlash(p) && forall parts :: CleanParts(parts) && Matches(p, Join(parts)) ==> exists c :: c in parts && Matches(p, c)
  }

  lemma {:induction false} JoinLast(parts: seq<string>)
    requires |parts| > 1
    ensures Join(parts) == Join(parts[..|parts| - 1]) + "/" + parts[|parts| - 1]
  {
    if |parts| > 2 {
      JoinLast(parts[1..]);
      assert parts[1..][..|parts| - 2] == parts[..|parts| - 1][1..];
    } else {
      assert parts[1..] == [parts[1]] && parts[..1] == [parts[0]];
    }
  }

  lemma NoSlash(w: string, p: Pattern)
    requires '/' !in w && p in {Literal(w), Ending(w), Starting(w)}
    ensures !HasSlash(p)
  {
    forall i | 0 <= i < |p| && p[i].Lit? ensures p[i].c in w {
    }
  }

  lemma JoinHasSlash(parts: seq<string>)
    requires |parts| > 1
    ensures '/' in Join(parts)
  {
    assert Join(parts)[|parts[0]|] == '/';
  }

  lemma HeadHasNoSlash(w: string, s: string)
    requires '/' !in w
    ensures w <= s ==> forall k :: 0 <= k < |w| ==> s[k] != '/'
  {
    if w <= s {
      forall k | 0 <= k < |w| ensures s[k] != '/' {
        assert s[k] == w[k] && w[k] in w;
      }
    }
  }

  lemma TailHasNoSlash(w: string, s: string)
    requires '/' !in w
    ensures EndsWith(s, w) ==> forall k :: |s| - |w| <= k < |s| ==> s[k] != '/'
  {
    if EndsWith(s, w) {
      forall k | |s| - |w| <= k < |s| ensures s[k] != '/' {
        var i := k - (|s| - |w|);
        assert s[|s| - |w|..][i] == w[i] && w[i] in w;
      }
    }
  }

  lemma LiteralPartLocal(w: string)
    requires '/' !in w
    ensures PartLocal(Literal(w))
  {
    NoSlash(w, Literal(w));
    forall parts | CleanParts(parts) && Matches(Literal(w), Join(parts)) ensures exists c :: c in parts && Matches(Literal(w), c) {
      LiteralMatches(w, Join(parts));
      if |parts| > 1 { JoinHasSlash(parts); }
      assert parts[0] in parts && Matches(Literal(w), parts[0]);
    }
  }

  lemma EndingPartLocal(w: string)
    requires '/' !in w
    ensures PartLocal(Ending(w))
  {
    NoSlash(w, Ending(w));
    forall parts | CleanParts(parts) && Matches(Ending(w), Join(parts)) ensures exists c :: c in parts && Matches(Ending(w), c) {
      var last := parts[|parts| - 1];
      EndingMatches(w, Join(parts));
      EndingMatches(w, last);
      LastEndsAlike(w, parts);
      assert last in parts;
    }
  }

  lemma LastEndsAlike(w: string, parts: seq<string>)
    requires '/' !in w && parts != [] && EndsWith(Join(parts), w)
    ensures EndsWith(parts[|parts| - 1], w)
  {
    var s, last := Join(parts), parts[|parts| - 1];
    if |parts| > 1 {
      JoinLast(parts);
      BehindSlash(w, Join(parts[..|parts| - 1]), last);
    } else {
      assert parts == [last];
    }
  }

  lemma BehindSlash(w: string, before: string, last: string)
    requires '/' !in w && EndsWith(before + "/" + last, w)
    ensures EndsWith(last, w)
  {
    var s := before + "/" + last;
    TailHasNoSlash(w, s);
    assert s[|before|] == '/';
    SameTail(before + "/", last, |w|);
  }

  lemma SameTail(front: string, back: string, n: nat)
    requires n <= |back|
    ensures (front + back)[|front| + |back| - n..] == back[|back| - n..]
  {
  }

  lemma StartingPartLocal(w: string)
    requires '/' !in w
    ensures PartLocal(Starting(w))
  {
    NoSlash(w, Starting(w));
    forall parts | CleanParts(parts) && Matches(Starting(w), Join(parts)) ensures exists c :: c in parts && Matches(Starting(w), c) {
      var s := Join(parts);
      StartingMatches(w, s);
      StartingMatches(w, parts[0]);
      if |parts| > 1 {
        assert s[|parts[0]|] == '/';
        HeadHasNoSlash(w, s);
      }
      assert parts[0] in parts;
    }
  }

  // --- Filtering a tree -----------------------------------------------------------------------------------------

  predicate Excluded(path: seq<string>, patterns: seq<Pattern>)
    requires path != []
  {
    MatchesAny(path[|path| - 1], Join(path), patterns)
  }

  /** What a walk that never enters an excluded directory leaves out. */
  predicate PrunedAway(path: seq<string>, patterns: seq<Pattern>) {
    exists i :: 0 < i <= |path| && Excluded(path[..i], patterns)
  }

  lemma PartsOfJoin(path: seq<string>)
    requires CleanParts(path)
    ensures Parse(Join(path)).parts == path
  {
    SplitJoin(path);
    KeepCleanAll(path);
  }

  /** A path is excluded exactly if some pattern, whatever characters it has, matches its last name or its whole text, or has no
      slash and matches one of its components. */
  lemma ExcludedExactly(path: seq<string>, patterns: seq<Pattern>)
    requires CleanParts(path)
    ensures Excluded(path, patterns) <==>
            exists p :: p in patterns && (Matches(p, path[|path| - 1]) || Matches(p, Join(path)) || (!HasSlash(p) && exists c :: c in path && Matches(p, c)))
  {
    PartsOfJoin(path);
    if p :| p in patterns && (Matches(p, path[|path| - 1]) || Matches(p, Join(path)) || (!HasSlash(p) && exists c :: c in path && Matches(p, c))) {
      var k :| 0 <= k < |patterns| && patterns[k] == p;
      if !Matches(p, path[|path| - 1]) && !Matches(p, Join(path)) {
        var c :| c in path && Matches(p, c);
        var j :| 0 <= j < |path| && path[j] == c;
      }
    }
  }

  /** A pattern with a slash excludes exactly the paths whose last name or whole text it matches; a literal one is of that
      kind exactly if there is a slash in it. */
  lemma SlashPatternExactly(path: seq<string>, p: Pattern, w: string)
    requires CleanParts(path)
    ensures HasSlash(p) ==> (Excluded(path, [p]) <==> Matches(p, path[|path| - 1]) || Matches(p, Join(path)))
    ensures HasSlash(Literal(w)) <==> '/' in w
    ensures '/' in w ==> (Excluded(path, [Literal(w)]) <==> Join(path) == w)
  {
    ExcludedExactly(path, [p]);
    if '/' in w {
      var i :| 0 <= i < |w| && w[i] == '/';
      assert Literal(w)[i] == Lit('/');
      ExcludedExactly(path, [Literal(w)]);
      LiteralMatches(w, Join(path));
      LiteralMatches(w, path[|path| - 1]);
      assert path[|path| - 1] in path && Literal(w) in [Literal(w)];
    } else {
      NoSlash(w, Literal(w));
    }
  }

  /** For patterns that only look at single components, the pruned walk and the flat filter agree on every path. */
  lemma PruningIsFiltering(path: seq<string>, patterns: seq<Pattern>)
    requires CleanParts(path) && forall p :: p in patterns ==> PartLocal(p)
    ensures PrunedAway(path, patterns) <==> Excluded(path, patterns)
  {
    assert path[..|path|] == path;
    if i :| 0 < i <= |path| && Excluded(path[..i], patterns) {
      var up := path[..i];
      PartsOfJoin(up);
      PartsOfJoin(path);
      var k :| 0 <= k < |patterns| &&
        (Matches(patterns[k], up[i - 1]) || Matches(patterns[k], Join(up)) || exists j :: 0 <= j < |up| && Matches(patterns[k], up[j]));
      assert patterns[k] in patterns && PartLocal(patterns[k]);
      assert up[i - 1] in up;
      var c :| c in up && Matches(patterns[k], c);
      var j :| 0 <= j < |up| && up[j] == c;
      assert path[j] == c;
    }
  }

  /** In particular for slash-free literals, `*suffix` and `prefix*`. */
  predicate CommonShape(p: Pattern, w: string) {
    '/' !in w && p in {Literal(w), Ending(w), Starting(w)}
  }

  lemma CommonShapesPruneAsFilter(path: seq<string>, patterns: seq<Pattern>, words: seq<string>)
    requires CleanParts(path) && |words| == |patterns|
    requires forall i :: 0 <= i < |patterns| ==> CommonShape(patterns[i], words[i])
    ensures PrunedAway(path, patterns) <==> Excluded(path, patterns)
  {
    forall p | p in patterns ensures PartLocal(p) {
      var i :| 0 <= i < |patterns| && patterns[i] == p;
      LiteralPartLocal(words[i]);
      EndingPartLocal(words[i]);
      StartingPartLocal(words[i]);
    }
    PruningIsFiltering(path, patterns);
  }

  lemma EndCharacter(w: string, s: string)
    ensures w != "" && EndsWith(s, w) ==> s[|s| - 1] == w[|w| - 1]
  {
    if w != "" && EndsWith(s, w) {
      assert s[|s| - |w|..][|w| - 1] == s[|s| - 1];
    }
  }

  lemma JoinTwo(a: string, b: string)
    ensures Join([a, b]) == a + "/" + b
  {
    assert [a, b][1..] == [b];
  }

  lemma JoinThree(a: string, b: string, c: string)
    ensures Join([a, b, c]) == a + "/" + (b + "/" + c)
  {
    JoinTwo(b, c);
    assert [a, b, c][1..] == [b, c];
  }

  /** The pruned walk and the flat filter agree on every path there can be. */
  ghost predicate AgreeEverywhere(patterns: seq<Pattern>) {
    forall path :: CleanParts(path) ==> (PrunedAway(path, patterns) <==> Excluded(path, patterns))
  }

  lemma AroundSwallowsDirectory(u: string, v: string, a: string, b: string, y: string)
    requires u <= a && EndsWith(b, v)
    ensures PrunedAway([a, b, y], [Around(u, v)])
  {
    var dir := a + "/" + b;
    JoinTwo(a, b);
    AroundMatches(u, v, dir);
    assert dir[..|u|] == u && dir[|dir| - |v|..] == b[|b| - |v|..];
    assert [a, b, y][..2] == [a, b];
    assert [Around(u, v)][0] == Around(u, v);
    assert Excluded([a, b], [Around(u, v)]);
  }

  lemma AroundSparesParts(u: string, v: string, z: char)
    requires u != "" && v != "" && z != u[0] && z != v[|v| - 1]
    ensures !Matches(Around(u, v), u + [z]) && !Matches(Around(u, v), [z] + v) && !Matches(Around(u, v), [z])
  {
    var a, b := u + [z], [z] + v;
    assert a[|a| - 1] == z && b[0] == z;
    EndCharacter(v, a);
    AroundMatches(u, v, a);
    AroundMatches(u, v, b);
    AroundMatches(u, v, [z]);
  }

  lemma AroundSparesWhole(u: string, v: string, z: char)
    requires v != "" && z != v[|v| - 1]
    ensures !Matches(Around(u, v), Join([u + [z], [z] + v, [z]]))
  {
    var full := u + [z] + "/" + ([z] + v + "/" + [z]);
    JoinThree(u + [z], [z] + v, [z]);
    assert full[|full| - 1] == z;
    EndCharacter(v, full);
    AroundMatches(u, v, full);
  }

  lemma AroundSparesFile(u: string, v: string, z: char)
    requires u != "" && v != "" && z != u[0] && z != v[|v| - 1]
    requires CleanParts([u + [z], [z] + v, [z]])
    ensures !Excluded([u + [z], [z] + v, [z]], [Around(u, v)])
  {
    AroundSparesParts(u, v, z);
    AroundSparesWhole(u, v, z);
    PartsOfJoin([u + [z], [z] + v, [z]]);
  }

  /** A star with something on either side: of the path u z / z v / z the walk prunes the second directory, while the flat
      filter keeps the file. */
  lemma StarInTheMiddleDiffers(u: string, v: string, z: char)
    requires '/' !in u && '/' !in v && u != "" && v != "" && z !in {'/', '.', u[0], v[|v| - 1]}
    ensures CleanParts([u + [z], [z] + v, [z]])
    ensures PrunedAway([u + [z], [z] + v, [z]], [Around(u, v)]) && !Excluded([u + [z], [z] + v, [z]], [Around(u, v)])
  {
    assert ([z] + v)[1..] == v;
    AroundSwallowsDirectory(u, v, u + [z], [z] + v, [z]);
    AroundSparesFile(u, v, z);
  }

  lemma StarAtAnEnd(u: string, v: string)
    requires '/' !in u && '/' !in v && (u == "" || v == "")
    ensures PartLocal(Around(u, v))
  {
    StartingPartLocal(u);
    EndingPartLocal(v);
    assert Around(u, v) == if v == "" then Starting(u) else Ending(v);
  }

  /** For a pattern with one star and no slash, pruning equals filtering on every path exactly if the star stands at an end. */
  lemma OneStarAgreesExactly(u: string, v: string)
    requires '/' !in u && '/' !in v
    ensures AgreeEverywhere([Around(u, v)]) <==> u == "" || v == ""
  {
    if u == "" || v == "" {
      StarAtAnEnd(u, v);
      forall path | CleanParts(path) ensures PrunedAway(path, [Around(u, v)]) <==> Excluded(path, [Around(u, v)]) {
        PruningIsFiltering(path, [Around(u, v)]);
      }
    } else {
      var z :| z in {'a', 'b', 'c'} && z != u[0] && z != v[|v| - 1];
      StarInTheMiddleDiffers(u, v, z);
    }
  }

  /** A pattern with a slash is not confined to one level: what its star stands for may hold slashes itself. */
  lemma SlashPatternReachesDeep(u: string, v: string, between: string)
    ensures Matches(Around(u + "/", v), u + "/" + between + v)
  {
    var s := u + "/" + between + v;
    assert s[|s| - |v|..] == v;
    assert s[..|u| + 1] == u + "/";
    AroundMatches(u + "/", v, s);
  }
}
