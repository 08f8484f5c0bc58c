/** Lists of exclude patterns of the usual kind, plain names and names with one star: exactly when pruning directories leaves
    out what a filter over the files would. */
module PatternLists {
  import opened Paths
  import opened Patterns

  datatype Shape = Plain(word: string) | Star(before: string, after: string)

  function PatternOf(x: Shape): Pattern {
    match x
    case Plain(w) => Literal(w)
    case Star(u, v) => Around(u, v)
  }

  function PatternsOf(xs: seq<Shape>): seq<Pattern> {
    seq(|xs|, i requires 0 <= i < |xs| => PatternOf(xs[i]))
  }

  predicate SlashFree(x: Shape) {
    match x
    case Plain(w) => '/' !in w
    case Star(u, v) => '/' !in u && '/' !in v
  }

  predicate Mentions(x: Shape, c: char) {
    match x
    case Plain(w) => c in w
    case Star(u, v) => c in u || c in v
  }

  /** What the shape matches. */
  predicate Hits(x: Shape, s: string) {
    match x
    case Plain(w) => s == w
    case Star(u, v) => |u| + |v| <= |s| && u <= s && EndsWith(s, v)
  }

  lemma HitsMatches(x: Shape, s: string)
    ensures Matches(PatternOf(x), s) <==> Hits(x, s)
  {
    match x
    case Plain(w) => LiteralMatches(w, s);
    case Star(u, v) => AroundMatches(u, v, s);
  }

  lemma ShapeHasNoSlash(x: Shape)
    requires SlashFree(x)
    ensures !HasSlash(PatternOf(x))
  {
    match x
    case Plain(w) => NoSlash(w, Literal(w));
    case Star(u, v) =>
      forall i | 0 <= i < |Around(u, v)| && Around(u, v)[i].Lit? ensures Around(u, v)[i].c in u || Around(u, v)[i].c in v {
      }
  }

  /** A path is excluded if a pattern matches it or one of its components. */
  ghost predicate Barred(path: seq<string>, xs: seq<Shape>) {
    exists x :: x in xs && HitsPath(x, path)
  }

  ghost predicate HitsPath(x: Shape, path: seq<string>) {
    Hits(x, Join(path)) || exists c :: c in path && Hits(x, c)
  }

  lemma BarredIsExcluded(path: seq<string>, xs: seq<Shape>)
    requires CleanParts(path) && forall x :: x in xs ==> SlashFree(x)
    ensures Excluded(path, PatternsOf(xs)) <==> Barred(path, xs)
  {
    PartsOfJoin(path);
    var ps := PatternsOf(xs);
    forall k | 0 <= k < |xs| ensures
      (Matches(ps[k], path[|path| - 1]) || Matches(ps[k], Join(path))
       || (!HasSlash(ps[k]) && exists j :: 0 <= j < |path| && Matches(ps[k], path[j]))) <==> HitsPath(xs[k], path)
    {
      ShapeHitsPath(xs[k], path);
    }
  }

  lemma ShapeHitsPath(x: Shape, path: seq<string>)
    requires path != [] && SlashFree(x)
    ensures (Matches(PatternOf(x), path[|path| - 1]) || Matches(PatternOf(x), Join(path))
             || (!HasSlash(PatternOf(x)) && exists j :: 0 <= j < |path| && Matches(PatternOf(x), path[j]))) <==> HitsPath(x, path)
  {
    ShapeHasNoSlash(x);
    forall s: string ensures Matches(PatternOf(x), s) <==> Hits(x, s) { HitsMatches(x, s); }
    assert path[|path| - 1] in path;
  }

  // --- The rule -------------------------------------------------------------------------------------------------

  /** Whatever starts with u, or whatever ends with v, is excluded by another pattern of the list anyway. */
  ghost predicate Covered(xs: seq<Shape>, u: string, v: string) {
    exists y :: y in xs && Covers(y, u, v)
  }

  predicate Covers(y: Shape, u: string, v: string) {
    y.Star? && ((y.after == "" && y.before <= u) || (y.before == "" && EndsWith(v, y.after)))
  }

  /** Every star in the middle is covered by a star at an end. */
  ghost predicate StarsCovered(xs: seq<Shape>) {
    forall x :: x in xs && x.Star? && x.before != "" && x.after != "" ==> Covered(xs, x.before, x.after)
  }

  /** A plain name or a star at an end that matches a path matches one of its components. */
  lemma EndHitsPart(y: Shape, path: seq<string>)
    requires CleanParts(path) && SlashFree(y) && (y.Plain? || y.before == "" || y.after == "") && Hits(y, Join(path))
    ensures exists c :: c in path && Hits(y, c)
  {
    match y {
      case Plain(w) => LiteralPartLocal(w);
      case Star(u, v) =>
        StartingPartLocal(u);
        EndingPartLocal(v);
        assert PatternOf(y) == if v == "" then Starting(u) else Ending(v);
    }
    HitsMatches(y, Join(path));
    var c :| c in path && Matches(PatternOf(y), c);
    HitsMatches(y, c);
  }

  lemma TailOfTail(s: string, v: string, w: string)
    requires EndsWith(s, v) && EndsWith(v, w)
    ensures EndsWith(s, w)
  {
    assert s[|s| - |v|..][|v| - |w|..] == s[|s| - |w|..];
  }

  /** Where stars are covered, a pattern that matches a path comes with one that matches a component. */
  lemma SomePartIsHit(x: Shape, path: seq<string>, xs: seq<Shape>)
    requires CleanParts(path) && (forall y :: y in xs ==> SlashFree(y)) && StarsCovered(xs) && x in xs && HitsPath(x, path)
    ensures exists y, c :: y in xs && c in path && Hits(y, c)
  {
    if c :| c in path && Hits(x, c) {
    } else if x.Star? && x.before != "" && x.after != "" {
      var y :| y in xs && Covers(y, x.before, x.after);
      if y.before == "" && EndsWith(x.after, y.after) { TailOfTail(Join(path), x.after, y.after); }
      EndHitsPart(y, path);
    } else {
      EndHitsPart(x, path);
    }
  }

  lemma CoveredAgree(xs: seq<Shape>, path: seq<string>)
    requires CleanParts(path) && (forall x :: x in xs ==> SlashFree(x)) && StarsCovered(xs)
    ensures PrunedAway(path, PatternsOf(xs)) <==> Excluded(path, PatternsOf(xs))
  {
    assert path[..|path|] == path;
    if i :| 0 < i <= |path| && Excluded(path[..i], PatternsOf(xs)) {
      var up := path[..i];
      BarredIsExcluded(up, xs);
      var x :| x in xs && HitsPath(x, up);
      SomePartIsHit(x, up, xs);
      var y, c :| y in xs && c in up && Hits(y, c);
      assert c in path && HitsPath(y, path);
      BarredIsExcluded(path, xs);
    }
  }

  // --- A star that is not covered -------------------------------------------------------------------------------

  /** The path on which pruning and filtering part ways. */
  function Witness(u: string, v: string, z: char): seq<string> {
    [u + [z], [z] + v, [z]]
  }

  lemma PrefixWithout(a: string, u: string, z: char, rest: string)
    requires z !in a && a <= u + [z] + rest
    ensures a <= u
  {
    assert (u + [z] + rest)[|u|] == z;
    assert a == (u + [z] + rest)[..|a|];
  }

  lemma SuffixWithout(b: string, v: string, z: char)
    requires z !in b && EndsWith([z] + v, b)
    ensures EndsWith(v, b)
  {
    assert ([z] + v)[0..] == [z] + v && z in [z] + v;
    assert ([z] + v)[|v| + 1 - |b|..] == b;
  }

  /** A pattern without z that matches a text from u z on, up to a final z, covers u. */
  lemma HitFromFront(y: Shape, u: string, z: char, rest: string)
    requires !Mentions(y, z) && Hits(y, u + [z] + rest) && (rest == "" || rest[|rest| - 1] == z)
    ensures y.Star? && y.after == "" && y.before <= u
  {
    var s := u + [z] + rest;
    assert s[|s| - 1] == z && s[|u|] == z;
    if y.Star? {
      EndCharacter(y.after, s);
      PrefixWithout(y.before, u, z, rest);
    }
  }

  lemma HitFromBack(y: Shape, v: string, z: char)
    requires !Mentions(y, z) && Hits(y, [z] + v)
    ensures y.Star? && y.before == "" && EndsWith(v, y.after)
  {
    var s := [z] + v;
    assert s[0] == z;
    if y.Star? {
      SuffixWithout(y.after, v, z);
    }
  }

  lemma WitnessIsSpared(xs: seq<Shape>, u: string, v: string, z: char)
    requires (forall y :: y in xs ==> !Mentions(y, z)) && !Covered(xs, u, v)
    ensures !Barred(Witness(u, v, z), xs)
  {
    var a, b, c := u + [z], [z] + v, [z];
    JoinThree(a, b, c);
    var rest := "/" + (b + "/" + c);
    assert a + "/" + (b + "/" + c) == u + [z] + rest && rest[|rest| - 1] == z;
    assert a == u + [z] + "" && c == "" + [z] + "";
    forall y | y in xs ensures !HitsPath(y, Witness(u, v, z)) {
      if Hits(y, Join(Witness(u, v, z))) { HitFromFront(y, u, z, rest); }
      if Hits(y, a) { HitFromFront(y, u, z, ""); }
      if Hits(y, b) { HitFromBack(y, v, z); }
      if Hits(y, c) { HitFromFront(y, "", z, ""); }
    }
  }

  lemma WitnessIsPruned(xs: seq<Shape>, u: string, v: string, z: char)
    requires (forall y :: y in xs ==> SlashFree(y)) && Star(u, v) in xs && z !in {'/', '.'} && u != "" && v != ""
    ensures CleanParts(Witness(u, v, z)) && PrunedAway(Witness(u, v, z), PatternsOf(xs))
  {
    var path, up := Witness(u, v, z), [u + [z], [z] + v];
    assert SlashFree(Star(u, v));
    assert path[..2] == up;
    JoinTwo(up[0], up[1]);
    var dir := up[0] + "/" + up[1];
    assert dir[..|u|] == u && dir[|dir| - |v|..] == v;
    assert HitsPath(Star(u, v), up);
    BarredIsExcluded(up, xs);
  }

  /** An uncovered star makes a difference: the walk prunes uz/zv, the filter keeps the file uz/zv/z. */
  lemma UncoveredStarDiffers(xs: seq<Shape>, u: string, v: string, z: char)
    requires (forall y :: y in xs ==> SlashFree(y) && !Mentions(y, z)) && z !in {'/', '.'}
    requires Star(u, v) in xs && u != "" && v != "" && !Covered(xs, u, v)
    ensures CleanParts(Witness(u, v, z))
    ensures PrunedAway(Witness(u, v, z), PatternsOf(xs)) && !Excluded(Witness(u, v, z), PatternsOf(xs))
  {
    WitnessIsPruned(xs, u, v, z);
    WitnessIsSpared(xs, u, v, z);
    BarredIsExcluded(Witness(u, v, z), xs);
  }

  /** For any list of slash-free names with at most one star each, in which some character does not occur: pruning equals
      filtering on every path exactly if every star in the middle is covered by a star at an end. */
  lemma ListAgreesExactly(xs: seq<Shape>, z: char)
    requires (forall y :: y in xs ==> SlashFree(y) && !Mentions(y, z)) && z !in {'/', '.'}
    ensures AgreeEverywhere(PatternsOf(xs)) <==> StarsCovered(xs)
  {
    if StarsCovered(xs) {
      forall path | CleanParts(path) ensures PrunedAway(path, PatternsOf(xs)) <==> Excluded(path, PatternsOf(xs)) {
        CoveredAgree(xs, path);
      }
    } else {
      var x :| x in xs && x.Star? && x.before != "" && x.after != "" && !Covered(xs, x.before, x.after);
      UncoveredStarDiffers(xs, x.before, x.after, z);
    }
  }

  // --- The lists the server comes with --------------------------------------------------------------------------

  const SETTINGS_FILES := [Plain(".env"), Star(".env.", "")]
  const KEY_FILES := [Star("", ".pem"), Star("", ".key"), Star("", ".p12"), Star("", ".pfx"), Star("id_rsa", ""), Star("id_ed25519", "")]
  const LOGIN_FILES := [Plain(".netrc"), Plain(".git-credentials"), Plain(".ssh"), Plain(".aws"), Plain(".gnupg"), Plain(".kube")]
  const ACCOUNT_FILES := [Plain("credentials.json"), Star("service-account", ".json")]

  /** SECRET_FILE_PATTERNS. */
  const PROTECTED: seq<Shape> := SETTINGS_FILES + KEY_FILES + LOGIN_FILES + ACCOUNT_FILES

  predicate Usual(x: Shape) {
    SlashFree(x) && !Mentions(x, 'Z')
  }

  lemma SettingsAreUsual()
    ensures forall x :: x in SETTINGS_FILES ==> Usual(x)
  {
  }

  lemma KeysAreUsual()
    ensures forall x :: x in KEY_FILES ==> Usual(x)
  {
  }

  lemma LoginsAreUsual()
    ensures forall x :: x in LOGIN_FILES ==> Usual(x)
  {
  }

  lemma AccountsAreUsual()
    ensures forall x :: x in ACCOUNT_FILES ==> Usual(x)
  {
  }

  lemma KeysCoverNothing(u: string, v: string)
    requires u != "" && v != "" && u[0] != 'i' && v[|v| - 1] !in {'m', 'y', '2', 'x'}
    ensures forall x :: x in KEY_FILES ==> !Covers(x, u, v)
  {
    forall x | x in KEY_FILES ensures !Covers(x, u, v) {
      EndCharacter(x.after, v);
    }
  }

  lemma SettingsCoverNothing(u: string, v: string)
    requires u != "" && u[0] != '.'
    ensures forall x :: x in SETTINGS_FILES ==> !Covers(x, u, v)
  {
  }

  lemma AccountsCoverNothing(u: string, v: string)
    ensures forall x :: x in ACCOUNT_FILES ==> !Covers(x, u, v)
  {
  }

  /** The protected patterns as a whole do not agree: `service-account*.json` is covered by no other of them, and on the path
      service-accountZ / Z.json / Z the walk prunes what the filter keeps. */
  lemma ProtectedListDiffers()
    ensures !AgreeEverywhere(PatternsOf(PROTECTED))
    ensures PrunedAway(Witness("service-account", ".json", 'Z'), PatternsOf(PROTECTED))
    ensures !Excluded(Witness("service-account", ".json", 'Z'), PatternsOf(PROTECTED))
  {
    var u, v := "service-account", ".json";
    SettingsAreUsual();
    KeysAreUsual();
    LoginsAreUsual();
    AccountsAreUsual();
    SettingsCoverNothing(u, v);
    KeysCoverNothing(u, v);
    AccountsCoverNothing(u, v);
    assert Star(u, v) in ACCOUNT_FILES;
    UncoveredStarDiffers(PROTECTED, u, v, 'Z');
  }
}
