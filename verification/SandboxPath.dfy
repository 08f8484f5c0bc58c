/** validate_sandbox_path: which paths the sandbox tools may touch, against a walk through the directory tree. */
module SandboxPath {
  import opened Options
  import opened Paths
  import opened Texts

  datatype Verdict = Accepted(path: string) | Empty | Escapes | Outside

  /** pathlib's `parts`: the root, if any, and then the components. */
  function Parts(p: PurePath): seq<string> {
    (if p.root == "" then [] else [p.root]) + p.parts
  }

  function Joined(raw: string, workspace: string): PurePath {
    var w, c := Parse(workspace), Parse(raw);
    if c.root != "" then c else PurePath(w.root, w.parts + c.parts)
  }

  /** What the loop over the parts makes of a stack; None is the escape. */
  function Normalise(stack: seq<string>, parts: seq<string>): Option<seq<string>>
    decreases |parts|
  {
    if parts == [] then Some(stack)
    else if parts[0] == ".." then if |stack| <= 1 then None else Normalise(stack[..|stack| - 1], parts[1..])
    else Normalise(stack + [parts[0]], parts[1..])
  }

  /** PurePosixPath(*parts), for parts the loop can produce. */
  function FromParts(parts: seq<string>): PurePath {
    if parts != [] && (parts[0] == "/" || parts[0] == "//") then PurePath(parts[0], parts[1..]) else PurePath("", parts)
  }

  predicate IsRelativeTo(p: PurePath, base: PurePath) {
    p.root == base.root && base.parts <= p.parts
  }

  function Validate(raw: string, workspace: string): Verdict {
    if Blank(raw) then Empty
    else
      match Normalise([], Parts(Joined(raw, workspace)))
      case None => Escapes
      case Some(parts) =>
        if IsRelativeTo(FromParts(parts), Parse(workspace)) then Accepted(Render(FromParts(parts))) else Outside
  }

  method ValidateSandboxPath(raw: string, workspace: string) returns (verdict: Verdict)
    ensures verdict == Validate(raw, workspace)
  {
    if Blank(raw) { return Empty; }
    var todo := Parts(Joined(raw, workspace));
    var parts: seq<string> := [];
    for i := 0 to |todo|
      invariant Normalise(parts, todo[i..]) == Normalise([], todo)
    {
      assert todo[i..][1..] == todo[i + 1..];
      if todo[i] == ".." {
        if |parts| <= 1 { return Escapes; }
        parts := parts[..|parts| - 1];
      } else {
        parts := parts + [todo[i]];
      }
    }
    var normalised := FromParts(parts);
    if !IsRelativeTo(normalised, Parse(workspace)) { return Outside; }
    return Accepted(Render(normalised));
  }

  // --- The tree walk it stands for ------------------------------------------------------------------------------

  /** Walking components in a tree without symlinks: `..` goes to the parent, which the root lacks. */
  function Walk<N>(at: N, parts: seq<string>, child: (N, string) -> N, parent: N -> Option<N>): Option<N> {
    if parts == [] then Some(at)
    else if parts[0] == ".." then
      match parent(at)
      case None => None
      case Some(up) => Walk(up, parts[1..], child, parent)
    else Walk(child(at, parts[0]), parts[1..], child, parent)
  }

  function Descend<N>(at: N, parts: seq<string>, child: (N, string) -> N): N {
    if parts == [] then at else child(Descend(at, parts[..|parts| - 1], child), parts[|parts| - 1])
  }

  ghost predicate IsTree<N(!new)>(root: N, child: (N, string) -> N, parent: N -> Option<N>) {
    parent(root) == None && forall n, x :: parent(child(n, x)) == Some(n)
  }

  /** In every tree, the stack the loop keeps names the node the raw components lead to, and the loop gives up exactly
      when the walk rises above the root. */
  lemma {:induction false} NormaliseIsWalk<N(!new)>(
      top: string, stack: seq<string>, parts: seq<string>, root: N, child: (N, string) -> N, parent: N -> Option<N>)
    requires IsTree(root, child, parent)
    ensures var result := Normalise([top] + stack, parts);
            if result.None? then Walk(Descend(root, stack, child), parts, child, parent) == None
            else
              && result.value != [] && result.value[0] == top
              && Walk(Descend(root, stack, child), parts, child, parent) == Some(Descend(root, result.value[1..], child))
    decreases |parts|
  {
    if parts != [] {
      if parts[0] == ".." {
        if stack != [] {
          var up := stack[..|stack| - 1];
          assert ([top] + stack)[..|stack|] == [top] + up;
          NormaliseIsWalk(top, up, parts[1..], root, child, parent);
        }
      } else {
        var down := stack + [parts[0]];
        assert [top] + stack + [parts[0]] == [top] + down;
        assert down[..|down| - 1] == stack;
        NormaliseIsWalk(top, down, parts[1..], root, child, parent);
      }
    } else {
      assert ([top] + stack)[1..] == stack;
    }
  }

  /** The tree of all paths: a node is the list of names that leads to it. */
  function Below(n: seq<string>, x: string): seq<string> { n + [x] }

  function Above(n: seq<string>): Option<seq<string>> {
    if n == [] then None else Some(n[..|n| - 1])
  }

  lemma PathsAreATree()
    ensures IsTree([], Below, Above)
  {
    forall n: seq<string>, x: string ensures Above(Below(n, x)) == Some(n) {
      assert (n + [x])[..|n|] == n;
    }
  }

  lemma {:induction false} DescendIsPath(parts: seq<string>)
    ensures Descend([], parts, Below) == parts
  {
    if parts != [] {
      DescendIsPath(parts[..|parts| - 1]);
    }
  }

  /** An absolute workspace written without `..`. */
  predicate NormalWorkspace(workspace: string) {
    Root(workspace) == "/" && ".." !in Parse(workspace).parts
  }

  /** The path of the node the raw components lead to, or None above the root: a path with a leading slash starts at the root
      of the tree, any other at the workspace. */
  function Target(raw: string, workspace: string): Option<seq<string>> {
    if raw != "" && raw[0] == '/' then Walk([], Parse(raw).parts, Below, Above)
    else Walk(Parse(workspace).parts, Parse(raw).parts, Below, Above)
  }

  lemma {:induction false} WalkOn(at: seq<string>, down: seq<string>, parts: seq<string>)
    requires ".." !in down
    ensures Walk(at, down + parts, Below, Above) == Walk(at + down, parts, Below, Above)
    decreases |down|
  {
    if down == [] {
      assert at + down == at && down + parts == parts;
    } else {
      assert (down + parts)[0] == down[0] && (down + parts)[1..] == down[1..] + parts;
      WalkOn(at + [down[0]], down[1..], parts);
      assert at + [down[0]] + down[1..] == at + down;
    }
  }

  lemma TargetOfJoined(raw: string, workspace: string)
    requires NormalWorkspace(workspace)
    ensures Target(raw, workspace) == Walk([], Joined(raw, workspace).parts, Below, Above)
    ensures Joined(raw, workspace).root == if raw != "" && raw[0] == '/' then Root(raw) else "/"
  {
    WalkOn([], Parse(workspace).parts, Parse(raw).parts);
    assert [] + Parse(workspace).parts == Parse(workspace).parts;
  }

  lemma NormaliseTarget(raw: string, workspace: string)
    requires NormalWorkspace(workspace)
    ensures Normalise([], Parts(Joined(raw, workspace))) ==
            match Target(raw, workspace) case None => None case Some(node) => Some([Joined(raw, workspace).root] + node)
  {
    var j := Joined(raw, workspace);
    TargetOfJoined(raw, workspace);
    PathsAreATree();
    NormaliseIsWalk(j.root, [], j.parts, [], Below, Above);
    assert [j.root] + [] == [j.root] && [] + [j.root] == [j.root];
    assert Parts(j)[1..] == j.parts;
    match Normalise([j.root], j.parts)
    case None =>
    case Some(s) =>
      DescendIsPath(s[1..]);
      assert s == [j.root] + s[1..];
  }

  lemma {:induction false} NormaliseClean(top: string, stack: seq<string>, parts: seq<string>)
    requires (forall p :: p in stack ==> Clean(p) && p != "..") && (forall p :: p in parts ==> Clean(p))
    requires Normalise([top] + stack, parts).Some?
    ensures var s := Normalise([top] + stack, parts).value; s != [] && s[0] == top && forall p :: p in s[1..] ==> Clean(p) && p != ".."
    decreases |parts|
  {
    if parts == [] {
      assert ([top] + stack)[1..] == stack;
    } else {
      assert parts[0] in parts;
      if parts[0] == ".." {
        var up := stack[..|stack| - 1];
        assert ([top] + stack)[..|stack|] == [top] + up;
        NormaliseClean(top, up, parts[1..]);
      } else {
        assert [top] + stack + [parts[0]] == [top] + (stack + [parts[0]]);
        NormaliseClean(top, stack + [parts[0]], parts[1..]);
      }
    }
  }

  // --- What the check promises ----------------------------------------------------------------------------------

  /** For a non-blank path: refused as escaping exactly if the walk rises above the root, refused as outside exactly if it
      ends outside the workspace or starts at the `//` root, and otherwise answered with the node's own path. */
  lemma ValidateIsWalk(raw: string, workspace: string)
    requires NormalWorkspace(workspace) && !Blank(raw)
    ensures var target := Target(raw, workspace);
            && (Validate(raw, workspace) == Escapes <==> target == None)
            && (Validate(raw, workspace) == Outside <==>
                  target.Some? && (Root(raw) == "//" || !(Parse(workspace).parts <= target.value)))
            && (Validate(raw, workspace).Accepted? ==>
                  target.Some? && Validate(raw, workspace).path == Render(PurePath("/", target.value)))
  {
    NormaliseTarget(raw, workspace);
    var j := Joined(raw, workspace);
    match Target(raw, workspace)
    case None =>
    case Some(node) => assert ([j.root] + node)[1..] == node;
  }

  /** An accepted path is absolute, has no `.` or `..` left, and lies under the workspace component by component. */
  lemma AcceptedIsConfined(raw: string, workspace: string)
    requires NormalWorkspace(workspace) && Validate(raw, workspace).Accepted?
    ensures var p := Parse(Validate(raw, workspace).path);
            && p.root == "/" && Parse(workspace).parts <= p.parts
            && (forall c :: c in p.parts ==> c != "." && c != "..")
            && Target(raw, workspace) == Some(p.parts)
  {
    ValidateIsWalk(raw, workspace);
    NormaliseTarget(raw, workspace);
    var j := Joined(raw, workspace);
    var node := Target(raw, workspace).value;
    assert Parts(j) == [j.root] + j.parts && [] + [j.root] == [j.root] + [];
    assert Normalise([], Parts(j)) == Normalise([j.root] + [], j.parts) by {
      assert Parts(j)[1..] == j.parts;
    }
    NormaliseClean(j.root, [], j.parts);
    assert ([j.root] + node)[1..] == node;
    ParseRender(node);
  }

  lemma {:induction false} WalkDown(at: seq<string>, parts: seq<string>)
    requires ".." !in parts
    ensures Walk(at, parts, Below, Above) == Some(at + parts)
    decreases |parts|
  {
    if parts != [] {
      assert at + parts == at + [parts[0]] + parts[1..];
      WalkDown(at + [parts[0]], parts[1..]);
    } else {
      assert at + parts == at;
    }
  }

  /** Validating an accepted path again accepts it as it is. */
  lemma Idempotent(raw: string, workspace: string)
    requires NormalWorkspace(workspace) && Validate(raw, workspace).Accepted?
    ensures Validate(Validate(raw, workspace).path, workspace) == Validate(raw, workspace)
  {
    ValidateIsWalk(raw, workspace);
    AcceptedIsConfined(raw, workspace);
    var path := Validate(raw, workspace).path;
    var p := Parse(path);
    assert path[0] == '/' && !Blank(path);
    WalkDown([], p.parts);
    assert [] + p.parts == p.parts;
    ValidateIsWalk(path, workspace);
  }

  /** A relative path means the same with the workspace written in front of it, exactly unless the workspace is "/" and
      the path does not escape: the joined text then starts at the `//` root. */
  lemma RelativeIsUnderWorkspace(raw: string, workspace: string)
    requires NormalWorkspace(workspace) && Root(raw) == "" && !Blank(raw)
    ensures Validate(workspace + "/" + raw, workspace) == Validate(raw, workspace)
            <==> workspace != "/" || Validate(raw, workspace) == Escapes
  {
    ParseUnder(workspace, raw);
    var full := workspace + "/" + raw;
    assert full[0] == '/' && !Blank(full);
    assert Joined(full, workspace).parts == Joined(raw, workspace).parts;
    if workspace == "/" {
      OnlySlash();
      TargetOfJoined(raw, workspace);
      TargetOfJoined(full, workspace);
      ValidateIsWalk(raw, workspace);
      ValidateIsWalk(full, workspace);
    }
  }

  /** The smallest example. */
  lemma RootWorkspaceDiffers()
    ensures Validate("a", "/") == Accepted("/a") && Validate("/" + "/" + "a", "/") != Accepted("/a")
  {
    OnlySlash();
    SplitPlain("a");
    assert Parse("a") == PurePath("", ["a"]) by { assert ["a"][1..] == []; }
    assert [] + ["a"] == ["a"];
    WalkDown([], ["a"]);
    assert !Blank("a") by { assert !IsSpace("a"[0]); }
    ValidateIsWalk("a", "/");
    RelativeIsUnderWorkspace("a", "/");
  }
}
