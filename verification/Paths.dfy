/** POSIX paths as text and as components (Python's PurePosixPath). */
module Paths {

  // --- Splitting and joining at slashes -------------------------------------------------------------------------

  /** Putting one more character in front of text that splits into the given parts. */
  function Push(c: char, parts: seq<string>): (r: seq<string>)
    requires |parts| >= 1
    ensures |r| >= 1
    ensures (forall p :: p in parts ==> '/' !in p) ==> forall p :: p in r ==> '/' !in p
  {
    if c == '/' then [""] + parts else [[c] + parts[0]] + parts[1..]
  }

  function Split(s: string): (parts: seq<string>)
    ensures |parts| >= 1
    ensures forall p :: p in parts ==> '/' !in p
  {
    if s == "" then [""] else Push(s[0], Split(s[1..]))
  }

  function Join(parts: seq<string>): string {
    if parts == [] then "" else if |parts| == 1 then parts[0] else parts[0] + "/" + Join(parts[1..])
  }

  lemma {:induction false} SplitPlain(p: string)
    requires '/' !in p
    ensures Split(p) == [p]
  {
    if p != "" {
      assert p[0] in p;
      SplitPlain(p[1..]);
      assert [p[0]] + p[1..] == p;
    }
  }

  lemma PushConcat(c: char, first: seq<string>, second: seq<string>)
    requires |first| >= 1
    ensures Push(c, first + second) == Push(c, first) + second
  {
    assert (first + second)[1..] == first[1..] + second;
  }

  lemma {:induction false} SplitConcat(a: string, b: string)
    ensures Split(a + "/" + b) == Split(a) + Split(b)
  {
    var ab := a + "/" + b;
    if a == "" {
      assert ab[1..] == b;
    } else {
      SplitConcat(a[1..], b);
      assert ab[0] == a[0] && ab[1..] == a[1..] + "/" + b;
      PushConcat(a[0], Split(a[1..]), Split(b));
    }
  }

  lemma {:induction false} SplitJoin(parts: seq<string>)
    requires parts != [] && forall p :: p in parts ==> '/' !in p
    ensures Split(Join(parts)) == parts
  {
    SplitPlain(parts[0]);
    if |parts| > 1 {
      SplitJoin(parts[1..]);
      SplitConcat(parts[0], Join(parts[1..]));
    }
  }

  /** Distinct component lists are distinct texts. */
  lemma JoinInjective(a: seq<string>, b: seq<string>)
    requires a != [] && (forall p :: p in a ==> '/' !in p)
    requires b != [] && (forall p :: p in b ==> '/' !in p)
    requires Join(a) == Join(b)
    ensures a == b
  {
    SplitJoin(a);
    SplitJoin(b);
  }

  // --- PurePosixPath --------------------------------------------------------------------------------------------

  /** `root` is empty for a relative path, "/" for an absolute one, and "//" when exactly two slashes lead, which POSIX
      keeps apart. */
  datatype PurePath = PurePath(root: string, parts: seq<string>)

  function Root(s: string): string {
    if s == "" || s[0] != '/' then ""
    else if |s| >= 2 && s[1] == '/' && !(|s| >= 3 && s[2] == '/') then "//"
    else "/"
  }

  predicate Clean(part: string) {
    part != "" && part != "." && '/' !in part
  }

  function KeepClean(parts: seq<string>): (kept: seq<string>)
    ensures (forall p :: p in parts ==> '/' !in p) ==> forall p :: p in kept ==> Clean(p)
  {
    if parts == [] then []
    else if parts[0] == "" || parts[0] == "." then KeepClean(parts[1..])
    else [parts[0]] + KeepClean(parts[1..])
  }

  function Parse(s: string): (p: PurePath)
    ensures forall c :: c in p.parts ==> Clean(c)
  {
    PurePath(Root(s), KeepClean(Split(s)))
  }

  function Render(p: PurePath): string {
    if p.root == "" && p.parts == [] then "." else p.root + Join(p.parts)
  }

  lemma {:induction false} KeepCleanAll(parts: seq<string>)
    requires forall p :: p in parts ==> Clean(p)
    ensures KeepClean(parts) == parts
  {
    if parts != [] {
      assert parts[0] in parts;
      KeepCleanAll(parts[1..]);
    }
  }

  lemma {:induction false} KeptAre(parts: seq<string>)
    ensures forall p :: p in KeepClean(parts) <==> p in parts && p != "" && p != "."
  {
    if parts != [] {
      KeptAre(parts[1..]);
      assert parts == [parts[0]] + parts[1..];
    }
  }

  lemma {:induction false} KeepCleanConcat(a: seq<string>, b: seq<string>)
    ensures KeepClean(a + b) == KeepClean(a) + KeepClean(b)
  {
    if a == [] {
      assert a + b == b;
    } else {
      KeepCleanConcat(a[1..], b);
      assert (a + b)[1..] == a[1..] + b && (a + b)[0] == a[0];
    }
  }

  /** Writing an absolute path and reading it back gives the same path. */
  lemma ParseRender(parts: seq<string>)
    requires forall p :: p in parts ==> Clean(p)
    ensures Parse(Render(PurePath("/", parts))) == PurePath("/", parts)
  {
    var text := "/" + Join(parts);
    if parts == [] {
      assert text == "/";
      OnlySlash();
    } else {
      SplitJoin(parts);
      assert text == "" + "/" + Join(parts);
      SplitConcat("", Join(parts));
      KeepCleanConcat([""], parts);
      KeepCleanAll(parts);
      assert parts[0] in parts;
      JoinStarts(parts);
      assert KeepClean([""]) == [] by { assert [""][1..] == []; }
      assert [] + parts == parts;
    }
  }

  lemma JoinStarts(parts: seq<string>)
    requires parts != [] && Clean(parts[0])
    ensures Join(parts) != "" && Join(parts)[0] != '/'
  {
    assert parts[0][0] in parts[0];
  }

  /** Putting one path's text under another's appends its components; only under the bare root it makes the root `//`. */
  lemma ParseUnder(base: string, below: string)
    requires Root(base) == "/" && Root(below) == ""
    ensures Parse(base + "/" + below) == PurePath(if base == "/" then "//" else "/", Parse(base).parts + Parse(below).parts)
  {
    SplitConcat(base, below);
    KeepCleanConcat(Split(base), Split(below));
    var text := base + "/" + below;
    assert base == "/" ==> text == "//" + below;
  }

  /** Only exactly two leading slashes are a root of their own. */
  lemma RootCountsSlashes(n: nat, rest: string)
    requires rest == "" || rest[0] != '/'
    ensures Root(seq(n, _ => '/') + rest) == if n == 0 then "" else if n == 2 then "//" else "/"
  {
  }

  /** One more component at the end of a path: nothing for an empty one or a dot, and otherwise itself, `..` included. */
  lemma ParseOneMore(s: string, p: string)
    requires '/' !in p
    ensures Parse(s + "/" + p).parts == Parse(s).parts + if p == "" || p == "." then [] else [p]
    ensures Parse(p).parts == if p == "" || p == "." then [] else [p]
  {
    SplitConcat(s, p);
    SplitPlain(p);
    KeepCleanConcat(Split(s), [p]);
    assert [p][1..] == [];
  }

  lemma OnlySlash()
    ensures Parse("/") == PurePath("/", [])
  {
    assert "/"[1..] == "";
    assert Split("/") == ["", ""] && ["", ""][1..] == [""] && [""][1..] == [];
  }
}
