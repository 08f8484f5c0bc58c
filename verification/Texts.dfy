/** White space in Python strings. */
module Texts {

  /** Python's str.isspace, which str.strip uses. */
  predicate IsSpace(c: char) {
    || '\t' <= c <= '\r' || '\U{1c}' <= c <= ' ' || c == '\U{85}' || c == '\U{a0}' || c == '\U{1680}'
    || '\U{2000}' <= c <= '\U{200a}' || c == '\U{2028}' || c == '\U{2029}' || c == '\U{202f}' || c == '\U{205f}' || c == '\U{3000}'
  }

  lemma SpacesAre(c: char)
    ensures IsSpace(c) <==>
            var n := c as int;
            9 <= n <= 13 || 28 <= n <= 32 || 8192 <= n <= 8202 || n in {133, 160, 5760, 8232, 8233, 8239, 8287, 12288}
  {
  }

  predicate Blank(raw: string) {
    forall i :: 0 <= i < |raw| ==> IsSpace(raw[i])
  }

  function StripLeft(s: string): string {
    if s != "" && IsSpace(s[0]) then StripLeft(s[1..]) else s
  }

  function StripRight(s: string): (r: string)
    ensures r <= s && (r != "" ==> !IsSpace(r[|r| - 1]))
  {
    if s != "" && IsSpace(s[|s| - 1]) then StripRight(s[..|s| - 1]) else s
  }

  function Strip(s: string): string { StripRight(StripLeft(s)) }

  lemma {:induction false} BlankStripsLeft(s: string)
    ensures StripLeft(s) == "" <==> Blank(s)
    ensures StripLeft(s) != "" ==> !IsSpace(StripLeft(s)[0])
  {
    if s != "" && IsSpace(s[0]) {
      BlankStripsLeft(s[1..]);
      assert Blank(s[1..]) ==> Blank(s);
      assert s[1..] != "" && !Blank(s[1..]) ==> !Blank(s);
    }
  }

  lemma {:induction false} StripRightKeepsFront(s: string)
    requires s != "" && !IsSpace(s[0])
    ensures StripRight(s) != ""
  {
    if IsSpace(s[|s| - 1]) { StripRightKeepsFront(s[..|s| - 1]); }
  }

  /** Stripping leaves nothing exactly of blank text. */
  lemma BlankStrips(s: string)
    ensures Strip(s) == "" <==> Blank(s)
  {
    BlankStripsLeft(s);
    if StripLeft(s) != "" { StripRightKeepsFront(StripLeft(s)); }
  }

  lemma {:induction false} StripFront(pre: string, core: string)
    requires Blank(pre) && core != "" && !IsSpace(core[0])
    ensures StripLeft(pre + core) == core
  {
    if pre == "" {
      assert pre + core == core;
    } else {
      assert (pre + core)[1..] == pre[1..] + core;
      StripFront(pre[1..], core);
    }
  }

  lemma {:induction false} StripBack(core: string, post: string)
    requires Blank(post) && core != "" && !IsSpace(core[|core| - 1])
    ensures StripRight(core + post) == core
  {
    if post == "" {
      assert core + post == core;
    } else {
      assert (core + post)[..|core + post| - 1] == core + post[..|post| - 1];
      StripBack(core, post[..|post| - 1]);
    }
  }

  /** White space around text is stripped, and nothing else. */
  lemma StripAround(pre: string, core: string, post: string)
    requires Blank(pre) && Blank(post) && core != "" && !IsSpace(core[0]) && !IsSpace(core[|core| - 1])
    ensures Strip(pre + (core + post)) == core
  {
    StripFront(pre, core + post);
    StripBack(core, post);
  }

  lemma StripNothing(s: string)
    requires s != "" && !IsSpace(s[0]) && !IsSpace(s[|s| - 1])
    ensures Strip(s) == s
  {
  }
}
