/**
 * mdx-components.tsx: the anchor slug of `h2` (which an `id` passed in the
 * props overrides on the rendered heading), the three ways the `code`
 * renderer draws a code element, and `useMDXComponents`, which lays the
 * caller's components over the built-in table.
 */
module MdxComponents {
  import opened Wrappers
  import opened Strings

  /** `.replace(/ /g, "-")`. */
  function SpacesToDashes(s: string): (r: string)
    ensures |r| == |s|
    ensures forall i :: 0 <= i < |s| ==> r[i] == if s[i] == ' ' then '-' else s[i]
  {
    seq(|s|, i requires 0 <= i < |s| => if s[i] == ' ' then '-' else s[i])
  }

  /**
   * `.replace(/c/g, "")`: every `c` deleted and every other character kept;
   * `RemoveConcat` states that their order is kept.
   */
  function Remove(s: string, c: char): (r: string)
    ensures c !in r
    ensures forall x :: x in r <==> x in s && x != c
    ensures |r| == |s| - Count(s, c)
  {
    if s == [] then []
    else if s[0] == c then Remove(s[1..], c)
    else [s[0]] + Remove(s[1..], c)
  }

  /** Deleting distributes over concatenation, so the kept characters stay in their order. */
  lemma {:induction false} RemoveConcat(a: string, b: string, c: char)
    ensures Remove(a + b, c) == Remove(a, c) + Remove(b, c)
    decreases |a|
  {
    if a == [] {
      assert a + b == b;
    } else {
      assert (a + b)[0] == a[0];
      assert (a + b)[1..] == a[1..] + b;
      RemoveConcat(a[1..], b, c);
      var x, y := Remove(a[1..], c), Remove(b, c);
      assert [a[0]] + (x + y) == ([a[0]] + x) + y;
    }
  }

  /** How many times `c` occurs in `s`. */
  function Count(s: string, c: char): nat {
    if s == [] then 0 else (if s[0] == c then 1 else 0) + Count(s[1..], c)
  }

  /** The anchor of a heading text: spaces to dashes, apostrophes and question marks deleted, lower-cased. */
  function Slug(s: string): string {
    Lower(Remove(Remove(SpacesToDashes(s), '\''), '?'))
  }

  /**
   * `props.children?.toString()...`: no id without children. The text of
   * the children is the result of their `toString`, a parameter here.
   */
  function HeadingId(children: Option<string>): (id: Option<string>)
    ensures id.None? <==> children.None?
    ensures children.Some? ==> id == Some(Slug(children.value))
  {
    match children
    case None => None
    case Some(text) => Some(Slug(text))
  }

  /**
   * The `id` the rendered `<h2>` carries: `id={id}` comes before
   * `{...props}`, so an `id` in the props wins over the computed slug.
   */
  function RenderedHeadingId(children: Option<string>, propsId: Option<string>): (rid: Option<string>)
    ensures propsId.Some? ==> rid == propsId
    ensures propsId.None? ==> (rid.None? <==> children.None?)
    ensures propsId.None? && children.Some? ==> rid == Some(Slug(children.value))
  {
    if propsId.Some? then propsId else HeadingId(children)
  }

  /** The same slug in one pass over the text, character by character. */
  function SlugChars(s: string): string {
    if s == [] then []
    else if s[0] == '\'' || s[0] == '?' then SlugChars(s[1..])
    else [LowerChar(if s[0] == ' ' then '-' else s[0])] + SlugChars(s[1..])
  }

  /** The three passes agree with the one-pass reading. */
  lemma {:induction false} SlugIsSlugChars(s: string)
    ensures Slug(s) == SlugChars(s)
    decreases |s|
  {
    if s != [] {
      SlugIsSlugChars(s[1..]);
      var d := SpacesToDashes(s);
      assert d == [d[0]] + SpacesToDashes(s[1..]);
      var e := Remove(d, '\'');
      assert e == (if d[0] == '\'' then [] else [d[0]]) + Remove(SpacesToDashes(s[1..]), '\'');
      var f := Remove(e, '?');
      var rest := Remove(Remove(SpacesToDashes(s[1..]), '\''), '?');
      if d[0] == '\'' || d[0] == '?' {
        assert f == rest;
      } else {
        assert f == [d[0]] + rest;
        assert Lower(f) == [LowerChar(d[0])] + Lower(rest);
      }
    }
  }

  /** An anchor holds no space, apostrophe or question mark, and is as long as the text less its apostrophes and question marks. */
  lemma SlugShape(s: string)
    ensures ' ' !in Slug(s) && '\'' !in Slug(s) && '?' !in Slug(s)
    ensures |Slug(s)| == |s| - Count(s, '\'') - Count(s, '?')
  {
    var d := SpacesToDashes(s);
    var e := Remove(d, '\'');
    var f := Remove(e, '?');
    assert ' ' !in d;
    assert ' ' !in f && '\'' !in f;
    forall i | 0 <= i < |f| ensures Slug(s)[i] != ' ' && Slug(s)[i] != '\'' && Slug(s)[i] != '?' {
      assert f[i] in f;
    }
    CountDashes(s, '\'');
    CountDashes(s, '?');
    CountRemove(d, '\'', '?');
  }

  lemma {:induction false} CountDashes(s: string, c: char)
    requires c != ' ' && c != '-'
    ensures Count(SpacesToDashes(s), c) == Count(s, c)
    decreases |s|
  {
    if s != [] {
      CountDashes(s[1..], c);
      assert SpacesToDashes(s)[1..] == SpacesToDashes(s[1..]);
    }
  }

  lemma {:induction false} CountRemove(s: string, c: char, k: char)
    requires c != k
    ensures Count(Remove(s, c), k) == Count(s, k)
    decreases |s|
  {
    if s != [] {
      CountRemove(s[1..], c, k);
      if s[0] != c {
        assert (([s[0]] + Remove(s[1..], c)))[1..] == Remove(s[1..], c);
      }
    }
  }

  /** Taking the anchor of an anchor changes nothing. */
  lemma SlugIdempotent(s: string)
    ensures Slug(Slug(s)) == Slug(s)
  {
    var t := Slug(s);
    SlugShape(s);
    assert SpacesToDashes(t) == t;
    RemoveAbsent(t, '\'');
    RemoveAbsent(t, '?');
    forall i | 0 <= i < |t| ensures LowerChar(t[i]) == t[i] {
      var f := Remove(Remove(SpacesToDashes(s), '\''), '?');
      assert t[i] == LowerChar(f[i]);
    }
  }

  lemma {:induction false} RemoveAbsent(s: string, c: char)
    requires c !in s
    ensures Remove(s, c) == s
    decreases |s|
  {
    if s != [] {
      RemoveAbsent(s[1..], c);
      assert s == [s[0]] + s[1..];
    }
  }

  /** What the `code` renderer is given: string children or other nodes, and the five optional annotations. */
  datatype CodeChildren = TextChildren(text: string) | NodeChildren

  datatype CodeProps = CodeProps(
    children: CodeChildren,
    raw: Option<string>,
    npm: Option<string>,
    yarn: Option<string>,
    pnpm: Option<string>,
    bun: Option<string>)

  /** Inline code, the package-manager command block, or the default block with an optional copy button holding the raw text. */
  datatype CodeView =
    | Inline(text: string)
    | Command(npm: string, yarn: string, pnpm: string, bun: string)
    | Block(copy: Option<string>)

  /** The `code` entry. */
  function RenderCode(p: CodeProps): CodeView {
    if p.children.TextChildren? then Inline(p.children.text)
    else if Truthy(p.npm) && Truthy(p.yarn) && Truthy(p.pnpm) && Truthy(p.bun) then
      Command(p.npm.value, p.yarn.value, p.pnpm.value, p.bun.value)
    else Block(if Truthy(p.raw) then p.raw else None)
  }

  /**
   * String children always give inline code, whatever the annotations; the
   * command block needs all four package-manager commands non-empty; the
   * default block has a copy button exactly when the raw text is non-empty.
   */
  lemma CodeDispatch(p: CodeProps)
    ensures RenderCode(p).Inline? <==> p.children.TextChildren?
    ensures RenderCode(p).Command? <==>
      p.children.NodeChildren? && Truthy(p.npm) && Truthy(p.yarn) && Truthy(p.pnpm) && Truthy(p.bun)
    ensures RenderCode(p).Command? ==>
      RenderCode(p) == Command(p.npm.value, p.yarn.value, p.pnpm.value, p.bun.value)
    ensures RenderCode(p).Block? ==> (RenderCode(p).copy.Some? <==> Truthy(p.raw))
    ensures RenderCode(p).Block? && Truthy(p.raw) ==> RenderCode(p).copy == p.raw
  {
  }

  /** Annotations never matter to text children. */
  lemma InlineIgnoresAnnotations(p: CodeProps, q: CodeProps)
    requires p.children.TextChildren? && q.children == p.children
    ensures RenderCode(p) == RenderCode(q)
  {
  }

  /** `useMDXComponents`: `{ ...mdxComponents, ...components }`. */
  function Merge<C>(builtins: map<string, C>, components: map<string, C>): (merged: map<string, C>)
    ensures merged.Keys == builtins.Keys + components.Keys
    ensures forall k :: k in components ==> merged[k] == components[k]
    ensures forall k :: k in builtins && k !in components ==> merged[k] == builtins[k]
  {
    builtins + components
  }

  /** No caller components leave the built-in table as it is; laying the same components over twice is laying them once. */
  lemma MergeLaws<C>(builtins: map<string, C>, components: map<string, C>)
    ensures Merge(builtins, map[]) == builtins
    ensures Merge(Merge(builtins, components), components) == Merge(builtins, components)
  {
  }
}
