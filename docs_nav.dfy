/**
 * docs-nav.tsx: `DocsNav` turns the current pathname into a breadcrumb
 * trail. The pathname (from the router) and the optional `lang` prop are
 * parameters here.
 */
module DocsNav {
  import opened Wrappers
  import opened Strings

  /**
   * The pieces of `parts` other than `w`, in order (`filter(seg => seg !== w)`):
   * every other piece keeps its multiplicity, and `w` is gone. The order is
   * stated by `WithoutConcat` and `WithoutSingleton`.
   */
  function Without(parts: seq<string>, w: string): (kept: seq<string>)
    ensures forall x :: x in kept <==> x in parts && x != w
    ensures multiset(kept) == multiset(parts)[w := 0]
    ensures |kept| == |parts| - multiset(parts)[w]
  {
    if parts == [] then []
    else
      assert parts == [parts[0]] + parts[1..];
      if parts[0] == w then Without(parts[1..], w)
      else [parts[0]] + Without(parts[1..], w)
  }

  /** `lang ? "/" + lang : ""`. */
  function Prefix(lang: Option<string>): (p: string)
    ensures Truthy(lang) ==> p == "/" + lang.value
    ensures !Truthy(lang) ==> p == ""
  {
    if Truthy(lang) then "/" + lang.value else ""
  }

  /** `pathname.split("/").filter(Boolean)`, then, with `lang` set, every segment equal to it dropped. */
  function Segments(pathname: string, lang: Option<string>): (segs: seq<string>)
    ensures forall i :: 0 <= i < |segs| ==> segs[i] != "" && '/' !in segs[i]
    ensures Truthy(lang) ==> lang.value !in segs
  {
    var pieces := Without(Split(pathname, '/'), "");
    assert forall x :: x in pieces ==> x != "" && '/' !in x;
    if Truthy(lang) then
      var kept := Without(pieces, lang.value);
      assert forall i :: 0 <= i < |kept| ==> kept[i] in pieces;
      kept
    else
      assert forall i :: 0 <= i < |pieces| ==> pieces[i] in pieces;
      pieces
  }

  /** `word.charAt(0).toUpperCase() + word.slice(1)`. */
  function Capitalize(word: string): string {
    if word == [] then [] else [UpperChar(word[0])] + word[1..]
  }

  function CapitalizeAll(words: seq<string>): (caps: seq<string>)
    ensures |caps| == |words|
  {
    if words == [] then [] else [Capitalize(words[0])] + CapitalizeAll(words[1..])
  }

  /** `segment.split("-").map(capitalize).join(" ")`. */
  function FormatName(segment: string): string {
    Join(CapitalizeAll(Split(segment, '-')), ' ')
  }

  /** What the name means, character by character: dashes become spaces, and the first letter of each word is upper-cased. */
  function Titled(s: string): (t: string)
    ensures |t| == |s|
  {
    seq(|s|, i requires 0 <= i < |s| =>
      if s[i] == '-' then ' '
      else if i == 0 || s[i - 1] == '-' then UpperChar(s[i])
      else s[i])
  }

  /** The formatted name is `Titled`: same length, spaces for dashes, an upper-cased letter opening each word, the rest unchanged. */
  lemma {:induction false} FormatNameTitles(s: string)
    ensures FormatName(s) == Titled(s)
    decreases |s|
  {
    var k := Find(s, '-');
    if k == |s| {
      SplitNone(s, '-');
      assert FormatName(s) == Capitalize(s);
      TitledWord(s);
    } else {
      var w, t := s[..k], s[k + 1..];
      SplitAtFirst(s, '-', k);
      FormatNameTitles(t);
      var words := Split(t, '-');
      assert CapitalizeAll([w] + words) == [Capitalize(w)] + CapitalizeAll(words);
      assert FormatName(s) == Capitalize(w) + [' '] + FormatName(t);
      TitledJoin(w, t);
      assert s == w + ['-'] + t;
    }
  }

  /** A dash-free word is titled by upper-casing its first character. */
  lemma TitledWord(w: string)
    requires '-' !in w
    ensures Titled(w) == Capitalize(w)
  {
    forall i | 0 <= i < |w| ensures Titled(w)[i] == Capitalize(w)[i] {
      assert w[i] in w;
      if i > 0 { assert w[i - 1] in w; }
    }
  }

  /** Titling a dash-free word, a dash and a rest: the capitalized word, a space, the titled rest. */
  lemma TitledJoin(w: string, t: string)
    requires '-' !in w
    ensures Titled(w + ['-'] + t) == Capitalize(w) + [' '] + Titled(t)
  {
    var s := w + ['-'] + t;
    var k := |w|;
    var rhs := Capitalize(w) + [' '] + Titled(t);
    TitledWord(w);
    forall i | 0 <= i < |s| ensures Titled(s)[i] == rhs[i] {
      if i < k {
        assert s[i] == w[i] && Titled(s)[i] == Titled(w)[i];
        if i > 0 { assert s[i - 1] == w[i - 1]; }
      } else if i > k {
        assert rhs[i] == Titled(t)[i - k - 1];
        assert s[i] == t[i - k - 1];
        if i > k + 1 { assert s[i - 1] == t[i - k - 2]; }
      }
    }
  }

  datatype Crumb = Crumb(name: string, href: string, isLast: bool)

  /** Breadcrumb `k`: the formatted segment, the prefix plus the first `k + 1` segments, last for the final one. */
  function CrumbAt(segs: seq<string>, prefix: string, k: nat): Crumb
    requires k < |segs|
  {
    Crumb(FormatName(segs[k]), prefix + "/" + Join(segs[..k + 1], '/'), k == |segs| - 1)
  }

  /** `filteredSegments.map(...)`. */
  function Breadcrumbs(pathname: string, lang: Option<string>): seq<Crumb> {
    var segs := Segments(pathname, lang);
    seq(|segs|, k requires 0 <= k < |segs| => CrumbAt(segs, Prefix(lang), k))
  }

  /** A link of the trail; `current` is the style of the final breadcrumb. */
  datatype NavLink = NavLink(text: string, href: string, current: bool)

  /** `DocsNav`: nothing for at most one breadcrumb, else a "Docs" link followed by every breadcrumb but the first. */
  function Render(pathname: string, lang: Option<string>): Option<seq<NavLink>> {
    var crumbs := Breadcrumbs(pathname, lang);
    if |crumbs| <= 1 then None
    else
      Some([NavLink("Docs", Prefix(lang) + "/docs", false)]
           + seq(|crumbs| - 1, i requires 0 <= i < |crumbs| - 1 =>
               NavLink(crumbs[i + 1].name, crumbs[i + 1].href, crumbs[i + 1].isLast)))
  }

  /** A trail is drawn exactly when there are at least two segments; it is as long as the breadcrumbs, its head the fixed "Docs" link. */
  lemma TrailShape(pathname: string, lang: Option<string>)
    ensures var crumbs, nav := Breadcrumbs(pathname, lang), Render(pathname, lang);
      && (nav.Some? <==> |Segments(pathname, lang)| >= 2)
      && (nav.Some? ==>
            && |nav.value| == |crumbs|
            && nav.value[0] == NavLink("Docs", Prefix(lang) + "/docs", false)
            && forall i :: 1 <= i < |crumbs| ==>
                 nav.value[i] == NavLink(crumbs[i].name, crumbs[i].href, crumbs[i].isLast))
  {
    var crumbs := Breadcrumbs(pathname, lang);
    assert |crumbs| == |Segments(pathname, lang)|;
  }

  /** Exactly the final breadcrumb is flagged last, and so exactly the final link of a trail is styled current. */
  lemma OnlyLastIsLast(pathname: string, lang: Option<string>)
    ensures var crumbs := Breadcrumbs(pathname, lang);
      forall k :: 0 <= k < |crumbs| ==> (crumbs[k].isLast <==> k == |crumbs| - 1)
    ensures var nav := Render(pathname, lang);
      nav.Some? ==> forall i :: 0 <= i < |nav.value| ==> (nav.value[i].current <==> i == |nav.value| - 1)
  {
  }

  /** The href of an earlier breadcrumb is a proper prefix of every later one, so the hrefs are distinct. */
  lemma HrefsLengthen(pathname: string, lang: Option<string>, k: nat, l: nat)
    requires k < l < |Breadcrumbs(pathname, lang)|
    ensures var crumbs := Breadcrumbs(pathname, lang);
      && StartsWith(crumbs[l].href, crumbs[k].href)
      && |crumbs[k].href| < |crumbs[l].href|
      && crumbs[k].href != crumbs[l].href
  {
    var segs := Segments(pathname, lang);
    var prefix := Prefix(lang);
    var a, b := segs[..k + 1], segs[k + 1..l + 1];
    assert segs[..l + 1] == a + b;
    JoinAppend(a, b, '/');
    var hk := prefix + "/" + Join(a, '/');
    var hl := prefix + "/" + Join(a + b, '/');
    assert hl == hk + ([ '/' ] + Join(b, '/'));
    assert hl[..|hk|] == hk;
  }

  /** A pathname built from clean segments gives those segments back (when none equals a set `lang`). */
  lemma SegmentsOfPath(segs: seq<string>, lang: Option<string>)
    requires |segs| >= 1
    requires forall i :: 0 <= i < |segs| ==> segs[i] != "" && '/' !in segs[i]
    requires Truthy(lang) ==> lang.value !in segs
    ensures Segments("/" + Join(segs, '/'), lang) == segs
  {
    var parts := [""] + segs;
    JoinAppend([""], segs, '/');
    assert Join([""], '/') == "";
    assert "/" + Join(segs, '/') == Join(parts, '/');
    forall i | 0 <= i < |parts| ensures '/' !in parts[i] {
      if i > 0 { assert parts[i] == segs[i - 1]; }
    }
    SplitJoin(parts, '/');
    assert parts[1..] == segs;
    WithoutAbsent(segs, "");
    if Truthy(lang) {
      WithoutAbsent(segs, lang.value);
    }
  }

  lemma {:induction false} WithoutAbsent(parts: seq<string>, w: string)
    requires w !in parts
    ensures Without(parts, w) == parts
    decreases |parts|
  {
    if parts != [] {
      assert parts[0] != w;
      WithoutAbsent(parts[1..], w);
      assert parts == [parts[0]] + parts[1..];
    }
  }

  /** Filtering a one-piece list keeps the piece exactly when it is not `w`. */
  lemma WithoutSingleton(x: string, w: string)
    ensures Without([x], w) == if x == w then [] else [x]
  {
  }

  /** Filtering distributes over concatenation, so the kept pieces stay in their order. */
  lemma {:induction false} WithoutConcat(a: seq<string>, b: seq<string>, w: string)
    ensures Without(a + b, w) == Without(a, w) + Without(b, w)
    decreases |a|
  {
    if a == [] {
      assert a + b == b;
    } else {
      assert (a + b)[0] == a[0];
      assert (a + b)[1..] == a[1..] + b;
      WithoutConcat(a[1..], b, w);
      var x, y := Without(a[1..], w), Without(b, w);
      assert [a[0]] + (x + y) == ([a[0]] + x) + y;
    }
  }

  /**
   * With `lang` set, every segment equal to it is dropped, wherever it
   * occurs, and nothing else: the other segments keep their multiplicity,
   * and for every cut of the unfiltered segments the kept ones are the kept
   * ones before the cut followed by those after it, so their order is kept.
   */
  lemma LangSegmentsDropped(pathname: string, lang: string)
    requires lang != ""
    ensures var all, kept := Segments(pathname, None), Segments(pathname, Some(lang));
      && kept == Without(all, lang)
      && multiset(kept) == multiset(all)[lang := 0]
      && |kept| == |all| - multiset(all)[lang]
      && (forall i :: 0 <= i <= |all| ==> kept == Without(all[..i], lang) + Without(all[i..], lang))
  {
    var all := Segments(pathname, None);
    forall i | 0 <= i <= |all|
      ensures Without(all, lang) == Without(all[..i], lang) + Without(all[i..], lang)
    {
      assert all == all[..i] + all[i..];
      WithoutConcat(all[..i], all[i..], lang);
    }
  }

  /**
   * A worked example: a pathname whose segments under `lang` "ar" are
   * `docs` and `phase1` (such as `/ar/docs/phase1`, see `ArabicSegments`)
   * gets the "Docs" link to `/ar/docs` and a current link to
   * `/ar/docs/phase1`.
   */
  lemma ArabicDocsExample(pathname: string)
    requires Segments(pathname, Some("ar")) == ["docs", "phase1"]
    ensures var nav := Render(pathname, Some("ar"));
      && nav.Some? && |nav.value| == 2
      && nav.value[0] == NavLink("Docs", "/ar/docs", false)
      && nav.value[1].href == "/ar/docs/phase1" && nav.value[1].current
  {
    TwoSegmentTrail(pathname, Some("ar"));
    ArabicHrefs();
  }

  lemma ArabicHrefs()
    ensures Prefix(Some("ar")) + "/docs" == "/ar/docs"
    ensures Prefix(Some("ar")) + "/" + Join(["docs", "phase1"], '/') == "/ar/docs/phase1"
  {
    var prefix := Prefix(Some("ar"));
    assert prefix == "/ar" by { assert Truthy(Some("ar")); }
    PairJoin("docs", "phase1");
  }

  lemma PairJoin(a: string, b: string)
    ensures Join([a, b], '/') == a + "/" + b
  {
    assert [a, b][1..] == [b];
  }

  /** The trail of a pathname with exactly two segments. */
  lemma TwoSegmentTrail(pathname: string, lang: Option<string>)
    requires |Segments(pathname, lang)| == 2
    ensures var segs, nav := Segments(pathname, lang), Render(pathname, lang);
      && nav.Some? && |nav.value| == 2
      && nav.value[0] == NavLink("Docs", Prefix(lang) + "/docs", false)
      && nav.value[1] == NavLink(FormatName(segs[1]), Prefix(lang) + "/" + Join(segs, '/'), true)
  {
    var segs := Segments(pathname, lang);
    var crumbs := Breadcrumbs(pathname, lang);
    assert crumbs[1] == CrumbAt(segs, Prefix(lang), 1);
    assert segs[..2] == segs;
  }

  lemma ArabicSegments()
    ensures Segments("/ar/docs/phase1", Some("ar")) == ["docs", "phase1"]
  {
    var segs := ["ar", "docs", "phase1"];
    ArabicPath(segs);
    SegmentsOfPath(segs, None);
    LangFilter("/" + Join(segs, '/'), segs, "ar");
    DropAr(segs);
  }

  lemma ArabicPath(segs: seq<string>)
    requires segs == ["ar", "docs", "phase1"]
    ensures "/" + Join(segs, '/') == "/ar/docs/phase1"
  {
    PairJoin("docs", "phase1");
    assert segs[1..] == ["docs", "phase1"];
  }

  lemma DropAr(segs: seq<string>)
    requires segs == ["ar", "docs", "phase1"]
    ensures Without(segs, "ar") == ["docs", "phase1"]
  {
    var tail := ["docs", "phase1"];
    assert segs[1..] == tail && tail[1..] == ["phase1"] && tail[1..][1..] == [];
    assert Without(["phase1"], "ar") == ["phase1"];
    assert Without(tail, "ar") == tail;
  }

  /** With `lang` set, the segments are those of the path without `lang` dropped, less the pieces equal to `lang`. */
  lemma LangFilter(pathname: string, segs: seq<string>, lang: string)
    requires lang != "" && Segments(pathname, None) == segs
    ensures Segments(pathname, Some(lang)) == Without(segs, lang)
  {
  }
}
