/**
 * docs/docs-sidebar.tsx: `DocsSidebar` lists the fixed documentation links,
 * each prefixed with the locale, and marks the link of the current page
 * active. The pathname (from the router) is a parameter here; the page tree
 * prop is accepted but unused, and is not modelled.
 */
module DocsSidebar {
  import opened Wrappers
  import opened Strings
  import DocsNav

  datatype DocsLink = DocsLink(key: string, href: string, fallback: string)

  /** `DOCS_LINKS`. */
  const DocsLinks: seq<DocsLink> := [
    DocsLink("introduction", "/docs", "Introduction"),
    DocsLink("architecture", "/docs/architecture", "Architecture"),
    DocsLink("prd", "/docs/prd", "PRD"),
    DocsLink("epics", "/docs/epics", "Epics"),
    DocsLink("infrastructure", "/docs/infrastructure", "Infrastructure"),
    DocsLink("phase1", "/docs/phase1", "Phase 1: Individual"),
    DocsLink("phase2", "/docs/phase2", "Phase 2: Team"),
    DocsLink("phase3", "/docs/phase3", "Phase 3: Commercial")]

  /** One menu entry: its text, its target, and whether it is styled active. */
  datatype MenuItem = MenuItem(text: string, target: string, active: bool)

  /** `isActive`: the pathname is the prefixed href or the bare one. */
  predicate Active(pathname: string, prefix: string, href: string) {
    pathname == prefix + href || pathname == href
  }

  /** The entry of one link: target `prefix + href`. */
  function ItemOf(link: DocsLink, pathname: string, prefix: string): MenuItem {
    MenuItem(link.fallback, prefix + link.href, Active(pathname, prefix, link.href))
  }

  /** `DOCS_LINKS.map(...)` under the prefix of `lang`. */
  function Render(pathname: string, lang: Option<string>): seq<MenuItem> {
    var prefix := DocsNav.Prefix(lang);
    seq(|DocsLinks|, i requires 0 <= i < |DocsLinks| => ItemOf(DocsLinks[i], pathname, prefix))
  }

  /**
   * Eight entries in the order of `DOCS_LINKS`; each targets the locale
   * prefix (`/lang`, or nothing without a language) followed by its href,
   * and is active exactly when the pathname is that target or the bare href.
   */
  lemma MenuShape(pathname: string, lang: Option<string>)
    ensures |Render(pathname, lang)| == 8
    ensures forall i :: 0 <= i < 8 ==>
      && Render(pathname, lang)[i].text == DocsLinks[i].fallback
      && Render(pathname, lang)[i].target == DocsNav.Prefix(lang) + DocsLinks[i].href
      && (Render(pathname, lang)[i].active <==>
            pathname == DocsNav.Prefix(lang) + DocsLinks[i].href || pathname == DocsLinks[i].href)
  {
  }

  /** The shape every href has: `/docs`, or `/docs/` and a word with no slash that does not begin with `d`. */
  predicate DocsHref(h: string) {
    && |h| >= 5 && h[..5] == "/docs"
    && (|h| == 5 || (|h| > 6 && h[5] == '/' && h[6] != 'd' && '/' !in h[6..]))
  }

  lemma HrefShapes()
    ensures forall i :: 0 <= i < 8 ==> DocsHref(DocsLinks[i].href)
  {
    FrontHrefs();
    BackHrefs();
  }

  lemma FrontHrefs()
    ensures forall i :: 0 <= i < 4 ==> DocsHref(DocsLinks[i].href)
  {
    forall i | 0 <= i < 4 ensures DocsHref(DocsLinks[i].href) {
      if i == 0 {
        assert "/docs"[..5] == "/docs";
      } else {
        var words := ["architecture", "prd", "epics"];
        assert DocsLinks[i].href == "/docs/" + words[i - 1];
        WordHref(words[i - 1]);
      }
    }
  }

  lemma BackHrefs()
    ensures forall i :: 4 <= i < 8 ==> DocsHref(DocsLinks[i].href)
  {
    forall i | 4 <= i < 8 ensures DocsHref(DocsLinks[i].href) {
      var words := ["infrastructure", "phase1", "phase2", "phase3"];
      assert DocsLinks[i].href == "/docs/" + words[i - 4];
      WordHref(words[i - 4]);
    }
  }

  lemma WordHref(w: string)
    requires |w| > 0 && w[0] != 'd' && '/' !in w
    ensures DocsHref("/docs/" + w)
  {
    var h := "/docs/" + w;
    assert h[..5] == "/docs";
    assert h[6..] == w;
  }

  lemma HrefsDistinct()
    ensures forall i, j :: 0 <= i < j < 8 ==> DocsLinks[i].href != DocsLinks[j].href
  {
    forall i, j | 0 <= i < j < 8 ensures DocsLinks[i].href != DocsLinks[j].href {
      var a, b := DocsLinks[i].href, DocsLinks[j].href;
      if |a| == |b| {
        assert a[|a| - 1] != b[|b| - 1];
      }
    }
  }

  /** No href is a non-empty prefix followed by another href: "/docs" occurs in an href only at its start. */
  lemma NotShifted(a: string, p: string, b: string)
    requires DocsHref(a) && DocsHref(b) && |p| >= 1
    ensures a != p + b
  {
    if |p| + |b| == |a| {
      var k := |p|;
      assert b[0] == '/' && b[1] == 'd';
      if k < 5 {
        assert a[k] == "/docs"[k];
        assert a[k] != (p + b)[k];
      } else if k == 5 {
        assert a[k + 1] != (p + b)[k + 1];
      } else {
        assert a[k] in a[6..];
        assert a[k] != (p + b)[k];
      }
    }
  }

  lemma Cancel(p: string, x: string, y: string)
    requires p + x == p + y
    ensures x == y
  {
    assert x == (p + x)[|p|..];
  }

  /** Whatever the pathname and language, at most one entry is active. */
  lemma AtMostOneActive(pathname: string, lang: Option<string>, i: nat, j: nat)
    requires i < j < 8
    ensures !(Render(pathname, lang)[i].active && Render(pathname, lang)[j].active)
  {
    var prefix := DocsNav.Prefix(lang);
    var a, b := DocsLinks[i].href, DocsLinks[j].href;
    HrefShapes();
    HrefsDistinct();
    if prefix == "" {
      assert prefix + a == a && prefix + b == b;
    } else {
      NotShifted(a, prefix, b);
      NotShifted(b, prefix, a);
      if prefix + a == prefix + b {
        Cancel(prefix, a, b);
      }
    }
  }
}
