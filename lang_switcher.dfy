/**
 * template/lang-switcher.tsx: `LangSwitcher` reads the locale off the
 * current pathname and links to the same page in the other locale. The
 * pathname (from the router) is a parameter here.
 */
module LangSwitcher {
  import opened Strings

  /** The two locales, in the order `locales.find` tries them. */
  datatype Locale = En | Ar

  function Code(l: Locale): (code: string)
    ensures |code| == 2
  {
    match l
    case En => "en"
    case Ar => "ar"
  }

  /** `/${locale}`. */
  function Root(l: Locale): (r: string)
    ensures |r| == 3 && r[0] == '/'
  {
    "/" + Code(l)
  }

  /** The detection test: the path starts with `/loc/` or is exactly `/loc`. */
  predicate Detects(pathname: string, l: Locale) {
    StartsWith(pathname, Root(l) + "/") || pathname == Root(l)
  }

  /** `locales.find(...) || "en"`: the first locale the path shows, English when it shows none. */
  function CurrentLocale(pathname: string): (cur: Locale)
    ensures cur == Ar <==> Detects(pathname, Ar)
    ensures Detects(pathname, En) ==> cur == En
  {
    NotBoth(pathname);
    if Detects(pathname, En) then En
    else if Detects(pathname, Ar) then Ar
    else En
  }

  /** No path shows both locales: they differ in the character after the slash. */
  lemma NotBoth(pathname: string)
    ensures !(Detects(pathname, En) && Detects(pathname, Ar))
  {
    Shown(pathname, En);
    Shown(pathname, Ar);
    assert Root(En)[1] != Root(Ar)[1];
  }

  /** A path showing `l` begins with `/` and the code of `l`. */
  lemma Shown(pathname: string, l: Locale)
    ensures Detects(pathname, l) ==> |pathname| >= 3 && pathname[..3] == Root(l)
  {
    if StartsWith(pathname, Root(l) + "/") {
      assert pathname[..3] == (Root(l) + "/")[..3];
    }
  }

  /** The toggle `currentLocale === "en" ? "ar" : "en"`: always the other locale. */
  function Target(cur: Locale): (t: Locale)
    ensures t != cur
  {
    if cur == En then Ar else En
  }

  /**
   * `getLocalePath()`: when the path starts with `/${currentLocale}` as raw
   * characters, the first occurrence of that prefix becomes
   * `/${targetLocale}`; otherwise `/${targetLocale}` is put in front.
   */
  function LocalePath(pathname: string): (href: string)
    ensures StartsWith(href, Root(Target(CurrentLocale(pathname))))
    ensures StartsWith(pathname, Root(CurrentLocale(pathname))) ==>
      href == Root(Target(CurrentLocale(pathname))) + pathname[3..]
    ensures !StartsWith(pathname, Root(CurrentLocale(pathname))) ==>
      href == Root(Target(CurrentLocale(pathname))) + pathname
  {
    var cur := CurrentLocale(pathname);
    var t := Target(cur);
    if StartsWith(pathname, Root(cur)) then
      var href := ReplaceFirst(pathname, Root(cur), Root(t));
      assert (Root(t) + pathname[3..])[..3] == Root(t);
      href
    else
      assert (Root(t) + pathname)[..3] == Root(t);
      Root(t) + pathname
  }

  /** What the button says: `Switch to ${targetConfig.nativeName}`. */
  function NativeName(l: Locale): string {
    match l
    case En => "English"
    case Ar => "العربية"
  }

  datatype Switcher = Switcher(href: string, title: string)

  function Render(pathname: string): Switcher {
    Switcher(LocalePath(pathname), "Switch to " + NativeName(Target(CurrentLocale(pathname))))
  }

  /** A path that shows its locale keeps the rest of the path, shows the other locale after switching, and switching again gives it back. */
  lemma SwitchDetected(pathname: string, l: Locale)
    requires Detects(pathname, l)
    ensures CurrentLocale(pathname) == l
    ensures LocalePath(pathname) == Root(Target(l)) + pathname[3..]
    ensures Detects(LocalePath(pathname), Target(l))
    ensures CurrentLocale(LocalePath(pathname)) == Target(l)
    ensures LocalePath(LocalePath(pathname)) == pathname
  {
    NotBoth(pathname);
    var rest := pathname[3..];
    assert pathname == Root(l) + rest by {
      assert pathname[..3] == Root(l);
    }
    var href := Root(Target(l)) + rest;
    assert href[..3] == Root(Target(l));
    assert href[3..] == rest;
    if pathname != Root(l) {
      assert pathname[..4] == Root(l) + "/";
      assert rest[0] == pathname[3] == '/';
      assert href[..4] == Root(Target(l)) + "/";
    }
    NotBoth(href);
  }

  /** A path showing no locale counts as English; the link puts `/ar` in front of the whole path, unless the raw prefix `/en` is there anyway. */
  lemma SwitchUndetected(pathname: string)
    requires !Detects(pathname, En) && !Detects(pathname, Ar)
    ensures CurrentLocale(pathname) == En
    ensures !StartsWith(pathname, "/en") ==> LocalePath(pathname) == "/ar" + pathname
    ensures StartsWith(pathname, "/en") ==> LocalePath(pathname) == "/ar" + pathname[3..]
  {
  }

  /**
   * The raw prefix test is looser than detection: `/english` shows no
   * locale, yet its leading `/en` is rewritten, giving `/arglish`, a path
   * that shows no locale either.
   */
  lemma EnglishWordRewritten(pathname: string)
    requires pathname == "/english"
    ensures CurrentLocale(pathname) == En
    ensures LocalePath(pathname) == "/arglish"
    ensures CurrentLocale(LocalePath(pathname)) == En
  {
    assert !StartsWith(pathname, "/en/") by { assert pathname[3] == 'g'; }
    assert !StartsWith(pathname, "/ar/") by { assert pathname[1] == 'e'; }
    assert pathname[..3] == "/en";
    assert "/ar" + pathname[3..] == "/arglish";
    var href := "/arglish";
    assert !StartsWith(href, "/ar/") by { assert href[3] == 'g'; }
    assert !StartsWith(href, "/en/") by { assert href[1] == 'a'; }
  }

  /** The link as evidently intended: rewrite the prefix only when it is the detected locale, else prepend. */
  function SwitchedPath(pathname: string): (href: string)
    ensures Detects(pathname, CurrentLocale(pathname)) ==>
      href == Root(Target(CurrentLocale(pathname))) + pathname[3..]
    ensures !Detects(pathname, CurrentLocale(pathname)) ==>
      href == Root(Target(CurrentLocale(pathname))) + pathname
  {
    var cur := CurrentLocale(pathname);
    var t := Target(cur);
    if Detects(pathname, cur) then
      Shown(pathname, cur);
      assert StartsWith(pathname, Root(cur));
      ReplaceFirst(pathname, Root(cur), Root(t))
    else Root(t) + pathname
  }

  /** Every pathname (they begin with "/") links to a path that shows the other locale. */
  lemma SwitchedPathShowsTarget(pathname: string)
    requires |pathname| > 0 && pathname[0] == '/'
    ensures CurrentLocale(SwitchedPath(pathname)) == Target(CurrentLocale(pathname))
  {
    var cur := CurrentLocale(pathname);
    if Detects(pathname, cur) {
      SwitchDetected(pathname, cur);
    } else {
      var href := Root(Target(cur)) + pathname;
      assert href[..4] == Root(Target(cur)) + "/";
      NotBoth(href);
    }
  }

  /** The two agree on every path that shows its locale; they part only on undetected paths that begin with `/en`. */
  lemma SwitchedPathAgrees(pathname: string)
    requires Detects(pathname, CurrentLocale(pathname)) || !StartsWith(pathname, "/en")
    ensures SwitchedPath(pathname) == LocalePath(pathname)
  {
    if Detects(pathname, CurrentLocale(pathname)) {
      SwitchDetected(pathname, CurrentLocale(pathname));
    }
  }
}
