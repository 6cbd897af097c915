/**
 * docs/component-source.tsx: `ComponentSource` shows a code sample with a
 * language for highlighting, a caption when it has a title, and a
 * collapsible wrapper unless told otherwise. The highlighting itself is an
 * asynchronous library call and is not modelled.
 */
module ComponentSource {
  import opened Wrappers
  import opened Strings

  /** `collapsible` selects the collapsible wrapper; otherwise a plain container. */
  datatype Container = Collapsible | Plain

  datatype Figure = Figure(container: Container, language: string, caption: Option<string>, code: string)

  /** The last element of a non-empty sequence (`pop()`). */
  function Last(parts: seq<string>): string
    requires |parts| >= 1
  {
    parts[|parts| - 1]
  }

  /** `language ?? title?.split(".").pop() ?? "tsx"`: only an absent value falls through, so an empty `language` is kept. */
  function Lang(language: Option<string>, title: Option<string>): string {
    if language.Some? then language.value
    else if title.Some? then Last(Split(title.value, '.'))
    else "tsx"
  }

  /** `<ComponentSource code language title collapsible />`; `collapsible` is absent by default, which counts as true. */
  function Render(code: Option<string>, language: Option<string>, title: Option<string>, collapsible: Option<bool>): (fig: Option<Figure>)
    ensures fig.None? <==> code.None? || code.value == ""
  {
    if code.None? || code.value == "" then None
    else
      var c := if collapsible.GetOr(true) then Collapsible else Plain;
      var caption := if title.Some? && title.value != "" then title else None;
      Some(Figure(c, Lang(language, title), caption, code.value))
  }

  /**
   * With no `language`, the language is the text after the title's last dot:
   * it holds no dot, ends the title, and is either the whole title or
   * preceded by a dot.
   */
  lemma TitleSuffix(title: string)
    ensures var lang := Lang(None, Some(title));
      && '.' !in lang
      && |lang| <= |title| && title[|title| - |lang|..] == lang
      && (lang == title || title[|title| - |lang| - 1] == '.')
  {
    var parts := Split(title, '.');
    var lang := Last(parts);
    JoinSplit(title, '.');
    if |parts| >= 2 {
      var front := parts[..|parts| - 1];
      assert parts == front + [lang];
      JoinAppend(front, [lang], '.');
      assert title == Join(front, '.') + ['.'] + lang;
    }
  }

  /** A title with no dot is its own language. */
  lemma DotlessTitle(title: string)
    requires '.' !in title
    ensures Lang(None, Some(title)) == title
  {
    SplitNone(title, '.');
  }

  /**
   * The choice of language: a present `language` wins verbatim (even
   * empty), then the title, then "tsx" when neither is given.
   */
  lemma LangPrecedence(language: Option<string>, title: Option<string>)
    ensures language.Some? ==> Lang(language, title) == language.value
    ensures language.None? && title.None? ==> Lang(language, title) == "tsx"
    ensures language.None? && title.Some? ==> Lang(language, title) == Last(Split(title.value, '.'))
  {
  }

  /**
   * A sample is drawn exactly when the code is non-empty; the wrapper is
   * collapsible unless `collapsible` is false; the caption is the title
   * exactly when the title is non-empty; the code is shown as given.
   */
  lemma FigureShape(code: Option<string>, language: Option<string>, title: Option<string>, collapsible: Option<bool>)
    requires code.Some? && code.value != ""
    ensures var fig := Render(code, language, title, collapsible);
      && fig.Some?
      && (fig.value.container == Plain <==> collapsible == Some(false))
      && (fig.value.caption.Some? <==> title.Some? && title.value != "")
      && (fig.value.caption.Some? ==> fig.value.caption == title)
      && fig.value.code == code.value
      && fig.value.language == Lang(language, title)
  {
  }
}
