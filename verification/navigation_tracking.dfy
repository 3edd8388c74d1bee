/**
  The expo-router navigation hook `useNavigationTracking`: the screen-name
  formatter and the effect that tracks a page view and a screen change when
  the pathname changes. The router, the search parameters and the custom
  formatter are inputs; the custom formatter is represented by the name it
  returns for the current path, if one is configured.
 */
module NavigationTracking {
  import opened JsSemantics
  import opened Text
  import opened ParselyModule

  /** `segment.split(/[-_]/)`'s separators. */
  const WordSeparators: set<char> := {'-', '_'}

  /** Whether a segment is a dynamic route such as `[id]`; a one-character segment cannot both start with `[` and end with `]`. */
  predicate IsDynamicSegment(segment: string) {
    |segment| >= 2 && segment[0] == '[' && segment[|segment| - 1] == ']'
  }

  function CapitalizeAll(words: seq<string>): (r: seq<string>)
    ensures |r| == |words|
    ensures forall i :: 0 <= i < |words| ==> r[i] == CapitalizeFirst(words[i])
  {
    seq(|words|, i requires 0 <= i < |words| => CapitalizeFirst(words[i]))
  }

  /**
    One path segment of a screen name: `[x]` gives `x` with its first word
    character upper-cased; anything else is cut at `-` and `_` and the words,
    each with its first word character upper-cased, are run together.
   */
  function FormatSegment(segment: string): (r: string)
    ensures IsDynamicSegment(segment) ==> |r| == |segment| - 2
    ensures !IsDynamicSegment(segment) ==> |r| == |segment| - CountIn(segment, WordSeparators)
    ensures !IsDynamicSegment(segment) ==> Avoids(r, WordSeparators)
    ensures IsDynamicSegment(segment) ==> r == CapitalizeFirst(segment[1..|segment| - 1])
    ensures !IsDynamicSegment(segment) ==> r == Concat(CapitalizeAll(Split(segment, WordSeparators)))
  {
    if IsDynamicSegment(segment) then CapitalizeFirst(segment[1..|segment| - 1])
    else
      PlainWordsShape(segment);
      Concat(CapitalizeAll(Split(segment, WordSeparators)))
  }

  /** Upper-casing a first character never produces a character outside `cs` from one inside it, for cs free of letters. */
  lemma CapitalizeFirstAvoids(w: string, cs: set<char>)
    requires Avoids(w, cs)
    requires forall c :: 'A' <= c <= 'Z' ==> c !in cs
    ensures Avoids(CapitalizeFirst(w), cs)
  {
    var r := CapitalizeFirst(w);
    forall i | 0 <= i < |r|
      ensures r[i] !in cs
    {
      if i > 0 {
        assert r[i] == r[1..][i - 1] == w[1..][i - 1] == w[i];
      }
    }
  }

  /**
    Cutting a segment at `-` and `_` and running the capitalised words
    together loses exactly those characters, and none are left.
   */
  lemma PlainWordsShape(segment: string)
    ensures var r := Concat(CapitalizeAll(Split(segment, WordSeparators)));
      |r| == |segment| - CountIn(segment, WordSeparators) && Avoids(r, WordSeparators)
  {
    var words := Split(segment, WordSeparators);
    var capitalised := CapitalizeAll(words);
    SplitLength(segment, WordSeparators);
    ConcatLength(capitalised);
    assert TotalLength(capitalised) == TotalLength(words) by {
      SameLengthsSameTotal(capitalised, words);
    }
    forall i | 0 <= i < |capitalised|
      ensures Avoids(capitalised[i], WordSeparators)
    {
      CapitalizeFirstAvoids(words[i], WordSeparators);
    }
    ConcatAvoids(capitalised, WordSeparators);
  }

  lemma {:induction false} SameLengthsSameTotal(a: seq<string>, b: seq<string>)
    requires |a| == |b|
    requires forall i :: 0 <= i < |a| ==> |a[i]| == |b[i]|
    ensures TotalLength(a) == TotalLength(b)
    decreases |a|
  {
    if |a| > 0 {
      SameLengthsSameTotal(a[1..], b[1..]);
    }
  }

  /** Formatting a segment free of spaces yields no space. */
  lemma FormatSegmentAvoidsSpace(segment: string)
    requires Avoids(segment, {' '})
    ensures Avoids(FormatSegment(segment), {' '})
  {
    if IsDynamicSegment(segment) {
      var inner := segment[1..|segment| - 1];
      assert forall i :: 0 <= i < |inner| ==> inner[i] == segment[i + 1];
      CapitalizeFirstAvoids(inner, {' '});
    } else {
      var words := Split(segment, WordSeparators);
      forall i | 0 <= i < |words|
        ensures Avoids(CapitalizeFirst(words[i]), {' '})
      {
        WordAvoidsSpace(segment, i);
        CapitalizeFirstAvoids(words[i], {' '});
      }
      ConcatAvoids(CapitalizeAll(words), {' '});
    }
  }

  /** The words of a segment free of spaces are free of spaces. */
  lemma WordAvoidsSpace(segment: string, i: int)
    requires Avoids(segment, {' '})
    requires 0 <= i < |Split(segment, WordSeparators)|
    ensures Avoids(Split(segment, WordSeparators)[i], {' '})
  {
    var words := Split(segment, WordSeparators);
    JoinSplitAny(segment, WordSeparators);
    WordsOfConcatAvoid(segment, WordSeparators, {' '}, i);
  }

  /** Every character of a piece of `Split(s, seps)` is a character of `s`. */
  lemma {:induction false} JoinSplitAny(s: string, seps: set<char>)
    ensures forall i, j :: 0 <= i < |Split(s, seps)| && 0 <= j < |Split(s, seps)[i]| ==> Split(s, seps)[i][j] in s
    decreases |s|
  {
    if |s| > 0 {
      JoinSplitAny(s[1..], seps);
      var rest := Split(s[1..], seps);
      forall i, j | 0 <= i < |Split(s, seps)| && 0 <= j < |Split(s, seps)[i]|
        ensures Split(s, seps)[i][j] in s
      {
        var r := Split(s, seps);
        if s[0] in seps {
          assert r == [""] + rest;
          assert r[i] == rest[i - 1];
          assert rest[i - 1][j] in s[1..];
        } else {
          assert r == [[s[0]] + rest[0]] + rest[1..];
          if i == 0 {
            if j > 0 {
              assert r[0][j] == rest[0][j - 1];
              assert rest[0][j - 1] in s[1..];
            }
          } else {
            assert r[i] == rest[i];
            assert rest[i][j] in s[1..];
          }
        }
      }
    }
  }

  lemma WordsOfConcatAvoid(s: string, seps: set<char>, cs: set<char>, i: int)
    requires Avoids(s, cs)
    requires forall i, j :: 0 <= i < |Split(s, seps)| && 0 <= j < |Split(s, seps)[i]| ==> Split(s, seps)[i][j] in s
    requires 0 <= i < |Split(s, seps)|
    ensures Avoids(Split(s, seps)[i], cs)
  {
    var w := Split(s, seps)[i];
    forall j | 0 <= j < |w|
      ensures w[j] !in cs
    {
      assert w[j] in s;
    }
  }

  function FormatAll(segments: seq<string>): (r: seq<string>)
    ensures |r| == |segments|
    ensures forall i :: 0 <= i < |segments| ==> r[i] == FormatSegment(segments[i])
  {
    seq(|segments|, i requires 0 <= i < |segments| => FormatSegment(segments[i]))
  }

  /** `pathname.slice(1)`: everything after the first character (nothing for an empty path). */
  function DropFirst(s: string): (r: string)
    ensures |s| > 0 ==> r == s[1..]
    ensures |s| == 0 ==> r == ""
  {
    if |s| == 0 then "" else s[1..]
  }

  /** `formatScreenName`: "Home" for the root, else the formatted segments after the first character, joined by spaces. */
  function FormatScreenName(pathname: string): (r: string)
    ensures pathname == "/" ==> r == "Home"
  {
    if pathname == "/" then "Home"
    else Join(FormatAll(Split(DropFirst(pathname), {'/'})), " ")
  }

  /**
    For a path without spaces the screen name can be cut back apart: its
    space-separated words are exactly the formatted path segments, one per
    `/`-separated segment.
   */
  lemma ScreenNameWords(pathname: string)
    requires pathname != "/"
    requires Avoids(pathname, {' '})
    ensures Split(FormatScreenName(pathname), {' '}) == FormatAll(Split(DropFirst(pathname), {'/'}))
    ensures |Split(FormatScreenName(pathname), {' '})| == CountIn(DropFirst(pathname), {'/'}) + 1
  {
    var rest := DropFirst(pathname);
    assert Avoids(rest, {' '}) by {
      assert forall i :: 0 <= i < |rest| ==> rest[i] == pathname[i + 1];
    }
    var segments := Split(rest, {'/'});
    JoinSplitAny(rest, {'/'});
    forall i | 0 <= i < |segments|
      ensures Avoids(FormatAll(segments)[i], {' '})
    {
      WordsOfConcatAvoid(rest, {'/'}, {' '}, i);
      FormatSegmentAvoidsSpace(segments[i]);
    }
    SplitJoin(FormatAll(segments), ' ');
  }

  /** The hook's options, with their defaults below. */
  datatype NavigationOptions = NavigationOptions(
    enabled: bool,
    trackPageViews: bool,
    trackScreens: bool,
    urlPrefix: string,
    formatterName: Option<string>)

  const DefaultOptions: NavigationOptions := NavigationOptions(true, true, true, "https://app", None)

  /** The screen context handed to `trackScreen`; params and timestamp are not modelled. */
  datatype ScreenContext = ScreenContext(screenName: string, pathname: string, previousPathname: Option<string>)

  /** One run of the effect: the new remembered pathname and what it tracked. */
  datatype NavigationOutcome = NavigationOutcome(
    previousPathname: Option<string>,
    pageView: Option<TrackOptions>,
    screen: Option<ScreenContext>)

  /** The title and screen name: the custom formatter's name when it is truthy, else the built-in one. */
  function ScreenName(o: NavigationOptions, pathname: string): (r: string)
    ensures Truthy(o.formatterName) ==> r == o.formatterName.value
    ensures !Truthy(o.formatterName) ==> r == FormatScreenName(pathname)
  {
    OrElse(o.formatterName, FormatScreenName(pathname))
  }

  /** The page metadata the effect builds for a url. */
  function PageMetadata(url: string, title: string): (d: Dict)
    ensures d.Keys == {"canonical_url", "title", "section", "tags"}
    ensures d["canonical_url"] == Str(url) && d["title"] == Str(title)
  {
    map["canonical_url" := Str(url), "title" := Str(title), "section" := Str("app"),
        "tags" := Strs(["navigation", "expo-router"])]
  }

  /** The call as written, `trackPageView(url, undefined, metadata)`: the wrapper has no third parameter, so the metadata is never read. */
  function PageViewAsWritten(w: Wrapper, url: string, metadata: Dict): (r: TrackOptions)
    ensures r.url == Some(url)
    ensures r.metadata == Some(Spread(w.common.metadata))
  {
    assert Overlay(Spread(w.common.metadata), map[]) == Spread(w.common.metadata);
    TrackPageView(w, UrlArg(url), None)
  }

  /** The evidently intended call, `trackPageView(url, { metadata })`. */
  function PageViewIntended(w: Wrapper, url: string, metadata: Dict): (r: TrackOptions)
    ensures r.url == Some(url)
    ensures r.metadata.Some? && forall k :: k in metadata ==> k in r.metadata.value && r.metadata.value[k] == metadata[k]
  {
    TrackPageView(w, UrlArg(url), Some(NoOptions.(metadata := Some(metadata))))
  }

  /** Without common parameters the page view as written carries no metadata at all, the title included. */
  lemma NavigationMetadataDropped(url: string, title: string)
    ensures var metadata := PageMetadata(url, title);
      && PageViewAsWritten(Initial, url, metadata).metadata == Some(map[])
      && "title" !in PageViewAsWritten(Initial, url, metadata).metadata.value
      && PageViewIntended(Initial, url, metadata).metadata.value["title"] == Str(title)
  {
    var empty: Dict := map[];
    assert Overlay(empty, empty) == empty;
  }

  /**
    The effect: nothing while disabled or without the router, nothing when
    the pathname equals the remembered one; otherwise the page view for
    `urlPrefix + pathname` and the screen change, each if enabled, and then
    the pathname is remembered. The page view is the call as written, so it
    carries only the stored common metadata.
   */
  function NavigationEffect(previous: Option<string>, o: NavigationOptions, hasRouter: bool, w: Wrapper, pathname: string)
    : (r: NavigationOutcome)
    ensures var tracks := o.enabled && hasRouter && previous != Some(pathname);
      && (tracks ==> r.previousPathname == Some(pathname))
      && (!tracks ==> r.previousPathname == previous)
      && (r.pageView.Some? <==> tracks && o.trackPageViews)
      && (r.screen.Some? <==> tracks && o.trackScreens)
    ensures r.pageView.Some? ==> r.pageView.value.url == Some(o.urlPrefix + pathname)
    ensures r.pageView.Some? ==> r.pageView.value.metadata == Some(Spread(w.common.metadata))
    ensures r.screen.Some? ==> r.screen.value == ScreenContext(ScreenName(o, pathname), pathname, previous)
  {
    if !o.enabled || !hasRouter || previous == Some(pathname) then
      NavigationOutcome(previous, None, None)
    else
      var url := o.urlPrefix + pathname;
      var metadata := PageMetadata(url, ScreenName(o, pathname));
      NavigationOutcome(
        Some(pathname),
        if o.trackPageViews then Some(PageViewAsWritten(w, url, metadata)) else None,
        if o.trackScreens then Some(ScreenContext(ScreenName(o, pathname), pathname, previous)) else None)
  }

  /**
    The effect with the evidently intended page-view call: the same
    decisions, remembered path and screen change, and a page view that
    carries the built metadata, title included.
   */
  function NavigationEffectIntended(previous: Option<string>, o: NavigationOptions, hasRouter: bool, w: Wrapper, pathname: string)
    : (r: NavigationOutcome)
    ensures var asWritten := NavigationEffect(previous, o, hasRouter, w, pathname);
      && r.previousPathname == asWritten.previousPathname && r.screen == asWritten.screen
      && (r.pageView.Some? <==> asWritten.pageView.Some?)
    ensures r.pageView.Some? ==> r.pageView.value.url == Some(o.urlPrefix + pathname)
    ensures r.pageView.Some? ==> var m := r.pageView.value.metadata;
      m.Some? && "title" in m.value && m.value["title"] == Str(ScreenName(o, pathname))
  {
    var asWritten := NavigationEffect(previous, o, hasRouter, w, pathname);
    if asWritten.pageView.None? then asWritten
    else
      var url := o.urlPrefix + pathname;
      asWritten.(pageView := Some(PageViewIntended(w, url, PageMetadata(url, ScreenName(o, pathname)))))
  }

  /** With nothing stored, every page view the effect sends lacks the title, which the intended effect sends. */
  lemma EffectDropsTitle(previous: Option<string>, o: NavigationOptions, hasRouter: bool, pathname: string)
    ensures var asWritten := NavigationEffect(previous, o, hasRouter, Initial, pathname);
      var intended := NavigationEffectIntended(previous, o, hasRouter, Initial, pathname);
      asWritten.pageView.Some? ==>
        && asWritten.pageView.value.metadata == Some(map[])
        && intended.pageView.value.metadata.value["title"] == Str(ScreenName(o, pathname))
  {
    var empty: Dict := map[];
    assert Overlay(empty, empty) == empty;
  }

  /** Re-running the effect on the same pathname tracks nothing more. */
  lemma SamePathTrackedOnce(previous: Option<string>, o: NavigationOptions, hasRouter: bool, w: Wrapper, pathname: string)
    ensures var first := NavigationEffect(previous, o, hasRouter, w, pathname);
      var second := NavigationEffect(first.previousPathname, o, hasRouter, w, pathname);
      second.pageView.None? && second.screen.None? && second.previousPathname == first.previousPathname
  {
  }
}
