/**
  The JavaScript wrapper around the native analytics module: the
  in-memory common parameters, their merge into every tracking call, the
  two calling conventions of `trackPageView` and `startEngagement`, and the
  `videoPlaying` accessor. The native calls themselves are represented by
  the options the wrapper hands them.
 */
module ParselyModule {
  import opened JsSemantics

  /** A JSON-like value inside metadata or extra data. */
  datatype Value = Str(s: string) | Num(n: int) | Flag(b: bool) | Strs(items: seq<string>)

  type Dict = map<string, Value>

  /**
    The options of a page-view or engagement call. Every key is optional
    here; the page-view-only keys (`metadata`, `action`, `data`) are simply
    absent in engagement calls.
   */
  datatype TrackOptions = TrackOptions(
    url: Option<string>,
    urlRef: Option<string>,
    metadata: Option<Dict>,
    extraData: Option<Dict>,
    siteId: Option<string>,
    action: Option<string>,
    data: Option<Dict>)

  const NoOptions: TrackOptions := TrackOptions(None, None, None, None, None, None, None)

  /** The parameters added to every tracking call. */
  datatype CommonParameters = CommonParameters(metadata: Option<Dict>, extraData: Option<Dict>, siteId: Option<string>)

  const NoCommonParameters: CommonParameters := CommonParameters(None, None, None)

  /** The wrapper's state: the stored common parameters and the video flag. */
  datatype Wrapper = Wrapper(common: CommonParameters, videoPlaying: bool)

  const Initial: Wrapper := Wrapper(NoCommonParameters, false)

  /** Spreading an absent object contributes no keys. */
  function Spread(d: Option<Dict>): Dict {
    d.GetOr(map[])
  }

  /**
    `mergeCommonParameters`: metadata and extra data become the common keys
    overlaid by the call's keys (always present afterwards, possibly empty);
    the call's siteId wins when truthy; every other key is the call's own.
   */
  function Merge(common: CommonParameters, o: TrackOptions): (r: TrackOptions)
    ensures r.metadata.Some? && r.extraData.Some?
    ensures r.metadata.value.Keys == Spread(common.metadata).Keys + Spread(o.metadata).Keys
    ensures forall k :: k in Spread(o.metadata) ==> r.metadata.value[k] == Spread(o.metadata)[k]
    ensures forall k :: k in Spread(common.metadata) && k !in Spread(o.metadata) ==> r.metadata.value[k] == Spread(common.metadata)[k]
    ensures r.extraData.value.Keys == Spread(common.extraData).Keys + Spread(o.extraData).Keys
    ensures forall k :: k in Spread(o.extraData) ==> r.extraData.value[k] == Spread(o.extraData)[k]
    ensures forall k :: k in Spread(common.extraData) && k !in Spread(o.extraData) ==> r.extraData.value[k] == Spread(common.extraData)[k]
    ensures Truthy(o.siteId) ==> r.siteId == o.siteId
    ensures !Truthy(o.siteId) ==> r.siteId == common.siteId
    ensures r.url == o.url && r.urlRef == o.urlRef && r.action == o.action && r.data == o.data
  {
    o.(metadata := Some(Overlay(Spread(common.metadata), Spread(o.metadata))),
       extraData := Some(Overlay(Spread(common.extraData), Spread(o.extraData))),
       siteId := Or(o.siteId, common.siteId))
  }

  /** Merging the same common parameters a second time changes nothing. */
  lemma MergeIdempotent(common: CommonParameters, o: TrackOptions)
    ensures Merge(common, Merge(common, o)) == Merge(common, o)
  {
    OverlayAbsorbsBase(Spread(common.metadata), Spread(o.metadata));
    OverlayAbsorbsBase(Spread(common.extraData), Spread(o.extraData));
  }

  /**
    With no common parameters the merge only materialises the two objects,
    and turns an empty siteId into an absent one.
   */
  lemma MergeWithoutCommon(o: TrackOptions)
    ensures Merge(NoCommonParameters, o) == o.(metadata := Some(Spread(o.metadata)), extraData := Some(Spread(o.extraData)),
                                               siteId := if Truthy(o.siteId) then o.siteId else None)
  {
    assert Overlay(map[], Spread(o.metadata)) == Spread(o.metadata);
    assert Overlay(map[], Spread(o.extraData)) == Spread(o.extraData);
  }

  /** `setCommonParameters`: the stored parameters are replaced wholesale. */
  function SetCommonParameters(w: Wrapper, p: CommonParameters): (r: Wrapper)
    ensures GetCommonParameters(r) == p
    ensures r.videoPlaying == w.videoPlaying
  {
    w.(common := p)
  }

  /** `getCommonParameters`: a copy of what is stored. */
  function GetCommonParameters(w: Wrapper): CommonParameters {
    w.common
  }

  /** `clearCommonParameters`: nothing is stored any more. */
  function ClearCommonParameters(w: Wrapper): (r: Wrapper)
    ensures GetCommonParameters(r) == NoCommonParameters
    ensures r.videoPlaying == w.videoPlaying
  {
    w.(common := NoCommonParameters)
  }

  /** Setting twice keeps only the last value, and clearing undoes any setting. */
  lemma CommonParametersLastWriteWins(w: Wrapper, p: CommonParameters, q: CommonParameters)
    ensures SetCommonParameters(SetCommonParameters(w, p), q) == SetCommonParameters(w, q)
    ensures ClearCommonParameters(SetCommonParameters(w, p)) == ClearCommonParameters(w)
  {
  }

  /** The first argument of `trackPageView`/`startEngagement`: a url string or a full options object. */
  datatype FirstArg = UrlArg(url: string) | OptionsArg(options: TrackOptions)

  /**
    The overload resolution: a url string becomes `{ url }`, spread with the
    second argument's keys when that is given, the url argument winning; an
    options object is used as it is.
   */
  function Normalise(first: FirstArg, options: Option<TrackOptions>): (r: TrackOptions)
    ensures first.UrlArg? ==> r.url == Some(first.url)
    ensures first.UrlArg? && options.Some? ==> r == options.value.(url := Some(first.url))
    ensures first.UrlArg? && options.None? ==> r == NoOptions.(url := Some(first.url))
    ensures first.OptionsArg? ==> r == first.options
  {
    match first
    case UrlArg(url) =>
      if options.Some? then options.value.(url := Some(url)) else NoOptions.(url := Some(url))
    case OptionsArg(o) => o
  }

  /** The options `trackPageView` hands to the native module. */
  function TrackPageView(w: Wrapper, first: FirstArg, options: Option<TrackOptions>): (r: TrackOptions)
    ensures first.UrlArg? ==> r.url == Some(first.url)
    ensures first.UrlArg? && options.Some? ==> r == Merge(w.common, options.value.(url := Some(first.url)))
    ensures first.OptionsArg? ==> r == Merge(w.common, first.options)
  {
    Merge(w.common, Normalise(first, options))
  }

  /** The options `startEngagement` hands to the native module; the same resolution and merge as a page view. */
  function StartEngagement(w: Wrapper, first: FirstArg, options: Option<TrackOptions>): (r: TrackOptions)
    ensures first.UrlArg? ==> r.url == Some(first.url)
    ensures r == TrackPageView(w, first, options)
  {
    Merge(w.common, Normalise(first, options))
  }

  /** The two calling conventions agree: a url plus options sends what the options object with that url sends. */
  lemma OverloadsAgree(w: Wrapper, url: string, o: TrackOptions)
    ensures TrackPageView(w, UrlArg(url), Some(o)) == TrackPageView(w, OptionsArg(o.(url := Some(url))), None)
  {
  }

  /** The `videoPlaying` setter. */
  function SetVideoPlaying(w: Wrapper, playing: bool): (r: Wrapper)
    ensures VideoPlaying(r) == playing
    ensures GetCommonParameters(r) == GetCommonParameters(w)
  {
    w.(videoPlaying := playing)
  }

  /** The `videoPlaying` getter. */
  function VideoPlaying(w: Wrapper): bool {
    w.videoPlaying
  }

  /** The getter starts false and then returns the last value set. */
  lemma VideoPlayingReadsLastWrite(w: Wrapper, a: bool, b: bool)
    ensures !VideoPlaying(Initial)
    ensures VideoPlaying(SetVideoPlaying(SetVideoPlaying(w, a), b)) == b
  {
  }
}
