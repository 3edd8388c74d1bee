/**
  The `NavigationTracker` component's effect, run for each new
  `navigationPath`: change detection, the activity debounce, and the screen
  record it hands to `trackScreen` (title, url and the from/to pair also
  passed to `onNavigation`).
 */
module NavigationTracker {
  import opened JsSemantics
  import opened Text

  const DefaultDebounceMs: int := 1000

  /** The component's refs: the last path seen and when activity was last recorded (0 initially). */
  datatype TrackerState = TrackerState(previousPath: string, lastNavigationTime: int)

  const Initial: TrackerState := TrackerState("", 0)

  /** What `trackScreen` receives; `from`/`to` are also the `onNavigation` arguments. */
  datatype Screen = Screen(title: string, url: string, from: string, to: string)

  datatype TrackerOutcome = TrackerOutcome(state: TrackerState, recordedActivity: bool, screen: Option<Screen>)

  /** `currentPath.split("/").pop()`: the text after the last slash. */
  function LastSegment(path: string): string {
    var pieces := Split(path, {'/'});
    pieces[|pieces| - 1]
  }

  /** `.pop() || "Screen"`. */
  function ScreenTitle(path: string): (r: string)
    ensures r != ""
    ensures LastSegment(path) != "" ==> r == LastSegment(path)
    ensures LastSegment(path) == "" ==> r == "Screen"
  {
    var last := LastSegment(path);
    if last == "" then "Screen" else last
  }

  /** A joined list ends with its last part. */
  lemma {:induction false} JoinEndsWithLast(parts: seq<string>, sep: string)
    requires |parts| >= 1
    ensures var j := Join(parts, sep); var last := parts[|parts| - 1];
      |last| <= |j| && j[|j| - |last|..] == last
    decreases |parts|
  {
    if |parts| > 1 {
      JoinEndsWithLast(parts[1..], sep);
      var tail := Join(parts[1..], sep);
      var j := Join(parts, sep);
      assert j == parts[0] + sep + tail;
      assert j[|j| - |tail|..] == tail;
    }
  }

  /** A title other than the fallback is the slash-free tail of the path. */
  lemma ScreenTitleIsTail(path: string)
    ensures ScreenTitle(path) == "Screen" || (
      var t := ScreenTitle(path);
      |t| <= |path| && path[|path| - |t|..] == t && Avoids(t, {'/'}))
  {
    JoinSplit(path, '/');
    JoinEndsWithLast(Split(path, {'/'}), "/");
  }

  /** The screen url: the path with a leading slash added when it lacks one. */
  function ScreenUrl(path: string): (r: string)
    ensures |r| >= 1 && r[0] == '/'
    ensures |path| > 0 && path[0] == '/' ==> r == path
    ensures !(|path| > 0 && path[0] == '/') ==> r[1..] == path
  {
    if |path| > 0 && path[0] == '/' then path else "/" + path
  }

  /** Adding the slash is idempotent, and a path is kept as it is exactly when it already starts with one. */
  lemma ScreenUrlIdempotent(path: string)
    ensures ScreenUrl(ScreenUrl(path)) == ScreenUrl(path)
    ensures ScreenUrl(path) == path <==> |path| > 0 && path[0] == '/'
  {
  }

  /** `previousPath.current || "initial"`. */
  function FromLabel(previousPath: string): (r: string)
    ensures previousPath != "" ==> r == previousPath
    ensures previousPath == "" ==> r == "initial"
  {
    if previousPath == "" then "initial" else previousPath
  }

  /**
    One run of the effect: a non-empty path different from the previous one
    is handled (activity recorded only past the debounce window, then a
    screen record); in every case the path is remembered.
   */
  function Navigate(s: TrackerState, path: string, debounceMs: int, now: int): (o: TrackerOutcome)
    ensures var handled := path != s.previousPath && path != "";
      && (o.screen.Some? <==> handled)
      && (o.recordedActivity <==> handled && now - s.lastNavigationTime > debounceMs)
    ensures o.state.previousPath == path
    ensures o.state.lastNavigationTime == (if o.recordedActivity then now else s.lastNavigationTime)
    ensures o.screen.Some? ==> o.screen.value == Screen(ScreenTitle(path), ScreenUrl(path), FromLabel(s.previousPath), path)
  {
    if path != s.previousPath && path != "" then
      var record := now - s.lastNavigationTime > debounceMs;
      var last := if record then now else s.lastNavigationTime;
      var screen := Screen(ScreenTitle(path), ScreenUrl(path), FromLabel(s.previousPath), path);
      TrackerOutcome(TrackerState(path, last), record, Some(screen))
    else
      TrackerOutcome(TrackerState(path, s.lastNavigationTime), false, None)
  }

  /** The same path twice in a row is handled at most once. */
  lemma SamePathHandledOnce(s: TrackerState, path: string, debounceMs: int, t1: int, t2: int)
    ensures var first := Navigate(s, path, debounceMs, t1);
      Navigate(first.state, path, debounceMs, t2) == TrackerOutcome(first.state, false, None)
  {
  }

  /** Two navigations within the debounce window record activity at most once. */
  lemma DebounceWindow(s: TrackerState, p1: string, p2: string, debounceMs: int, t1: int, t2: int)
    requires t2 - t1 <= debounceMs
    ensures var first := Navigate(s, p1, debounceMs, t1);
      first.recordedActivity ==> !Navigate(first.state, p2, debounceMs, t2).recordedActivity
  {
  }
}
