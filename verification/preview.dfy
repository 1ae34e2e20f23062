/** The Show/Hide preview of the release 1.8 equation row: a box under the
    row that shows the equation, built on first opening and cached. */
module Preview {
  import opened Text

  /** What the box shows for an empty equation. */
  const NoPositions: string := "(no positions)"

  /** The closure state of one equation row: whether the box is open, the
      cached equation, and the text in the box. */
  datatype Preview = Preview(shown: bool, cached: string, text: string)

  /** A freshly injected row: closed, nothing cached, an empty box. */
  const Fresh: Preview := Preview(false, "", "")

  /** The toggle's caption. */
  function ToggleCaption(p: Preview): (c: string)
    ensures c == "Hide" <==> p.shown
    ensures c == "Show" <==> !p.shown
  {
    if p.shown then "Hide" else "Show"
  }

  /** A click on Show/Hide. Opening builds the equation only when nothing
      is cached; `build` is that build's outcome, `None` when it throws (no
      table), in which case the click changes nothing. The box shows the
      cached equation, or `(no positions)` when it is empty. Closing only
      hides the box. */
  function Toggle(p: Preview, build: Option<string>): (r: Preview)
    ensures p.shown ==> r == p.(shown := false)
    ensures !p.shown && p.cached != [] ==> r == Preview(true, p.cached, p.cached)
    ensures !p.shown && p.cached == [] && build.None? ==> r == p
    ensures !p.shown && p.cached == [] && build.Some? ==>
              r.shown && r.cached == build.value
              && r.text == (if build.value == [] then NoPositions else build.value)
  {
    if p.shown then p.(shown := false)
    else if p.cached == [] && build.None? then p
    else
      var cached := if p.cached == [] then build.value else p.cached;
      Preview(true, cached, if cached == [] then NoPositions else cached)
  }

  /** A click on the copy label; `eq` is the copied equation, `None` when
      the build throws. An open box is refreshed with a non-empty result;
      the cache and the open state never change. */
  function Copy(p: Preview, eq: Option<string>): (r: Preview)
    ensures r.shown == p.shown && r.cached == p.cached
    ensures r.text != p.text ==> p.shown && eq.Some? && eq.value != [] && r.text == eq.value
    ensures p.shown && eq.Some? && eq.value != [] ==> r.text == eq.value
  {
    if p.shown && eq.Some? && eq.value != [] then p.(text := eq.value) else p
  }

  /** An open box never shows an empty text. */
  ghost predicate Valid(p: Preview) {
    p.shown ==> p.text != []
  }

  lemma FreshValid()
    ensures Valid(Fresh) && !Fresh.shown && ToggleCaption(Fresh) == "Show"
  {
  }

  /** Both clicks keep the box non-empty whenever it is open. */
  lemma StepsKeepValid(p: Preview, build: Option<string>, eq: Option<string>)
    requires Valid(p)
    ensures Valid(Toggle(p, build)) && Valid(Copy(p, eq))
  {
  }

  /** Each click that does not fail flips the box and the caption with it. */
  lemma ToggleFlips(p: Preview, build: Option<string>)
    requires p.shown || p.cached != [] || build.Some?
    ensures Toggle(p, build).shown == !p.shown
    ensures ToggleCaption(Toggle(p, build)) != ToggleCaption(p)
  {
  }

  /** Once a non-empty equation is cached it stays cached: later toggles
      and copies never rebuild or replace it. */
  lemma CacheSticks(p: Preview, build: Option<string>, eq: Option<string>)
    requires p.cached != []
    ensures Toggle(p, build).cached == p.cached
    ensures Copy(p, eq).cached == p.cached
  {
  }

  /** Closing and reopening shows the cached equation again, whatever a
      new build would return, even after a copy refreshed the box. */
  lemma ReopenShowsCache(p: Preview, b1: Option<string>, b2: Option<string>)
    requires p.shown && p.cached != []
    ensures Toggle(Toggle(p, b1), b2).text == p.cached
  {
  }

  /** An empty build is not cached as a result: the next opening builds
      again. */
  lemma EmptyBuildRetried(p: Preview, b1: Option<string>, b2: Option<string>)
    requires !p.shown && p.cached == [] && b1 == Some([])
    ensures Toggle(p, b1).text == NoPositions
    ensures b2.Some? ==> Toggle(Toggle(Toggle(p, b1), b1), b2) == Toggle(p, b2)
  {
  }
}
