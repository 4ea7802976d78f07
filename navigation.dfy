/** The top navigation bar: hidden on the landing page, hidden while scrolling down past
    the first 100 pixels and shown again on scrolling up, with the active link picked from
    the path. The scroll position is a whole number of pixels here. */
module Navigation {
  import opened Strings

  /** Below this scroll position the bar is always shown. */
  const ShowAlwaysBelow: int := 100

  /** The landing page, where there is no bar. */
  const LandingPath: string := "/"

  /** The visibility `handleScroll` sets for a scroll to `scrollY` after `lastScrollY`. */
  function NextVisible(lastScrollY: int, scrollY: int): (visible: bool)
    ensures scrollY < ShowAlwaysBelow ==> visible
    ensures scrollY >= ShowAlwaysBelow ==> (visible <==> scrollY <= lastScrollY)
  {
    if scrollY < ShowAlwaysBelow then true
    else if scrollY > lastScrollY then false
    else true
  }

  /** Nothing is drawn, and no scroll listener is registered, on the landing page. */
  predicate RendersBar(pathname: string) {
    pathname != LandingPath
  }

  /** The Collections link is highlighted on every path under "/collections". */
  predicate CollectionsActive(pathname: string) {
    StartsWith(pathname, "/collections")
  }

  /** The About link is highlighted on "/about" only. */
  predicate AboutActive(pathname: string) {
    pathname == "/about"
  }

  /** The two links are never highlighted together, and neither is on the landing page. */
  lemma AtMostOneLinkActive(pathname: string)
    ensures !(CollectionsActive(pathname) && AboutActive(pathname))
    ensures !RendersBar(pathname) ==> !CollectionsActive(pathname) && !AboutActive(pathname)
    ensures CollectionsActive("/collections") && CollectionsActive("/collections/" + pathname)
  {
    assert ("/collections/" + pathname)[..12] == "/collections";
  }

  /** The bar's state: `visible` and the ref `lastScrollY`, for the page at `pathname`. */
  class NavigationBar {
    const pathname: string
    var visible: bool
    var lastScrollY: int

    /** The bar is hidden only while scrolled past the always-shown band. */
    predicate Valid()
      reads this
    {
      !visible ==> lastScrollY >= ShowAlwaysBelow
    }

    constructor(pathname: string)
      ensures this.pathname == pathname && visible && lastScrollY == 0
      ensures Valid()
    {
      this.pathname := pathname;
      visible := true;
      lastScrollY := 0;
    }

    /** A scroll event. On the landing page no listener is registered and nothing
        changes; elsewhere the visibility follows `NextVisible` and `lastScrollY` becomes
        the event's position. */
    method Scroll(scrollY: int)
      modifies this
      ensures pathname == LandingPath ==> visible == old(visible) && lastScrollY == old(lastScrollY)
      ensures pathname != LandingPath ==> visible == NextVisible(old(lastScrollY), scrollY) && lastScrollY == scrollY
      ensures pathname != LandingPath || old(Valid()) ==> Valid()
    {
      if pathname == LandingPath {
        return;
      }
      if scrollY < ShowAlwaysBelow {
        visible := true;
      } else if scrollY > lastScrollY {
        visible := false;
      } else {
        visible := true;
      }
      lastScrollY := scrollY;
    }
  }

  /** The state after a run of scroll events off the landing page, as (visible, last). */
  function ScrollRun(visible: bool, lastScrollY: int, events: seq<int>): (bool, int)
    decreases |events|
  {
    if events == [] then (visible, lastScrollY)
    else ScrollRun(NextVisible(lastScrollY, events[0]), events[0], events[1..])
  }

  /** After a run of scroll events, `lastScrollY` is the last event's position, and the
      bar is shown exactly when that position is in the always-shown band or does not
      exceed the one before it. */
  lemma {:induction false} ScrollRunEndsAtLastEvent(visible: bool, lastScrollY: int, events: seq<int>)
    requires events != []
    ensures var (v, y) := ScrollRun(visible, lastScrollY, events);
      var before := if |events| == 1 then lastScrollY else events[|events| - 2];
      && y == events[|events| - 1]
      && v == NextVisible(before, events[|events| - 1])
    decreases |events|
  {
    if |events| > 1 {
      ScrollRunEndsAtLastEvent(NextVisible(lastScrollY, events[0]), events[0], events[1..]);
    }
  }

  /** On a page with the bar, a run of events through `Scroll` ends in `ScrollRun`'s
      state. */
  method ScrollAll(bar: NavigationBar, events: seq<int>)
    requires bar.pathname != LandingPath
    modifies bar
    ensures (bar.visible, bar.lastScrollY) == ScrollRun(old(bar.visible), old(bar.lastScrollY), events)
    ensures events != [] || old(bar.Valid()) ==> bar.Valid()
  {
    var i := 0;
    while i < |events|
      invariant 0 <= i <= |events|
      invariant i > 0 || old(bar.Valid()) ==> bar.Valid()
      invariant ScrollRun(bar.visible, bar.lastScrollY, events[i..]) == ScrollRun(old(bar.visible), old(bar.lastScrollY), events)
    {
      assert events[i..][1..] == events[i + 1..];
      bar.Scroll(events[i]);
      i := i + 1;
    }
  }
}
