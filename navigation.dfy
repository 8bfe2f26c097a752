/**
 * The navigation bar of `src/components/Navigation.tsx`: six links whose
 * highlight follows the current path exactly, a theme button, a menu button
 * for small screens, and a `scrolled` flag that follows the window's
 * vertical scroll position.
 *
 * The current path (from the router), the theme (from the theme provider)
 * and the scroll position (from the window) come from outside the component;
 * here they are the `pathname` and `theme` fields and the parameter of
 * `HandleScroll`.
 */
module NavigationBar {

  datatype NavItem = NavItem(name: string, path: string)

  const NavItems: seq<NavItem> := [
    NavItem("Home", "/"),
    NavItem("About", "/about"),
    NavItem("Services", "/services"),
    NavItem("Gallery", "/gallery"),
    NavItem("Testimonials", "/testimonials"),
    NavItem("Contact", "/contact")]

  /** The path the quote links lead to. */
  const QuotePath := "/quote"

  /** How far the window must scroll before the bar gets its background. */
  const ScrollThreshold := 50

  /** `isActive(path)`: the link's path is the current path, character for character. */
  predicate IsActive(pathname: string, path: string) {
    pathname == path
  }

  /**
   * Neither a sub-path nor a trailing slash makes a link active: a link is
   * never active on its path extended by anything, nor on a proper prefix of it.
   */
  lemma ActiveIsExact(path: string, rest: string)
    requires rest != []
    ensures !IsActive(path + rest, path)
    ensures !IsActive(path, path + rest)
  {
    assert |path + rest| > |path|;
  }

  /** The nav paths are pairwise distinct. */
  lemma PathsDistinct()
    ensures forall i, j :: 0 <= i < j < |NavItems| ==> NavItems[i].path != NavItems[j].path
  {
  }

  /** Whatever the current path, at most one nav item is highlighted. */
  lemma AtMostOneActive(pathname: string)
    ensures forall i, j ::
      (0 <= i < |NavItems| && 0 <= j < |NavItems|
       && IsActive(pathname, NavItems[i].path) && IsActive(pathname, NavItems[j].path)) ==> i == j
  {
    PathsDistinct();
  }

  /** The theme button: "light" becomes "dark", anything else becomes "light". */
  function NextTheme(theme: string): (r: string)
    ensures r == "dark" <==> theme == "light"
    ensures r == "light" <==> theme != "light"
  {
    if theme == "light" then "dark" else "light"
  }

  /** Pressing the theme button twice returns to "light" or "dark" from either of them. */
  lemma ThemeToggleTwice(theme: string)
    ensures theme == "light" || theme == "dark" ==> NextTheme(NextTheme(theme)) == theme
    ensures theme != "light" ==> NextTheme(NextTheme(theme)) == "dark"
  {
  }

  /** The scroll handler's test: strictly past the threshold. */
  predicate PastThreshold(scrollY: int) {
    scrollY > ScrollThreshold
  }

  lemma ThresholdIsStrict()
    ensures !PastThreshold(ScrollThreshold) && PastThreshold(ScrollThreshold + 1)
    ensures forall y :: y <= ScrollThreshold ==> !PastThreshold(y)
  {
  }

  class NavigationState {
    var isOpen: bool
    var scrolled: bool
    var theme: string
    var pathname: string

    constructor (theme: string, pathname: string)
      ensures !isOpen && !scrolled
      ensures this.theme == theme && this.pathname == pathname
    {
      isOpen := false;
      scrolled := false;
      this.theme := theme;
      this.pathname := pathname;
    }

    /** The scroll listener. */
    method HandleScroll(scrollY: int)
      modifies this
      ensures scrolled <==> PastThreshold(scrollY)
      ensures isOpen == old(isOpen) && theme == old(theme) && pathname == old(pathname)
    {
      scrolled := scrollY > ScrollThreshold;
    }

    /** The theme button, the same on large and small screens. */
    method ToggleTheme()
      modifies this
      ensures theme == NextTheme(old(theme))
      ensures isOpen == old(isOpen) && scrolled == old(scrolled) && pathname == old(pathname)
    {
      theme := if theme == "light" then "dark" else "light";
    }

    /** The menu button flips the mobile menu. */
    method ToggleMenu()
      modifies this
      ensures isOpen == !old(isOpen)
      ensures scrolled == old(scrolled) && theme == old(theme) && pathname == old(pathname)
    {
      isOpen := !isOpen;
    }

    /**
     * A link of the mobile menu, one of the nav items or the quote link:
     * the router moves to its path and the menu closes. Every page renders
     * its own bar, so a link to another page mounts a fresh one, which is
     * not scrolled until the next scroll event; a link to the current page
     * keeps the bar as it is.
     */
    method FollowMobileLink(path: string)
      requires path == QuotePath || exists i :: 0 <= i < |NavItems| && NavItems[i].path == path
      modifies this
      ensures !isOpen && pathname == path
      ensures IsActive(pathname, path)
      ensures path != old(pathname) ==> !scrolled
      ensures path == old(pathname) ==> scrolled == old(scrolled)
      ensures theme == old(theme)
    {
      if path != pathname {
        scrolled := false;
      }
      isOpen := false;
      pathname := path;
    }
  }
}
