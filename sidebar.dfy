/**
 * The sidebar's navigation: which link is highlighted for a pathname, when a
 * click scrolls within the home page instead of navigating, and the open and
 * expanded flags of the mobile menu and the desktop rail.
 *
 * `usePathname()` may be null before the router is ready, so the pathname is
 * an `Option`.
 */
module Sidebar {
  import Wrappers
  import Strings

  datatype NavItem = NavItem(href: string, labelText: string)

  const ProjectsHref: string := "/projects"
  const HashPrefix: string := "/#"

  const NavItems: seq<NavItem> := [
    NavItem("/#profile", "プロフィール"),
    NavItem("/#skills", "スキル"),
    NavItem("/#projects", "プロジェクト"),
    NavItem("/#contact", "お問い合わせ"),
    NavItem("/projects", "制作物プラットフォーム")
  ]

  /** `isActive(href)` for the pathname `pathname`. */
  predicate IsActive(pathname: Wrappers.Option<string>, href: string) {
    if href == ProjectsHref then pathname.Some? && Strings.StartsWith(pathname.value, ProjectsHref)
    else if Strings.StartsWith(href, HashPrefix) then pathname == Wrappers.Some("/")
    else pathname == Wrappers.Some(href)
  }

  /** The three rules of `isActive`, each as an equivalence. */
  lemma IsActiveCases(pathname: Wrappers.Option<string>, href: string)
    ensures href == ProjectsHref ==>
              (IsActive(pathname, href) <==> pathname.Some? && Strings.StartsWith(pathname.value, "/projects"))
    ensures Strings.StartsWith(href, HashPrefix) ==> (IsActive(pathname, href) <==> pathname == Wrappers.Some("/"))
    ensures href != ProjectsHref && !Strings.StartsWith(href, HashPrefix) ==>
              (IsActive(pathname, href) <==> pathname == Wrappers.Some(href))
  {
    if href == ProjectsHref {
      assert !Strings.StartsWith(href, HashPrefix) by { assert href[..2] == "/p"; }
    }
  }

  /** `isHashLink && pathname === '/'`: the click scrolls instead of navigating. */
  predicate ShouldSmoothScroll(pathname: Wrappers.Option<string>, href: string) {
    Strings.StartsWith(href, HashPrefix) && pathname == Wrappers.Some("/")
  }

  /** A link is scrolled to only when it is highlighted. */
  lemma SmoothScrollIsActive(pathname: Wrappers.Option<string>, href: string)
    requires ShouldSmoothScroll(pathname, href)
    ensures IsActive(pathname, href)
  {
    IsActiveCases(pathname, href);
  }

  /** `href.replace('/#', '')`: the id of the section scrolled to. */
  function HashTarget(href: string): (r: string)
    ensures Strings.StartsWith(href, HashPrefix) ==> r == href[2..] && HashPrefix + r == href
  {
    if Strings.StartsWith(href, HashPrefix) then
      Strings.RemoveFirstPrefix(href, HashPrefix);
      assert HashPrefix + href[2..] == href[..2] + href[2..];
      Strings.RemoveFirst(href, HashPrefix)
    else Strings.RemoveFirst(href, HashPrefix)
  }

  lemma HashTargetExample()
    ensures HashTarget("/#skills") == "skills"
  {
    assert Strings.StartsWith("/#skills", HashPrefix);
  }

  lemma NavHrefs()
    ensures forall i :: 0 <= i < 4 ==> Strings.StartsWith(NavItems[i].href, HashPrefix)
    ensures NavItems[4].href == ProjectsHref
  {
    assert NavItems[0].href[..2] == HashPrefix;
    assert NavItems[1].href[..2] == HashPrefix;
    assert NavItems[2].href[..2] == HashPrefix;
    assert NavItems[3].href[..2] == HashPrefix;
  }

  /** On the home page exactly the four section links are highlighted and
      scroll in place. */
  lemma ActiveOnHome()
    ensures forall i :: 0 <= i < |NavItems| ==> (IsActive(Wrappers.Some("/"), NavItems[i].href) <==> i < 4)
    ensures forall i :: 0 <= i < |NavItems| ==> (ShouldSmoothScroll(Wrappers.Some("/"), NavItems[i].href) <==> i < 4)
  {
    NavHrefs();
    assert !Strings.StartsWith("/", ProjectsHref);
    assert !Strings.StartsWith(ProjectsHref, HashPrefix) by { assert ProjectsHref[..2] == "/p"; }
  }

  /** Below `/projects` only the platform link is highlighted and nothing scrolls. */
  lemma ActiveBelowProjects(path: string)
    requires Strings.StartsWith(path, ProjectsHref)
    ensures forall i :: 0 <= i < |NavItems| ==> (IsActive(Wrappers.Some(path), NavItems[i].href) <==> i == 4)
    ensures forall i :: 0 <= i < |NavItems| ==> !ShouldSmoothScroll(Wrappers.Some(path), NavItems[i].href)
  {
    NavHrefs();
    assert path != "/";
  }

  /** Before the router is ready no link is highlighted. */
  lemma NothingActiveWithoutPath(href: string)
    ensures !IsActive(Wrappers.None, href) && !ShouldSmoothScroll(Wrappers.None, href)
  {
  }

  /** The component's state: both flags and the current pathname. */
  class SidebarState {
    var isMobileOpen: bool
    var isDesktopExpanded: bool
    var pathname: Wrappers.Option<string>

    constructor (pathname: Wrappers.Option<string>)
      ensures !isMobileOpen && !isDesktopExpanded && this.pathname == pathname
    {
      isMobileOpen := false;
      isDesktopExpanded := false;
      this.pathname := pathname;
    }

    /** The hamburger button. */
    method ToggleMobile()
      modifies this`isMobileOpen
      ensures isMobileOpen == !old(isMobileOpen)
    {
      isMobileOpen := !isMobileOpen;
    }

    /** A click on the overlay. */
    method CloseMobile()
      modifies this`isMobileOpen
      ensures !isMobileOpen
    {
      isMobileOpen := false;
    }

    /** `onMouseEnter` / `onMouseLeave` of the desktop rail. */
    method SetDesktopExpanded(expanded: bool)
      modifies this`isDesktopExpanded
      ensures isDesktopExpanded == expanded
    {
      isDesktopExpanded := expanded;
    }

    /** A route change: the effect on `[pathname]` closes the mobile menu
        whenever the pathname differs from the last one. */
    method Navigate(newPath: Wrappers.Option<string>)
      modifies this`pathname, this`isMobileOpen
      ensures pathname == newPath
      ensures newPath != old(pathname) ==> !isMobileOpen
      ensures newPath == old(pathname) ==> isMobileOpen == old(isMobileOpen)
    {
      if newPath != pathname {
        isMobileOpen := false;
      }
      pathname := newPath;
    }

    /** A click on a navigation link. When it scrolls in place the handler
        returns the section id and closes the mobile menu; otherwise the link
        navigates and the state changes through `Navigate`. */
    method ClickLink(href: string) returns (scrollTarget: Wrappers.Option<string>)
      modifies this`isMobileOpen
      ensures ShouldSmoothScroll(pathname, href) ==>
                scrollTarget == Wrappers.Some(HashTarget(href)) && !isMobileOpen
      ensures !ShouldSmoothScroll(pathname, href) ==>
                scrollTarget.None? && isMobileOpen == old(isMobileOpen)
    {
      if Strings.StartsWith(href, HashPrefix) && pathname == Wrappers.Some("/") {
        scrollTarget := Wrappers.Some(Strings.RemoveFirst(href, HashPrefix));
        isMobileOpen := false;
      } else {
        scrollTarget := Wrappers.None;
      }
    }
  }
}
