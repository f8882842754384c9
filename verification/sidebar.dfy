/** The `Sidebar` component: navigation links filtered by role, the active-link test,
    and the open/closed state of the mobile drawer. */
module Sidebar {
  import opened Seqs

  datatype NavLink = NavLink(name: string, href: string, roles: seq<string>)

  const NavigationLinks := [
    NavLink("Dashboard", "/dashboard", ["admin", "teacher", "student"]),
    NavLink("Attendance", "/attendance", ["admin", "teacher"]),
    NavLink("Reports", "/reports", ["admin", "teacher"]),
    NavLink("Settings", "/settings", ["admin"])
  ]

  predicate OfferedTo(link: NavLink, role: string) {
    role in link.roles
  }

  /** `navigationLinks.filter(link => link.roles.includes(role))`. */
  function VisibleLinks(links: seq<NavLink>, role: string): (r: seq<NavLink>)
    ensures forall i :: 0 <= i < |r| ==> r[i] in links && role in r[i].roles
    ensures forall i :: 0 <= i < |links| && role in links[i].roles ==> links[i] in r
  {
    Filter(links, l => OfferedTo(l, role))
  }

  /** The visible links appear in the configured order. */
  lemma VisibleLinksKeepOrder(links: seq<NavLink>, role: string)
    ensures IsSubsequence(VisibleLinks(links, role), links)
  {
    FilterIsSubsequence(links, l => OfferedTo(l, role));
  }

  /** Dashboard is offered to every role; Settings to admin only. */
  lemma DashboardForAllSettingsForAdmin(role: string)
    requires role in {"admin", "teacher", "student"}
    ensures NavigationLinks[0] in VisibleLinks(NavigationLinks, role)
    ensures NavigationLinks[3] in VisibleLinks(NavigationLinks, role) <==> role == "admin"
  {
    var links := NavigationLinks;
    assert role in links[0].roles;
    if role == "admin" {
      assert role in links[3].roles;
    } else {
      assert role !in links[3].roles;
      assert forall i :: 0 <= i < |links| && links[i] == links[3] ==> i == 3;
    }
  }

  /** Whatever a student is offered a teacher is offered, and whatever a teacher is
      offered an admin is offered, in the same order. */
  lemma VisibilityMonotone()
    ensures IsSubsequence(VisibleLinks(NavigationLinks, "student"), VisibleLinks(NavigationLinks, "teacher"))
    ensures IsSubsequence(VisibleLinks(NavigationLinks, "teacher"), VisibleLinks(NavigationLinks, "admin"))
  {
    var links := NavigationLinks;
    forall i | 0 <= i < |links| ensures OfferedTo(links[i], "student") ==> OfferedTo(links[i], "teacher") {
      if i == 0 {
        assert links[0].roles[1] == "teacher";
      } else {
        assert i == 1 || i == 2 || i == 3;
      }
    }
    forall i | 0 <= i < |links| ensures OfferedTo(links[i], "teacher") ==> OfferedTo(links[i], "admin") {
      assert links[i].roles[0] == "admin";
    }
    FilterMonotone(links, l => OfferedTo(l, "student"), l => OfferedTo(l, "teacher"));
    FilterMonotone(links, l => OfferedTo(l, "teacher"), l => OfferedTo(l, "admin"));
  }

  /** A link is highlighted when its `href` is the active page. */
  predicate IsActive(link: NavLink, activePage: string) {
    activePage == link.href
  }

  /** The configured links have distinct targets, so at most one is highlighted. */
  lemma AtMostOneActive(activePage: string, i: int, j: int)
    requires 0 <= i < |NavigationLinks| && 0 <= j < |NavigationLinks|
    requires IsActive(NavigationLinks[i], activePage) && IsActive(NavigationLinks[j], activePage)
    ensures i == j
  {
  }

  datatype SidebarState = SidebarState(isOpen: bool, activePage: string)

  const InitialState := SidebarState(false, "")

  /** No link is highlighted before the route effect runs; once the router reports a
      link's own path, that link and no other is highlighted. */
  lemma ActiveLinkFollowsRoute(s: SidebarState, i: nat)
    requires i < |NavigationLinks|
    ensures forall j :: 0 <= j < |NavigationLinks| ==> !IsActive(NavigationLinks[j], InitialState.activePage)
    ensures var r := RouteChanged(s, NavigationLinks[i].href);
      forall j :: 0 <= j < |NavigationLinks| ==> (IsActive(NavigationLinks[j], r.activePage) <==> j == i)
  {
  }

  /** `toggleSidebar`. */
  function Toggle(s: SidebarState): (r: SidebarState)
    ensures r.isOpen != s.isOpen && r.activePage == s.activePage
  {
    s.(isOpen := !s.isOpen)
  }

  /** Clicking a navigation link closes the drawer. */
  function ClickLink(s: SidebarState): (r: SidebarState)
    ensures !r.isOpen && r.activePage == s.activePage
  {
    s.(isOpen := false)
  }

  /** The route effect: the active page follows the router's path. */
  function RouteChanged(s: SidebarState, pathname: string): (r: SidebarState)
    ensures r.activePage == pathname && r.isOpen == s.isOpen
  {
    s.(activePage := pathname)
  }

  lemma ToggleTwiceIsIdentity(s: SidebarState)
    ensures Toggle(Toggle(s)) == s
  {
  }
}
