/** The bottom-bar navigation (`MainNav`): selecting a tab records it and
    navigates to its route; the current route maps back to a tab index. */
module Navigation {
  import opened Wrappers
  import Text

  /** The route tab `tab` navigates to, if any. */
  function TabRoute(tab: int): (route: Option<string>)
    ensures route.Some? <==> 0 <= tab <= 2
  {
    if tab == 0 then Some("todos")
    else if tab == 1 then Some("focus")
    else if tab == 2 then Some("profile")
    else None
  }

  /** `getTabIndex`: any route beginning with "todos" is tab 0, exactly
      "focus" and "profile" are 1 and 2, and anything else, or no route,
      is -1. */
  function TabIndex(route: Option<string>): (index: int)
    ensures -1 <= index <= 2
    ensures index == 0 <==> route.Some? && Text.StartsWith(route.value, "todos")
    ensures index == 1 <==> route == Some("focus")
    ensures index == 2 <==> route == Some("profile")
    ensures index == -1 <==>
      (route.None? || (!Text.StartsWith(route.value, "todos") && route.value != "focus" && route.value != "profile"))
  {
    match route
    case None => -1
    case Some(r) =>
      assert !Text.StartsWith("focus", "todos") by { assert "focus"[0] != 't'; }
      assert !Text.StartsWith("profile", "todos") by { assert "profile"[0] != 't'; }
      if Text.StartsWith(r, "todos") then 0
      else if r == "focus" then 1
      else if r == "profile" then 2
      else -1
  }

  /** The route a tab leads to maps back to that tab. */
  lemma TabRoundTrip(tab: int)
    requires 0 <= tab <= 2
    ensures TabIndex(TabRoute(tab)) == tab
  {
    assert Text.StartsWith("todos", "todos");
    assert !Text.StartsWith("focus", "todos") by { assert "focus"[0] != 't'; }
    assert !Text.StartsWith("profile", "todos") by { assert "profile"[0] != 't'; }
  }

  /** Sub-routes of the todo list still select its tab. */
  lemma TodoSubRoutes(suffix: string)
    ensures TabIndex(Some("todos" + suffix)) == 0
  {
    assert ("todos" + suffix)[..5] == "todos";
  }

  class MainNav {
    var selectedTab: int
    /** The destination of the last navigation from the bar. */
    var route: Option<string>

    constructor ()
      ensures selectedTab == 0 && route == None
    {
      selectedTab := 0;
      route := None;
    }

    /** `onTabSelected`: the tab is recorded whatever it is; tabs 0 to 2
        navigate to their route, others nowhere. */
    method OnTabSelected(tab: int)
      modifies this
      ensures selectedTab == tab
      ensures 0 <= tab <= 2 ==> route == TabRoute(tab) && TabIndex(route) == tab
      ensures !(0 <= tab <= 2) ==> route == old(route)
    {
      selectedTab := tab;
      var target := TabRoute(tab);
      if target.Some? {
        route := target;
        TabRoundTrip(tab);
      }
    }
  }
}
