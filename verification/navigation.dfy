/**
 * Tab navigation: the page keeps one active tab string, renders the view
 * that tab names (the home view for anything unrecognised), and hands the
 * same string to the bottom bar, which highlights the item whose id equals
 * it. Clicking an item, or a quick action on the home view, requests a tab.
 */
module Navigation {
  import Keys

  datatype View = HomeView | AlertsView | MapView | PrepareView | ReportView

  datatype NavItem = NavItem(id: string, caption: string)

  /** The page's state: the active tab. */
  datatype Page = Page(activeTab: string)

  /** What one render of the page shows: the view and the tab passed to the bar. */
  datatype Screen = Screen(view: View, navTab: string)

  /** The bottom bar's items, in display order. */
  const NavItems: seq<NavItem> := [
    NavItem("home", "Inicio"),
    NavItem("alerts", "Alertas"),
    NavItem("map", "Mapa"),
    NavItem("prepare", "Preparar"),
    NavItem("report", "Reportar")
  ]

  /** The tabs the home view's three quick-action buttons request, top to bottom. */
  const QuickActions: seq<string> := ["alerts", "prepare", "map"]

  predicate DistinctIds(items: seq<NavItem>) {
    Keys.Distinct(items, (x: NavItem) => x.id)
  }

  predicate IsNavId(tab: string) {
    exists i :: 0 <= i < |NavItems| && NavItems[i].id == tab
  }

  /** The tab whose view this is: the inverse of `Dispatch` on the recognised tabs. */
  function TabOf(v: View): string {
    match v
    case HomeView => "home"
    case AlertsView => "alerts"
    case MapView => "map"
    case PrepareView => "prepare"
    case ReportView => "report"
  }

  /** `renderView`: the switch over the active tab. */
  function Dispatch(tab: string): (v: View)
    ensures tab == TabOf(v) || (v == HomeView && !IsNavId(tab))
  {
    if tab == "home" then HomeView
    else if tab == "alerts" then AlertsView
    else if tab == "map" then MapView
    else if tab == "prepare" then PrepareView
    else if tab == "report" then ReportView
    else
      assert forall i :: 0 <= i < |NavItems| ==> NavItems[i].id != tab;
      HomeView
  }

  /** Each view's own tab dispatches to it, and only tabs of the bar are recognised. */
  lemma DispatchTabOf(v: View)
    ensures Dispatch(TabOf(v)) == v
    ensures IsNavId(TabOf(v))
  {
    match v
    case HomeView => assert NavItems[0].id == "home";
    case AlertsView => assert NavItems[1].id == "alerts";
    case MapView => assert NavItems[2].id == "map";
    case PrepareView => assert NavItems[3].id == "prepare";
    case ReportView => assert NavItems[4].id == "report";
  }

  /** An unrecognised tab shows the home view. */
  lemma DispatchDefault(tab: string)
    requires !IsNavId(tab)
    ensures Dispatch(tab) == HomeView
  {
    forall v: View ensures TabOf(v) != tab {
      DispatchTabOf(v);
    }
  }

  /** The page as first rendered. */
  function Initial(): (p: Page)
    ensures p.activeTab == "home"
    ensures Dispatch(p.activeTab) == HomeView && IsNavId(p.activeTab)
  {
    assert NavItems[0].id == "home";
    Page("home")
  }

  /** `setActiveTab(t)`: any requested string becomes the active tab. */
  function SetActiveTab(p: Page, tab: string): (p': Page)
    ensures p'.activeTab == tab
  {
    Page(tab)
  }

  /** One render: the dispatched view, and the bar told the current tab. */
  function Render(p: Page): (s: Screen)
    ensures s.navTab == p.activeTab
    ensures IsNavId(p.activeTab) ==> TabOf(s.view) == p.activeTab
    ensures !IsNavId(p.activeTab) ==> s.view == HomeView
  {
    assert !IsNavId(p.activeTab) ==> Dispatch(p.activeTab) == HomeView by {
      if !IsNavId(p.activeTab) {
        DispatchDefault(p.activeTab);
      }
    }
    Screen(Dispatch(p.activeTab), p.activeTab)
  }

  /** `isActive` of one item. */
  predicate IsActive(activeTab: string, item: NavItem) {
    activeTab == item.id
  }

  /** How many items of the bar are highlighted. */
  function ActiveCount(items: seq<NavItem>, activeTab: string): (n: nat)
    ensures n <= |items|
  {
    if |items| == 0 then 0
    else (if IsActive(activeTab, items[0]) then 1 else 0) + ActiveCount(items[1..], activeTab)
  }

  /**
   * Among items with distinct ids, exactly one is highlighted when the tab
   * is one of their ids, and none otherwise.
   */
  lemma {:induction false} ActiveCountDistinct(items: seq<NavItem>, activeTab: string)
    requires DistinctIds(items)
    ensures ActiveCount(items, activeTab)
         == if exists i :: 0 <= i < |items| && items[i].id == activeTab then 1 else 0
  {
    if |items| > 0 {
      var rest := items[1..];
      assert DistinctIds(rest) by {
        forall i, j | 0 <= i < |rest| && 0 <= j < |rest| && i != j
          ensures rest[i].id != rest[j].id
        {
          assert rest[i] == items[i + 1] && rest[j] == items[j + 1];
        }
      }
      ActiveCountDistinct(rest, activeTab);
      if items[0].id == activeTab {
        assert forall i :: 0 <= i < |rest| ==> rest[i].id != activeTab by {
          forall i | 0 <= i < |rest| ensures rest[i].id != activeTab {
            assert rest[i] == items[i + 1];
          }
        }
      } else {
        assert (exists i :: 0 <= i < |items| && items[i].id == activeTab)
           <==> (exists i :: 0 <= i < |rest| && rest[i].id == activeTab) by {
          if i :| 0 <= i < |items| && items[i].id == activeTab {
            assert i > 0 && rest[i - 1] == items[i];
          }
          if i :| 0 <= i < |rest| && rest[i].id == activeTab {
            assert items[i + 1] == rest[i];
          }
        }
      }
    }
  }

  lemma NavItemsDistinct()
    ensures DistinctIds(NavItems)
    ensures |NavItems| == 5
  {
    forall i, j | 0 <= i < |NavItems| && 0 <= j < |NavItems| && i != j
      ensures NavItems[i].id != NavItems[j].id
    {
    }
  }

  /** The bar highlights exactly one item for a recognised tab and none otherwise. */
  lemma AtMostOneActive(activeTab: string)
    ensures ActiveCount(NavItems, activeTab) == if IsNavId(activeTab) then 1 else 0
  {
    NavItemsDistinct();
    ActiveCountDistinct(NavItems, activeTab);
  }

  /** The tab a click on the item requests. */
  function Click(item: NavItem): (tab: string)
    ensures IsActive(tab, item)
  {
    item.id
  }

  /**
   * Clicking the k-th item makes it the only highlighted one and shows the
   * view named by its id.
   */
  lemma ClickSelects(p: Page, k: nat)
    requires k < |NavItems|
    ensures var p' := SetActiveTab(p, Click(NavItems[k]));
      && (forall i :: 0 <= i < |NavItems| ==> (IsActive(p'.activeTab, NavItems[i]) <==> i == k))
      && TabOf(Render(p').view) == NavItems[k].id
  {
    NavItemsDistinct();
  }

  /** Each quick action requests a tab of the bar, so it shows its own view. */
  lemma QuickActionsNavigate()
    ensures |QuickActions| == 3
    ensures forall i :: 0 <= i < |QuickActions| ==> IsNavId(QuickActions[i])
    ensures Dispatch(QuickActions[0]) == AlertsView
    ensures Dispatch(QuickActions[1]) == PrepareView
    ensures Dispatch(QuickActions[2]) == MapView
  {
    assert NavItems[1].id == "alerts" && NavItems[3].id == "prepare" && NavItems[2].id == "map";
  }
}
