/** The admin dashboard shell: the sidebar navigation, the screen it selects
    and the header search box. */
module AdminPage {

  /** The screens the dashboard can show. */
  datatype Screen = OverviewScreen | UsersScreen | AgentsScreen | TransactionsScreen
                  | FinancialsScreen | SupportScreen | SettingsScreen

  /** A sidebar entry; only "finance" has sub-items. */
  datatype NavItem = NavItem(id: string, subItems: seq<string>)
  {
    predicate HasSub() { subItems != [] }
  }

  const Finance := NavItem("finance", ["overview", "transactions"])

  /** The management and governance entries, in sidebar order. */
  const Navigation: seq<NavItem> := [
    NavItem("overview", []), NavItem("agents", []), Finance,
    NavItem("complaints", []), NavItem("users", []), NavItem("settings", [])
  ]

  datatype Shell = Shell(tab: string, subTab: string, revenueExpanded: bool,
                         detailView: bool, mobileOpen: bool)

  const Initial := Shell("overview", "overview", true, false, false)

  /** `renderContent`: the screen for the active tab; under "finance" the
      sub-tab picks transactions or financials; an unknown tab shows the
      overview. */
  function RenderContent(s: Shell): (screen: Screen)
    ensures screen == TransactionsScreen <==> s.tab == "finance" && s.subTab == "transactions"
    ensures screen == FinancialsScreen <==> s.tab == "finance" && s.subTab != "transactions"
    ensures screen == UsersScreen <==> s.tab == "users"
    ensures screen == AgentsScreen <==> s.tab == "agents"
    ensures screen == SupportScreen <==> s.tab == "complaints"
    ensures screen == SettingsScreen <==> s.tab == "settings"
    ensures screen == OverviewScreen <==>
      s.tab !in {"users", "agents", "finance", "complaints", "settings"}
  {
    match s.tab
    case "users" => UsersScreen
    case "agents" => AgentsScreen
    case "finance" => if s.subTab == "transactions" then TransactionsScreen else FinancialsScreen
    case "complaints" => SupportScreen
    case "settings" => SettingsScreen
    case _ => OverviewScreen
  }

  /** Clicking a main entry: it becomes the active tab, an entry with
      sub-items folds or unfolds them, and the mobile sidebar closes. The
      sub-tab is kept. */
  function MainClick(s: Shell, item: NavItem): (r: Shell)
    ensures r.tab == item.id && r.subTab == s.subTab && !r.mobileOpen
    ensures r.revenueExpanded == (if item.HasSub() then !s.revenueExpanded else s.revenueExpanded)
    ensures r.detailView == s.detailView
  {
    s.(tab := item.id,
       revenueExpanded := if item.HasSub() then !s.revenueExpanded else s.revenueExpanded,
       mobileOpen := false)
  }

  /** Clicking a sub-item: its parent becomes the active tab, the sub-item
      the active sub-tab, and the mobile sidebar closes. */
  function SubClick(s: Shell, item: NavItem, sub: string): (r: Shell)
    ensures r.tab == item.id && r.subTab == sub && !r.mobileOpen
    ensures r.revenueExpanded == s.revenueExpanded && r.detailView == s.detailView
  {
    s.(tab := item.id, subTab := sub, mobileOpen := false)
  }

  predicate MainHighlighted(s: Shell, item: NavItem)
  {
    s.tab == item.id
  }

  predicate SubHighlighted(s: Shell, item: NavItem, sub: string)
  {
    MainHighlighted(s, item) && s.subTab == sub
  }

  /** The header search box is hidden while a screen shows a detail view. */
  predicate SearchShown(s: Shell)
  {
    !s.detailView
  }

  /** No sidebar click touches the detail-view flag, so the search box is
      shown after a click exactly when it was shown before; only the
      screen itself can bring it back. In particular, leaving an agent's
      detail view through the sidebar shows another screen with the search
      box still hidden. */
  lemma ClicksKeepSearch(s: Shell, item: NavItem, sub: string)
    ensures SearchShown(MainClick(s, item)) <==> SearchShown(s)
    ensures SearchShown(SubClick(s, item, sub)) <==> SearchShown(s)
    ensures s.tab == "agents" && !SearchShown(s) && item.id != "agents" ==>
      RenderContent(MainClick(s, item)) != AgentsScreen && !SearchShown(MainClick(s, item))
  {
  }

  /** The sub-tab only ever holds one of the finance entries. */
  ghost predicate Consistent(s: Shell)
  {
    s.subTab in Finance.subItems
  }

  /** Every click the sidebar offers keeps the sub-tab one of the finance
      entries. */
  lemma ClicksKeepConsistent(s: Shell, i: nat, k: nat)
    requires Consistent(s) && i < |Navigation|
    ensures Consistent(MainClick(s, Navigation[i]))
    ensures k < |Navigation[i].subItems| ==> Consistent(SubClick(s, Navigation[i], Navigation[i].subItems[k]))
  {
    assert Navigation[i] == Finance || Navigation[i].subItems == [];
  }

  /** Under the finance tab, the highlighted sub-item always names the screen
      on display: transactions for "transactions", financials for
      "overview". */
  lemma HighlightMatchesScreen(s: Shell)
    requires Consistent(s) && s.tab == "finance"
    ensures SubHighlighted(s, Finance, "transactions") <==> RenderContent(s) == TransactionsScreen
    ensures SubHighlighted(s, Finance, "overview") <==> RenderContent(s) == FinancialsScreen
  {
  }

  /** Going back to the finance entry shows the finance screen last chosen,
      and clicking it twice leaves the sub-menu folded as it was. */
  lemma FinanceRemembersSubTab(s: Shell, sub: string)
    ensures RenderContent(MainClick(SubClick(s, Finance, sub), Finance))
         == RenderContent(SubClick(s, Finance, sub))
    ensures MainClick(MainClick(s, Finance), Finance).revenueExpanded == s.revenueExpanded
  {
  }
}
