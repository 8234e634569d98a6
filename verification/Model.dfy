/** The session model of src/core/model.h and the validity rules of src/core/model.cpp. */
module Model {
  import opened Options
  import opened Wtf8
  import JsonGrammar
  import Decimals

  type Int32 = n: int | -0x8000_0000 <= n < 0x8000_0000

  const MAX_PANE_COUNT := 4
  const DEFAULT_SIDEBAR_WIDTH: Int32 := 194

  datatype LocationParent = LocationParent(
    parsingName: WString, knownFolderIdentity: WString, fallbackPath: WString, namespaceLocation: bool)

  datatype ShellLocation = ShellLocation(
    parsingName: WString, knownFolderIdentity: WString, fallbackPath: WString,
    navigationParent: Option<LocationParent>, namespaceLocation: bool)

  datatype LayoutTemplate =
    | Single
    | LeftRight
    | TopBottom
    | ThreePane
    | FourPaneGrid
    | TwoOverOne
    | OneOverTwo
    | TwoBesideOne

  datatype TabState = TabState(
    id: string, location: ShellLocation, viewMode: string, sortColumn: string, sortAscending: bool,
    history: seq<ShellLocation>, historyIndex: nat, columns: string)

  datatype PaneState = PaneState(id: string, tabs: seq<TabState>, activeTabId: string)

  /** A double, carried as the text it prints as with 17 significant digits. */
  type Double = string

  datatype GroupState = GroupState(
    id: string, name: WString, layoutTemplate: LayoutTemplate, dividerRatios: seq<Double>,
    panes: seq<PaneState>, activePaneId: string)

  datatype WindowPlacement = WindowPlacement(x: Int32, y: Int32, width: Int32, height: Int32, maximized: bool)

  datatype ApplicationState = ApplicationState(
    schemaVersion: nat, groups: seq<GroupState>, activeGroupId: string, windowPlacement: WindowPlacement,
    sidebarWidth: Int32, pinnedLocations: seq<ShellLocation>, listFontPoints: Int32)

  function PaneCount(layout: LayoutTemplate): (count: nat)
    ensures 1 <= count <= MAX_PANE_COUNT
  {
    match layout
    case Single => 1
    case LeftRight | TopBottom => 2
    case ThreePane | TwoOverOne | OneOverTwo | TwoBesideOne => 3
    case FourPaneGrid => 4
  }

  function DividerRatioCount(layout: LayoutTemplate): nat {
    match layout
    case Single => 0
    case LeftRight | TopBottom => 1
    case _ => 2
  }

  function DefaultDividerRatios(layout: LayoutTemplate): (ratios: seq<Double>)
    ensures |ratios| == DividerRatioCount(layout)
    ensures forall ratio | ratio in ratios :: IsRatio(ratio)
  {
    HalfIsRatio();
    seq(DividerRatioCount(layout), _ => "0.5")
  }

  // ----- The value of a printed double

  function PowerOfTen(exponent: nat): (power: int)
    ensures power > 0
  {
    if exponent == 0 then 1 else 10 * PowerOfTen(exponent - 1)
  }

  function IndexOf(s: string, letters: string): (index: nat)
    ensures index <= |s|
  {
    if s == "" || s[0] in letters then 0 else 1 + IndexOf(s[1..], letters)
  }

  function SignedValue(s: string): int {
    if s != "" && s[0] == '-' && JsonGrammar.AllDigits(s[1..]) then 0 - Decimals.DigitsValue(s[1..])
    else if s != "" && s[0] == '+' && JsonGrammar.AllDigits(s[1..]) then Decimals.DigitsValue(s[1..])
    else if JsonGrammar.AllDigits(s) then Decimals.DigitsValue(s)
    else 0
  }

  /** mantissa * 10^scale of a number text: [-] digits [. digits] [e digits]. */
  function Scientific(lexeme: Double): (int, int) {
    var e := IndexOf(lexeme, "eE");
    var exponent := if e < |lexeme| then SignedValue(lexeme[e + 1..]) else 0;
    var plain := lexeme[..e];
    var point := IndexOf(plain, ".");
    var fraction := if point < |plain| then plain[point + 1..] else "";
    (SignedValue(plain[..point] + fraction), exponent - |fraction|)
  }

  /** 0.0 <= ratio <= 1.0; a printed double is always finite. */
  predicate IsRatio(lexeme: Double) {
    var (mantissa, scale) := Scientific(lexeme);
    mantissa >= 0
    && if scale >= 0 then mantissa * PowerOfTen(scale) <= 1 else mantissa <= PowerOfTen(-scale)
  }

  lemma HalfIsRatio()
    ensures IsRatio("0.5")
  {
    var lexeme := "0.5";
    assert IndexOf(lexeme[3..], "eE") == 0;
    assert IndexOf(lexeme[2..], "eE") == 1;
    assert IndexOf(lexeme[1..], "eE") == 2;
    assert IndexOf(lexeme, "eE") == 3;
    assert lexeme[..3] == lexeme;
    assert IndexOf(lexeme[1..], ".") == 0;
    assert IndexOf(lexeme, ".") == 1;
    var digits := lexeme[..1] + lexeme[2..];
    assert digits == "05";
    assert digits[..1] == "0" && digits[..1][..0] == "";
    assert Decimals.DigitsValue("0") == 0;
    assert Decimals.DigitsValue("05") == 5;
    assert SignedValue("05") == 5;
    assert PowerOfTen(0) == 1;
    assert PowerOfTen(1) == 10;
  }

  // ----- Validity

  predicate UniqueIds(ids: seq<string>) {
    && (forall id | id in ids :: id != "")
    && (forall i, j | 0 <= i < j < |ids| :: ids[i] != ids[j])
  }

  function TabIds(tabs: seq<TabState>): (ids: seq<string>) {
    seq(|tabs|, i requires 0 <= i < |tabs| => tabs[i].id)
  }

  function PaneIds(panes: seq<PaneState>): seq<string> {
    seq(|panes|, i requires 0 <= i < |panes| => panes[i].id)
  }

  function GroupIds(groups: seq<GroupState>): seq<string> {
    seq(|groups|, i requires 0 <= i < |groups| => groups[i].id)
  }

  predicate ValidTab(tab: TabState) {
    tab.history == []
    || (tab.historyIndex < |tab.history| && tab.location == tab.history[tab.historyIndex])
  }

  predicate ValidPane(pane: PaneState) {
    && pane.tabs != []
    && UniqueIds(TabIds(pane.tabs))
    && pane.activeTabId in TabIds(pane.tabs)
    && (forall tab | tab in pane.tabs :: ValidTab(tab))
  }

  predicate ValidGroup(group: GroupState) {
    && group.id != ""
    && PaneCount(group.layoutTemplate) <= |group.panes| <= MAX_PANE_COUNT
    && |group.dividerRatios| == DividerRatioCount(group.layoutTemplate)
    && (forall ratio | ratio in group.dividerRatios :: IsRatio(ratio))
    && UniqueIds(PaneIds(group.panes))
    && group.activePaneId in PaneIds(group.panes)
    && (forall pane | pane in group.panes :: ValidPane(pane))
  }

  predicate ValidApplication(application: ApplicationState) {
    && UniqueIds(GroupIds(application.groups))
    && (forall group | group in application.groups :: ValidGroup(group))
    && (if application.groups == [] then application.activeGroupId == ""
        else application.activeGroupId in GroupIds(application.groups))
  }

  predicate ValidListFontPoints(points: int) {
    points in {0, 9, 10, 11, 12, 14, 16, 18, 20, 24}
  }

  predicate CanPinLocation(pinned: seq<ShellLocation>, location: ShellLocation) {
    location.parsingName != [] && forall other | other in pinned :: other.parsingName != location.parsingName
  }
}
