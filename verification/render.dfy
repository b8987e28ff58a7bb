/**
 * Rendering as a pure function from the application state to the list of
 * draw operations one frame issues, in order. Text is an opaque string
 * placed at an origin; glyph metrics are not modelled.
 */
module Render {
  import opened Config
  import opened Launcher

  /** A font is identified by its point size. */
  datatype Font = Font(size: int)

  const TitleFont: Font := Font(TitleFontSize)
  const MenuFont: Font := Font(MenuFontSize)

  datatype DrawOp =
    | Fill(color: Rgb)
    | FillRect(color: Rgb, x: int, y: int, w: int, h: int, radius: int)
    | Blit(text: string, font: Font, color: Rgb, x: int, y: int)

  /** Layout of the left panel and the menu rows. */
  const MenuWidth: int := 180
  const StartY: int := 60
  const Spacing: int := 45
  const HighlightBoxColor: Rgb := Rgb(60, 60, 60)
  const HighlightRadius: int := 6

  /** The left panel drawn on every screen. */
  function Panel(): DrawOp
  {
    FillRect(MenuBgColor, 0, 0, MenuWidth, ScreenHeight, 0)
  }

  /** Vertical origin of menu row `i`'s label. */
  function RowY(i: int): int
  {
    StartY + i * Spacing
  }

  /** A rectangle or text origin that stays within the left panel's columns. */
  predicate InPanel(op: DrawOp)
  {
    match op
    case Fill(_) => false
    case FillRect(_, x, _, w, _, _) => 0 <= x && x + w <= MenuWidth
    case Blit(_, _, _, x, _) => 0 <= x < MenuWidth
  }

  /**
   * The rounded box behind the selected row. It stays within the panel's
   * columns, lies on the surface for every menu row, and encloses row `i`'s
   * label origin with a margin on the left and above.
   */
  function HighlightRect(i: int): (r: DrawOp)
    ensures r.FillRect? && InPanel(r) && r.h == Spacing
    ensures 0 <= i < |MenuItems| ==> 0 <= r.y && r.y + r.h <= ScreenHeight
    ensures r.x < 25 && r.y < RowY(i) < r.y + r.h
  {
    FillRect(HighlightBoxColor, 10, RowY(i) - 6, MenuWidth - 20, Spacing, HighlightRadius)
  }

  /** Row `i`'s label, in the highlight colour when it is the selected row. */
  function RowLabel(i: int, selected: int): (r: DrawOp)
    requires 0 <= i < |MenuItems|
    ensures r.Blit? && r.text == MenuItems[i] && r.y == RowY(i) && InPanel(r)
    ensures r.color == HighlightColor <==> i == selected
  {
    Blit(MenuItems[i], MenuFont, if i == selected then HighlightColor else TextColor, 25, RowY(i))
  }

  /**
   * The draw operations for menu row `i`: the highlight box if selected, then
   * the label, so that the label is painted on top of the box.
   */
  function RowOps(i: int, selected: int): (r: seq<DrawOp>)
    requires 0 <= i < |MenuItems|
    ensures |r| == if i == selected then 2 else 1
    ensures r[|r| - 1] == RowLabel(i, selected)
    ensures i == selected ==> r[0] == HighlightRect(i)
  {
    (if i == selected then [HighlightRect(i)] else []) + [RowLabel(i, selected)]
  }

  /** The draw operations for the first `n` menu rows, top to bottom. */
  function Rows(n: nat, selected: int): (r: seq<DrawOp>)
    requires n <= |MenuItems|
    ensures |r| == n + if 0 <= selected < n then 1 else 0
    ensures forall k :: 0 <= k < |r| ==> InPanel(r[k])
  {
    if n == 0 then [] else Rows(n - 1, selected) + RowOps(n - 1, selected)
  }

  /** The main menu: panel, title, then every row. */
  function DrawMainMenu(selected: int): (r: seq<DrawOp>)
    ensures |r| == 2 + |MenuItems| + if 0 <= selected < |MenuItems| then 1 else 0
    ensures r[0] == Panel()
    ensures r[1].Blit? && r[1].text == "Main Menu" && r[1].font == TitleFont && r[1].x >= MenuWidth
    ensures forall k :: 2 <= k < |r| ==> InPanel(r[k])
  {
    [Panel(), Blit("Main Menu", TitleFont, TitleColor, MenuWidth + 20, 20)]
    + Rows(|MenuItems|, selected)
  }

  /** A placeholder sub-screen: panel, back hint, title and subtitle. */
  function DrawScreen(title: string, subtitle: string): (r: seq<DrawOp>)
    ensures |r| == 4 && r[0] == Panel()
    ensures r[1].Blit? && r[1].text == "ESC: Back" && InPanel(r[1])
    ensures r[2].Blit? && r[2].text == title && r[2].font == TitleFont && r[2].x >= MenuWidth
    ensures r[3].Blit? && r[3].text == subtitle && r[3].x == r[2].x && r[3].y > r[2].y
  {
    [ Panel(),
      Blit("ESC: Back", MenuFont, TextColor, 15, ScreenHeight - 35),
      Blit(title, TitleFont, TitleColor, MenuWidth + 20, 40),
      Blit(subtitle, MenuFont, TextColor, MenuWidth + 20, 80) ]
  }

  /** Title of each sub-screen. */
  function ScreenTitle(screen: Screen): (r: string)
    requires screen != MainMenu
    ensures forall i :: 0 <= i < |MenuScreens| && MenuScreens[i] == screen ==> r == MenuItems[i]
  {
    match screen
    case Music => "Music"
    case Video => "Video"
    case Emulator => "Emulator"
    case RadioTuner => "Radio Tuner"
    case Clock => "Clock"
  }

  /** Placeholder body text of each sub-screen. */
  function ScreenSubtitle(screen: Screen): (r: string)
    requires screen != MainMenu
    ensures "Here you'll " <= r
  {
    match screen
    case Music => "Here you'll list and play songs."
    case Video => "Here you'll browse and play videos."
    case Emulator => "Here you'll launch ROMs."
    case RadioTuner => "Here you'll tune FM stations."
    case Clock => "Here you'll show time and alarms."
  }

  /** One frame: clear to the background colour, then the current screen. */
  function Draw(s: AppState): (ops: seq<DrawOp>)
    ensures |ops| >= 2 && ops[0] == Fill(BgColor) && ops[1] == Panel()
  {
    [Fill(BgColor)]
    + if s.screen == MainMenu then DrawMainMenu(s.selectedIndex)
      else DrawScreen(ScreenTitle(s.screen), ScreenSubtitle(s.screen))
  }
}
