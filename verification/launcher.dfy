/**
 * The launcher's state machine: the current screen, the selected main-menu
 * row and the running flag, driven by a batch of input events per frame.
 */
module Launcher {
  import opened Config

  /** The six application states; every one but MainMenu is a placeholder sub-screen. */
  datatype Screen = MainMenu | Music | Video | Emulator | RadioTuner | Clock

  /** The keys the launcher distinguishes; every other key is OtherKey. */
  datatype Key = Up | Down | Return | Escape | OtherKey

  /** An input event: the window-close request, a key press, or anything else the platform reports. */
  datatype Event = Quit | KeyDown(key: Key) | OtherEvent

  datatype AppState = AppState(screen: Screen, selectedIndex: int, running: bool)

  /**
   * Reference table: the sub-screen each menu row leads to, in the order of
   * MenuItems. Used to state what activating a row means.
   */
  const MenuScreens: seq<Screen> := [Music, Video, Emulator, RadioTuner, Clock]

  /** The selection always names an existing menu row, and so a sub-screen to open. */
  predicate Valid(s: AppState)
    ensures Valid(s) <==> 0 <= s.selectedIndex < |MenuScreens|
    ensures Valid(s) ==> MenuScreens[s.selectedIndex] != MainMenu
  {
    0 <= s.selectedIndex < |MenuItems|
  }

  /** The state the application starts in. */
  function Init(): (s: AppState)
    ensures Valid(s)
    ensures s.screen == MainMenu && s.selectedIndex == 0 && s.running
  {
    AppState(MainMenu, 0, true)
  }

  /**
   * Moving the selection up one row, wrapping from the first row to the last.
   * The divisor is positive, so Dafny's `%` agrees with Python's floored `%`.
   */
  function Prev(i: int): (r: int)
    ensures 0 <= r < |MenuItems|
    ensures 0 <= i < |MenuItems| ==> r == if i == 0 then |MenuItems| - 1 else i - 1
  {
    (i - 1) % |MenuItems|
  }

  /** Moving the selection down one row, wrapping from the last row to the first. */
  function Next(i: int): (r: int)
    ensures 0 <= r < |MenuItems|
    ensures 0 <= i < |MenuItems| ==> r == if i == |MenuItems| - 1 then 0 else i + 1
  {
    (i + 1) % |MenuItems|
  }

  /** Opens the sub-screen whose label is at the selected row, dispatching on the label text. */
  function ActivateMenuItem(s: AppState): (r: AppState)
    requires Valid(s)
    ensures r.screen == MenuScreens[s.selectedIndex]
    ensures r.selectedIndex == s.selectedIndex && r.running == s.running
  {
    var item := MenuItems[s.selectedIndex];
    if item == "Music" then s.(screen := Music)
    else if item == "Video" then s.(screen := Video)
    else if item == "Emulator" then s.(screen := Emulator)
    else if item == "Radio Tuner" then s.(screen := RadioTuner)
    else if item == "Clock" then s.(screen := Clock)
    else s
  }

  /** Key handling while the main menu is shown. */
  function HandleMenuInput(s: AppState, k: Key): (r: AppState)
    requires Valid(s)
    ensures Valid(r) && r.running == s.running
    ensures k in {Up, Down} ==> r.screen == s.screen
    ensures k == Up ==> r.selectedIndex == if s.selectedIndex == 0 then |MenuItems| - 1 else s.selectedIndex - 1
    ensures k == Down ==> r.selectedIndex == if s.selectedIndex == |MenuItems| - 1 then 0 else s.selectedIndex + 1
    ensures k == Return ==> r.selectedIndex == s.selectedIndex && r.screen == MenuScreens[s.selectedIndex]
    ensures k !in {Up, Down, Return} ==> r == s
  {
    match k
    case Up => s.(selectedIndex := Prev(s.selectedIndex))
    case Down => s.(selectedIndex := Next(s.selectedIndex))
    case Return => ActivateMenuItem(s)
    case _ => s
  }

  /** Key handling while a sub-screen is shown: only Escape does anything. */
  function HandleScreenInput(s: AppState, k: Key): (r: AppState)
    ensures r.selectedIndex == s.selectedIndex && r.running == s.running
    ensures k == Escape ==> r.screen == MainMenu
    ensures k != Escape ==> r == s
  {
    if k == Escape then s.(screen := MainMenu) else s
  }

  /** One event of a frame's batch. */
  function Step(s: AppState, e: Event): (r: AppState)
    requires Valid(s)
    ensures Valid(r)
    ensures e == Quit ==> !r.running && r.screen == s.screen && r.selectedIndex == s.selectedIndex
    ensures e != Quit ==> r.running == s.running
    ensures e == OtherEvent ==> r == s
    ensures e.KeyDown? && s.screen == MainMenu ==> r == HandleMenuInput(s, e.key)
    ensures e.KeyDown? && s.screen != MainMenu ==> r == HandleScreenInput(s, e.key)
  {
    match e
    case Quit => s.(running := false)
    case KeyDown(k) =>
      if s.screen == MainMenu then HandleMenuInput(s, k) else HandleScreenInput(s, k)
    case OtherEvent => s
  }

  /** A frame's events applied one after another, in arrival order. */
  function ApplyEvents(s: AppState, events: seq<Event>): (r: AppState)
    requires Valid(s)
    ensures Valid(r)
    decreases |events|
  {
    if |events| == 0 then s else ApplyEvents(Step(s, events[0]), events[1..])
  }

  /** Drains one frame's event queue, the loop the main loop runs before drawing. */
  method HandleEvents(s: AppState, events: seq<Event>) returns (t: AppState)
    requires Valid(s)
    ensures Valid(t)
    ensures t == ApplyEvents(s, events)
    ensures t.running <==> s.running && Quit !in events
  {
    t := s;
    var i := 0;
    while i < |events|
      invariant 0 <= i <= |events|
      invariant Valid(t)
      invariant ApplyEvents(t, events[i..]) == ApplyEvents(s, events)
      invariant t.running <==> s.running && Quit !in events[..i]
    {
      assert events[..i + 1] == events[..i] + [events[i]];
      t := Step(t, events[i]);
      i := i + 1;
    }
    assert events[..i] == events;
  }
}
