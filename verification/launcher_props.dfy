/**
 * Properties of the launcher's state machine: wrap-around navigation,
 * activation and back navigation as inverses, no-op keys, and how a frame's
 * batch of events composes.
 */
module LauncherProps {
  import opened Config
  import opened Launcher

  /** Up from the first row selects the last one, Down from the last selects the first. */
  lemma MenuWrapsAround(s: AppState)
    requires Valid(s) && s.screen == MainMenu
    ensures s.selectedIndex == 0 ==> Step(s, KeyDown(Up)).selectedIndex == |MenuItems| - 1
    ensures s.selectedIndex == |MenuItems| - 1 ==> Step(s, KeyDown(Down)).selectedIndex == 0
    ensures Step(s, KeyDown(Up)).screen == MainMenu && Step(s, KeyDown(Down)).screen == MainMenu
  {
  }

  /** In the main menu, Up selects the row above and Down the row below, on every row, wrapping at the ends. */
  lemma MenuMoves(s: AppState)
    requires Valid(s) && s.screen == MainMenu
    ensures Step(s, KeyDown(Up)) == s.(selectedIndex := if s.selectedIndex == 0 then |MenuItems| - 1 else s.selectedIndex - 1)
    ensures Step(s, KeyDown(Down)) == s.(selectedIndex := if s.selectedIndex == |MenuItems| - 1 then 0 else s.selectedIndex + 1)
  {
  }

  /** In the main menu, Up and Down undo each other. */
  lemma UpDownInverse(s: AppState)
    requires Valid(s) && s.screen == MainMenu
    ensures Step(Step(s, KeyDown(Up)), KeyDown(Down)) == s
    ensures Step(Step(s, KeyDown(Down)), KeyDown(Up)) == s
  {
  }

  /** Return in the main menu opens the sub-screen of the selected row and keeps the selection. */
  lemma ActivateOpensSelectedScreen(s: AppState)
    requires Valid(s) && s.screen == MainMenu
    ensures Step(s, KeyDown(Return)).screen != MainMenu
    ensures Step(s, KeyDown(Return)).screen == MenuScreens[s.selectedIndex]
    ensures Step(s, KeyDown(Return)).selectedIndex == s.selectedIndex
    ensures Step(s, KeyDown(Return)).running == s.running
  {
  }

  /** Different rows open different sub-screens. */
  lemma ActivateInjective(s: AppState, t: AppState)
    requires Valid(s) && Valid(t) && s.screen == MainMenu && t.screen == MainMenu
    ensures Step(s, KeyDown(Return)).screen == Step(t, KeyDown(Return)).screen
        <==> s.selectedIndex == t.selectedIndex
  {
  }

  /** Escape from the sub-screen that Return opened gives back exactly the menu state. */
  lemma ActivateThenBack(s: AppState)
    requires Valid(s) && s.screen == MainMenu
    ensures Step(Step(s, KeyDown(Return)), KeyDown(Escape)) == s
  {
  }

  /** In a sub-screen, Escape returns to the menu; no other key changes anything. */
  lemma SubScreenKeys(s: AppState, k: Key)
    requires Valid(s) && s.screen != MainMenu
    ensures Step(s, KeyDown(k)).selectedIndex == s.selectedIndex
    ensures Step(s, KeyDown(k)).running == s.running
    ensures Step(s, KeyDown(k)).screen == MainMenu <==> k == Escape
    ensures k != Escape ==> Step(s, KeyDown(k)) == s
  {
  }

  /** In the main menu, keys other than Up, Down and Return (Escape included) do nothing. */
  lemma MenuOtherKeysIgnored(s: AppState, k: Key)
    requires Valid(s) && s.screen == MainMenu
    ensures Step(s, KeyDown(k)) == s <==> k != Up && k != Down && k != Return
  {
  }

  /** A frame's events may be split anywhere: the first part is applied, then the rest. */
  lemma {:induction false} ApplyEventsAppend(s: AppState, a: seq<Event>, b: seq<Event>)
    requires Valid(s)
    ensures ApplyEvents(s, a + b) == ApplyEvents(ApplyEvents(s, a), b)
    decreases |a|
  {
    if |a| == 0 {
      assert a + b == b;
    } else {
      assert (a + b)[1..] == a[1..] + b;
      ApplyEventsAppend(Step(s, a[0]), a[1..], b);
    }
  }

  /** Clearing the running flag commutes with applying a batch of events. */
  lemma {:induction false} ApplyEventsStopped(s: AppState, events: seq<Event>)
    requires Valid(s)
    ensures ApplyEvents(s.(running := false), events) == ApplyEvents(s, events).(running := false)
    decreases |events|
  {
    if |events| > 0 {
      assert Step(s.(running := false), events[0]) == Step(s, events[0]).(running := false);
      ApplyEventsStopped(Step(s, events[0]), events[1..]);
    }
  }

  /**
   * A Quit in the middle of a frame does not cut the frame short: the events
   * after it are still applied, and the only difference from the same frame
   * without the Quit is the cleared running flag.
   */
  lemma QuitKeepsProcessingBatch(s: AppState, a: seq<Event>, b: seq<Event>)
    requires Valid(s)
    ensures ApplyEvents(s, a + [Quit] + b) == ApplyEvents(s, a + b).(running := false)
  {
    var t := ApplyEvents(s, a);
    assert a + [Quit] + b == a + ([Quit] + b);
    ApplyEventsAppend(s, a, [Quit] + b);
    assert ([Quit] + b)[1..] == b;
    assert ApplyEvents(t, [Quit] + b) == ApplyEvents(t.(running := false), b);
    ApplyEventsStopped(t, b);
    ApplyEventsAppend(s, a, b);
  }

  /** Without a Quit, a frame's events never touch the running flag; one Quit clears it. */
  lemma {:induction false} RunningAfterBatch(s: AppState, events: seq<Event>)
    requires Valid(s)
    ensures ApplyEvents(s, events).running <==> s.running && Quit !in events
    decreases |events|
  {
    if |events| > 0 {
      assert events == [events[0]] + events[1..];
      RunningAfterBatch(Step(s, events[0]), events[1..]);
    }
  }

  /** The walk-through from the start state: Down, Down, Return, Escape. */
  lemma StartupScenario()
    ensures ApplyEvents(Init(), [KeyDown(Down), KeyDown(Down)]) == AppState(MainMenu, 2, true)
    ensures ApplyEvents(Init(), [KeyDown(Down), KeyDown(Down), KeyDown(Return)]).screen == Emulator
    ensures ApplyEvents(Init(), [KeyDown(Down), KeyDown(Down), KeyDown(Return), KeyDown(Escape)])
         == AppState(MainMenu, 2, true)
    ensures ApplyEvents(Init(), [KeyDown(Up)]) == AppState(MainMenu, 4, true)
  {
  }
}
