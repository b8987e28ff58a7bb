# Handheld launcher — Dafny model

A model of the front-panel launcher of a handheld device (`main.py`, class
`HandheldApp`). The launcher shows a main menu of five entries (Music, Video,
Emulator, Radio Tuner, Clock). Up and Down move the selection, wrapping at both
ends. Return opens the placeholder sub-screen of the selected entry. Escape
returns from a sub-screen to the menu. A window-close event clears the
`running` flag. Every frame drains the event queue, then draws the current
screen.

Modules:

- `Config` (`config.dfy`): surface size, palette, font sizes and the ordered
  menu labels.
- `Launcher` (`launcher.dfy`): screens, keys, events and the application state.
  It defines the per-event transition `Step`, the per-frame fold
  `ApplyEvents`, and the loop `HandleEvents` that drains a frame's queue.
- `LauncherProps` (`launcher_props.dfy`): lemmas about navigation and
  activation, and about how a batch of events composes.
- `MainLoop` (`main_loop.dfy`): the frame loop. While the launcher is running,
  each frame drains its events and then draws the updated state.
- `Render` (`render.dfy`): a frame as a pure list of draw operations. An
  operation is a fill, a rectangle, or a text placed at an integer origin.
- `RenderProps` (`render_props.dfy`): lemmas about the layout.

`Launcher.Valid` is the state invariant: the selection names an existing menu
row. `Launcher.Init` establishes it, and `Step` and `ApplyEvents` preserve it.
`Step` requires it because activating an entry indexes the label list with the
selection.

## Model

| member | source | states |
|---|---|---|
| Launcher.Valid | main.py:42-76 | The selection invariant: the selected index is a row of the screen table. A valid selection therefore always names a sub-screen. |
| Launcher.Init | main.py:40-42 | The application starts in the main menu with row 0 selected and running, and that state satisfies the selection invariant. |
| Launcher.Prev | main.py:71-72 | Up always yields a row in [0, 5). On a valid row it equals the reference "previous row, wrapping from 0 to 4". |
| Launcher.Next | main.py:73-74 | Down always yields a row in [0, 5). On a valid row it equals the reference "next row, wrapping from 4 to 0". |
| Launcher.ActivateMenuItem | main.py:88-100 | The label dispatch opens exactly the screen that the reference table `MenuScreens` lists for the selected row. Selection and running flag are untouched. |
| Launcher.HandleMenuInput | main.py:70-76 | In the menu, Up selects the row above (row 4 from row 0) and Down the row below (row 0 from row 4), keeping the screen. Return keeps the selection and opens `MenuScreens[selection]`. Every other key leaves the state unchanged. The invariant is kept. |
| Launcher.HandleScreenInput | main.py:78-86 | In a sub-screen, Escape goes to the menu. Any other key leaves the state unchanged. The selection is never touched. |
| Launcher.Step | main.py:59-68 | One event keeps the invariant. Quit clears `running` and keeps screen and selection. No other event touches `running`. Any other event type leaves the state unchanged. A key press goes to the menu handler in the main menu and to the sub-screen handler elsewhere. |
| Launcher.ApplyEvents | main.py:60-68 | A frame's batch, applied in arrival order, keeps the selection invariant. |
| Launcher.HandleEvents | main.py:59-68 | The draining loop computes the in-order fold of the batch. It ends running exactly when it started running and the batch holds no Quit. |
| LauncherProps.MenuWrapsAround | main.py:71-74 | Up from row 0 selects row 4 and Down from row 4 selects row 0. Both stay in the main menu. |
| LauncherProps.MenuMoves | main.py:71-74 | On every row of the menu, Up moves to the row above and Down to the row below, wrapping at the ends. Nothing else changes. |
| LauncherProps.UpDownInverse | main.py:71-74 | In the menu, Up then Down, and Down then Up, restore the original state. |
| LauncherProps.ActivateOpensSelectedScreen | main.py:75-76 | Return in the menu never stays in the menu. It opens the selected row's screen and keeps the selection and the running flag. |
| LauncherProps.ActivateInjective | main.py:88-100 | Two menu states open the same sub-screen if and only if they select the same row. |
| LauncherProps.ActivateThenBack | main.py:78-81 | Return followed by Escape gives back exactly the menu state before them. |
| LauncherProps.SubScreenKeys | main.py:78-86 | In a sub-screen, the next screen is the menu exactly when the key is Escape. Selection and running flag are preserved. Up, Down, Return and other keys are no-ops. |
| LauncherProps.MenuOtherKeysIgnored | main.py:70-76 | In the menu, a key is a no-op if and only if it is not Up, Down or Return. Escape is therefore a no-op. |
| LauncherProps.ApplyEventsAppend | main.py:60-68 | Applying a batch equals applying any prefix and then the rest. |
| LauncherProps.ApplyEventsStopped | main.py:60-62 | Clearing `running` before a batch gives the same result as clearing it after. |
| LauncherProps.QuitKeepsProcessingBatch | main.py:60-62 | A Quit in the middle of a batch does not stop the batch: the result equals the batch without that Quit, with `running` cleared. |
| LauncherProps.RunningAfterBatch | main.py:60-62 | After a batch the launcher is running if and only if it was running and the batch holds no Quit. |
| LauncherProps.StartupScenario | main.py:70-81 | From the start state: Down, Down selects row 2. Return then opens Emulator, and Escape returns to row 2. Up alone selects row 4. |
| MainLoop.ApplyFramesFlatten | main.py:47-48 | Handling the batches frame by frame gives the same state as handling all their events as one batch. |
| MainLoop.RunningAfterFrames | main.py:46-48 | After any number of frames the launcher is running if and only if it was running and none of the frames' batches held a Quit. |
| MainLoop.TraceFrame | main.py:46-52 | In the frames drawn for the first n batches, frame k is drawn from the state after batches 0..k. |
| MainLoop.Run | main.py:46-52 | While running, the loop handles one event batch per frame and then draws. It draws at most one frame per batch. The final state is the state after every handled batch, frame k is drawn from the state after batches 0..k, and the last frame is drawn from the final state. The loop stops early only when it is no longer running. It ends running if and only if it started running and no handled batch held a Quit. Every drawn frame's earlier batches held no Quit, so the frame in which a Quit arrives is still drawn and is the last. A stopped launcher draws nothing and stays unchanged. Given at least one batch, a running launcher draws at least one frame. |
| Render.Draw | main.py:110-124 | Every frame first clears to the background colour and then paints the left panel. |
| Render.HighlightRect | main.py:140-147 | The highlight box stays within the left panel's columns and is one row spacing (45) high. For every menu row it also lies between the top and bottom of the surface. It encloses its row's label origin, with a margin on the left and above. |
| Render.RowLabel | main.py:137-150 | A row's label is that row's menu text at y = 60 + 45*i inside the panel. It is in the highlight colour if and only if the row is selected. |
| Render.RowOps | main.py:136-150 | A selected row draws its highlight box first and its label second, so the label sits on top. Any other row draws only its label. |
| Render.Rows | main.py:136-150 | The first n rows draw n operations, plus one when the selection is among them. All of them lie within the panel's columns. |
| Render.DrawMainMenu | main.py:126-150 | The main menu draws the panel, then the "Main Menu" title in the title font right of the panel, then the rows inside the panel. It draws one extra operation exactly when the selection is valid. |
| Render.DrawScreen | main.py:152-163 | A sub-screen draws the panel, then the "ESC: Back" hint inside the panel, then its title in the title font right of the panel. Its subtitle comes last, aligned with the title and below it. |
| Render.ScreenTitle | main.py:115-124 | Each sub-screen's title is the menu label of the row that opens it. |
| Render.ScreenSubtitle | main.py:115-124 | Each sub-screen's body text is a placeholder beginning "Here you'll ". |
| RenderProps.RowsHighlight | main.py:136-147 | The first n menu rows paint one highlight box if the selection is among them and none otherwise. Any box painted is the selected row's. |
| RenderProps.RowOpsTexts | main.py:136-150 | A row writes its own label, in the highlight colour exactly when it is the selected row. |
| RenderProps.RowsTexts | main.py:136-150 | The first n rows write the first n labels in menu order. |
| RenderProps.RowsHighlightedText | main.py:136-150 | Among the first n rows, the only label in the highlight colour is the selected row's, and there is none if the selection is not among them. |
| RenderProps.MainMenuOneHighlight | main.py:126-150 | The main menu paints exactly one highlight box for a valid selection, none otherwise. That box is at (10, 60 + 45*i - 6), 160 wide and 45 high. |
| RenderProps.MainMenuTexts | main.py:126-150 | The main menu writes "Main Menu" and then all five labels in order. Exactly the selected label is in the highlight colour. |
| RenderProps.HighlightCoversOwnLabel | main.py:140-150 | Row i's highlight box covers row j's label origin (25, 60 + 45*j) if and only if i = j. |
| RenderProps.SubScreenContents | main.py:152-163 | A sub-screen writes "ESC: Back", then its own title, then its own subtitle. It paints no highlight box. |
| RenderProps.ActivatedScreenTitle | main.py:113-124 | The sub-screen that Return opens is titled with the label of the row that was selected. |
| RenderProps.DrawOnSurface | main.py:110-163 | Every rectangle of every frame lies wholly on the 480 x 320 surface, and so does every text origin. |

## Left out

- pygame initialisation, the window caption, the display surface, `pygame.quit` and `sys.exit` (main.py:32-38, 54-55): process and device I/O.
- Presenting the frame with `display.flip`, frame pacing with `clock.tick(FPS)` and the `FPS` constant (main.py:8, 51-52): output and timing only. `MainLoop.Run` returns the frames it draws instead of presenting them.
- Font loading and glyph rendering (main.py:16, 37-38): a text operation carries its string, font size, colour and origin. Text extents are unknown, so the model cannot check that a highlight box contains a label's glyphs. It proves only that the box contains the label's origin.
- `update()`, called between handling events and drawing, and the commented-out per-screen controls (main.py:49, 83-85, 104-106): they are empty stubs.
- Colours are kept as plain RGB triples. The rounded corner of the highlight box is kept as a radius field. Neither has behaviour to state.
- Activating with an out-of-range `selected_index` would behave differently in Python. An index in [-5, -1] wraps to a label from the end of the list. Any other out-of-range index raises `IndexError`. No reachable state has such an index, so `Launcher.Step` requires the invariant rather than model either behaviour.
- `draw` matches the current state against a chain of string constants and draws only the background for an unknown state (main.py:113-124). The model's screens form a closed enumeration, so that fall-through cannot arise.
