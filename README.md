# Presentation controller: command dispatcher and BLE supervision cycle

This project models the core of a Raspberry Pi presentation controller that a
remote ESP32 drives over Bluetooth Low Energy (BLE). The original is
`presentation_controller.py`. It has two parts.

**Commands.** A command is `"UP"`, `"DOWN"` or `"SELECT"`. It comes from a BLE
notification or from the keyboard. A single, global debounce drops any command
that arrives less than 1.0 s after the last accepted one. An accepted command is
time-stamped and then routed by mode:

- In navigation mode, UP and DOWN move the list-box selection, clamped at the
  ends. SELECT starts the selected presentation.
- In presentation mode, UP and DOWN move the slide cursor, clamped at the ends.
  SELECT ends the presentation.

**Link.** A background loop keeps the BLE link up. Each pass makes up to three
connect attempts. Each attempt tries address type RANDOM, then PUBLIC. Once
connected, the loop finds the Client Characteristic Configuration descriptor
(CCCD). It is the first descriptor with UUID 0x2902; if there is none, the
characteristic handle + 1 is used. The loop writes `01 00` to it to enable
notifications, with up to three write attempts. It then waits for
notifications. Any failure takes an error path that marks the link down,
disconnects and forgets the peripheral, and cools down for 2 s.

Layout:

- `wrappers.dfy`, module `Wrappers`: `Option`.
- `session.dfy`, module `Session`: the command side as pure functions on a
  `Session` value, with the lemmas about them.
- `link.dfy`, module `Link`: one supervision cycle as pure functions of
  abstract transport outcomes. The cycle's effects on the outside world (sleeps,
  UI status posts, descriptor writes, the disconnect) form a trace of
  `LinkEvent`s.
- `controller.dfy`, module `Controller`: class `PresentationSystem`. It holds
  the fields the source mutates: `last_command_time`, `presentation_mode`, the
  list box, `current_slide`, the slide list, the status bar, `connected` and
  `peripheral`. Each method is proved to change these fields exactly as the
  matching `Session` or `Link` function says. The retry and search loops are
  `while` loops with invariants.

Modelling choices:

- Time is a `real` parameter `now`, standing in for `time.time()`.
- `last_command_time` is an `Option`. `None` is the state before the first
  accepted command, which the source tests with `hasattr`.
- The list box is its size plus an optional selected index.
- The slide list is its length.
- The converter is a `LoadOutcome`: `Converted(n)`, or
  `ConversionFailed(k)`, where k slides were appended before the exception.
- The radio is three inputs:
  - `connectOk(attempt, addrType)` says whether that connect call succeeds;
  - a `Discovery` says whether service, characteristic and descriptor lookup
    succeeded, and if so gives the characteristic handle and the descriptors;
  - `writeOk(k)` says whether the k-th CCCD write succeeds.
- Descriptor UUIDs are full 128-bit numbers. `btle.UUID("2902")` expands a
  16-bit UUID with the Bluetooth Base UUID. The CCCD value `01 00` is read as
  a little-endian bit field whose bit 0 enables notifications. Both follow the
  Bluetooth Core Specification: Vol 3, Part B, section 2.5.1 and Vol 3, Part G,
  section 3.3.3.3.

Behaviour of the code that is easy to misread:

- After a failed load, the status bar does not keep the error text.
  `end_presentation` overwrites it with "Presentation ended"
  (presentation_controller.py:456-458, 544).
- A failed load can leave a partly filled slide list (:403, :442). The slide
  count is kept, but presentation mode is off.
- `end_presentation` in navigation mode is idempotent, but it is not a no-op.
  It still sets the status text (`Session.EndIdempotent`).
- A successful load of zero slides does not reset `current_slide` (:450-451).
  The cursor keeps its old value, and UP in presentation mode still decrements
  it (`Session.StaleCursorAfterEmptyLoad`). So the cursor can move while there
  are no slides. What holds is that the cursor is on a slide whenever a
  non-empty presentation is shown (`Session.CursorValid`,
  `Session.RunPreservesValid`).

## Model

| member | source | states |
|---|---|---|
| `Session.Initial` | presentation_controller.py:75-83 | at start-up nothing is presenting, no command has been accepted and there are no slides; the list has `count` items, item 0 is selected exactly when the list is not empty, and the status says how many were found (after `scan_presentations`, :195-203) |
| `Session.SelectionUp` | presentation_controller.py:336-343 | UP in navigation moves a selected index k > 0 to k - 1 and keeps 0 at 0; no selection stays none; only the selection changes, and it stays inside the list |
| `Session.SelectionDown` | presentation_controller.py:345-352 | DOWN in navigation moves k to k + 1 only when k + 1 is still an item, otherwise keeps k; no selection stays none; only the selection changes, and it stays inside the list |
| `Session.ShowCurrentSlide` | presentation_controller.py:460-510 | showing the slide under the cursor sets the status to "Slide k+1 of n" when the cursor is on a slide, and changes nothing otherwise |
| `Session.NextSlide` | presentation_controller.py:518-523 | DOWN in presentation advances the cursor only if it is below the last slide, and then shows "Slide k+1 of n" for the new slide k; when the cursor does not move, nothing at all changes; only cursor and status change; the cursor stays on a slide |
| `Session.PreviousSlide` | presentation_controller.py:525-530 | UP in presentation steps the cursor back only if it is above 0; at slide 0 nothing changes; after a step onto a slide the status is "Slide k+1 of n", after a step on a stale cursor beyond the slides the status is kept; only cursor and status change; the cursor stays on a slide |
| `Session.End` | presentation_controller.py:532-544 | ending always leaves presentation mode and sets the status to "Presentation ended"; slides, cursor, selection and the time stamp are kept |
| `Session.Load` | presentation_controller.py:400-458 | on success the slide count is the page count, and a non-empty presentation opens at slide 0 showing "Slide 1 of n"; zero pages leave cursor and status alone; on failure presentation mode is off, the status is "Presentation ended" and the slide count is what was appended before the error |
| `Session.Start` | presentation_controller.py:369-398 | with no selection nothing changes; with one, presentation mode ends up on exactly when conversion succeeded, and a non-empty presentation opens at slide 0; a failed conversion ends the presentation with the slides appended so far and keeps the cursor and every other field |
| `Session.Dispatch` | presentation_controller.py:322-367 | a command inside the debounce window changes nothing; an accepted one stamps `now`; the list size never changes and the session invariant is kept |
| `Session.RunPreservesValid` | presentation_controller.py:322-367 | after any sequence of commands the selection is still an item of the list, and while a non-empty presentation is shown the cursor is on one of its slides |
| `Session.DebounceScenario` | presentation_controller.py:327-332 | commands at t, t + 0.5 and t + 1.5, with any tokens, are accepted, dropped and accepted |
| `Session.DispatchRoutes` | presentation_controller.py:332-367 | an accepted command is time-stamped and routed: in navigation UP and DOWN move the selection and SELECT starts the selected presentation; in presentation UP and DOWN step the slide cursor and SELECT ends the presentation |
| `Session.UnknownCommandOnlyStamps` | presentation_controller.py:332-367 | an accepted token other than UP, DOWN and SELECT only moves the time stamp |
| `Session.NavigationDownScenario` | presentation_controller.py:345-352 | with five items and item 2 selected, DOWN selects 3, and three more DOWNs stop at 4 |
| `Session.PresentingUpAtFirstSlide` | presentation_controller.py:359-361 | in presentation at slide 0 of 10, UP only stamps the time; the cursor stays at 0 |
| `Session.SelectStartsPresentation` | presentation_controller.py:354-356 | SELECT in navigation without a selection only stamps the time; with one, presentation mode ends up on exactly when the load succeeds, a failure ends with "Presentation ended", and a non-empty load opens at slide 0 |
| `Session.SelectEndsPresentation` | presentation_controller.py:365-367 | SELECT in presentation mode ends the presentation |
| `Session.EndIdempotent` | presentation_controller.py:532-544 | ending twice is ending once; ending when already ended in navigation mode changes nothing |
| `Session.StaleCursorAfterEmptyLoad` | presentation_controller.py:450-451 | a zero-slide load leaves the old cursor in place, and UP then still moves it |
| `Link.FromShortUuid` | presentation_controller.py:264 | a 16-bit UUID expands to a 128-bit UUID whose low 96 bits are the Bluetooth Base UUID and whose top 32 bits are the short UUID, so distinct short UUIDs stay distinct |
| `Link.ConnectFromSuccess` | presentation_controller.py:216-233 | from any attempt on, the connect loop connects exactly when a later attempt below 3 succeeds; it then uses the first one, with that attempt's address type, after one attempt per failure and one sleep per failure; if every attempt fails, it makes all remaining attempts and sleeps one fewer time |
| `Link.ConnectFromShape` | presentation_controller.py:216-233 | the connect trace starts with the RANDOM call of its first attempt and never ends with a sleep; every sleep is 2 s; it holds only connect calls and sleeps, for attempts below 3 |
| `Link.ConnectFromFallback` | presentation_controller.py:220-223 | every PUBLIC call comes right after the failed RANDOM call of the same attempt |
| `Link.ConnectAfterFailures` | presentation_controller.py:216-233 | after the first `n` attempts have failed, the connect trace is their attempts with a 2 s sleep after each, followed by the trace from attempt `n` on; the outcome is that of attempt `n` on |
| `Link.ConnectFirstSuccess` | presentation_controller.py:216-227 | a cycle's connect phase succeeds exactly when one of the three attempts succeeds, and it stops at the first one |
| `Link.ConnectRetryBounds` | presentation_controller.py:216-233 | the trace opens with the RANDOM call of attempt 0; at most 3 attempts; every sleep is 2 s and sits between a call of one attempt and the RANDOM call of the next, with one sleep fewer than attempts and none at the end; PUBLIC only as fallback; after 3 failures all 3 attempts were made |
| `Link.ConnectThirdTime` | presentation_controller.py:216-233 | two failed attempts and a third RANDOM success connect with exactly 3 attempts and 2 retry sleeps |
| `Link.CccdHandleIsFirstCccd` | presentation_controller.py:261-272 | the chosen handle is that of the first descriptor whose UUID is the CCCD's; with no such descriptor it is the characteristic handle + 1 |
| `Link.NotifyFromFacts` | presentation_controller.py:277-289 | from any write attempt on, notifications get enabled exactly when a later attempt below 3 succeeds; the writes stop at the first success and all go to the one handle with `01 00`; the trace opens with a write, and every sleep is 0.5 s with a write on both sides, one sleep fewer than writes |
| `Link.NotifyAfterFailures` | presentation_controller.py:277-289 | after the first `n` writes have failed, the subscription trace is those writes with a 0.5 s sleep after each, followed by the trace from write `n` on |
| `Link.NotifyRetry` | presentation_controller.py:277-289 | the enable write is tried at most 3 times, stops at the first success and fails only after 3 failures |
| `Link.ErrorPath` | presentation_controller.py:306-320 | the error path always leaves `connected` false and no peripheral, keeps the trace so far, and ends with the 2 s cooldown |
| `Link.Cycle` | presentation_controller.py:209-320 | a cycle started while connected does nothing; any other cycle ends disconnected with no peripheral, having reached the error path |
| `Link.CycleSubscribesIff` | presentation_controller.py:216-301 | a cycle gets as far as waiting for notifications exactly when some connect attempt, the lookup and some enable write succeed; it fails to connect exactly when all three attempts fail |
| `Link.CycleExitCases` | presentation_controller.py:216-304 | a cycle exits with a setup failure exactly when a connect succeeds and the lookup fails, and with a subscription failure exactly when the lookup works but all three enable writes fail |
| `Link.CycleCleanup` | presentation_controller.py:225-318 | starting without a peripheral, "Connected" is posted once exactly when a connect succeeds, the peripheral is disconnected exactly then, and "Disconnected" is always posted |
| `Link.CycleWrites` | presentation_controller.py:261-289 | every descriptor write of a cycle goes to the chosen CCCD handle with `01 00`, and there are at most 3 |
| `Controller.PresentationSystem.constructor` | presentation_controller.py:75-83 | the new object is valid, in the start-up state of `Session.Initial`, and disconnected |
| `Controller.PresentationSystem.HandleCommand` | presentation_controller.py:322-367 | the new state is `Session.Dispatch` of the old one, the object invariant is kept, and the link fields are untouched |
| `Controller.PresentationSystem.StartPresentation` | presentation_controller.py:369-398 | the new state is `Session.Start` of the old one, and a valid object stays valid |
| `Controller.PresentationSystem.LoadPresentation` | presentation_controller.py:400-458 | the new state is `Session.Load` of the old one and the outcome, and a valid object stays valid |
| `Controller.PresentationSystem.ShowCurrentSlide` | presentation_controller.py:460-510 | the new state is `Session.ShowCurrentSlide` of the old one, and a valid object stays valid |
| `Controller.PresentationSystem.ShowNextSlide` | presentation_controller.py:518-523 | the new state is `Session.NextSlide` of the old one, and a valid object stays valid |
| `Controller.PresentationSystem.ShowPreviousSlide` | presentation_controller.py:525-530 | the new state is `Session.PreviousSlide` of the old one, and a valid object stays valid |
| `Controller.PresentationSystem.EndPresentation` | presentation_controller.py:532-544 | the new state is `Session.End` of the old one, and a valid object stays valid |
| `Controller.PresentationSystem.MaintainCycle` | presentation_controller.py:209-320 | the new `connected` and `peripheral`, the exit reason and the trace are exactly `Link.Cycle` of the old fields and the transport outcomes; the command side is untouched |
| `Controller.PresentationSystem.ConnectWithRetry` | presentation_controller.py:216-233 | the loop connects exactly as `Link.Connect` says, with its trace; on failure `peripheral` keeps its old value; a valid object stays valid |
| `Controller.PresentationSystem.ConnectAttempt` | presentation_controller.py:220-223 | one attempt tries RANDOM, falls back to PUBLIC only if RANDOM fails, and reports `Link.AttemptOutcome` with its calls |
| `Controller.PresentationSystem.ErrorCleanup` | presentation_controller.py:306-320 | marks the link down and forgets the peripheral; it disconnects only if there was one, and always cools down; a valid session gives a valid object |
| `Controller.PresentationSystem.FindCccdHandle` | presentation_controller.py:261-272 | the search loop returns `Link.CccdHandle`: the first CCCD's handle, else the characteristic handle + 1 |
| `Controller.PresentationSystem.EnableNotifications` | presentation_controller.py:274-289 | the retry loop returns `Link.Notify`'s outcome and trace |
| `Controller.DebouncedDownScenario` | presentation_controller.py:174-177 | three keyboard DOWNs at 10.0, 10.5 and 11.5 s on five items move the selection from 0 to 2 |

## Left out

- GUI construction, layout, fullscreen toggling and key binding (:56-69, :99-183). This is UI. Only the status-bar text is modelled, as `Session.Status`.
- `scan_presentations` (:185-207). It is a filesystem glob. The model takes the number of files found and the initial selection of item 0. Its error path is not modelled.
- Re-selection with the mouse. Tk does this inside the list box, so no source code is involved. `Session.Valid` allows any selected item.
- The conversion pipeline in `load_presentation`: LibreOffice, PyMuPDF and PIL (:404-447). These are foreign calls, so they become a `LoadOutcome`.
- Slide images that survive a conversion failing before :431. The model keeps only the slide count.
- Any failure raised after :451: in the unguarded start of `show_current_slide`, or on leaving the `tempfile.TemporaryDirectory()` block (:408). Such a failure in the source has already reset `current_slide` to 0, whereas `Load` keeps the old cursor on every failure. Presentation mode is off either way.
- The image scaling, centring and drawing in `show_current_slide` (:464-516). This is floating-point rendering. Only the "Slide k of n" status update is modelled, and drawing is assumed to succeed, so the "Error displaying slide" text is not modelled.
- Threading, the `root.after` hand-off to the UI thread, `time.sleep` and `time.time()`. Time is the parameter `now`. Sleeps and UI posts are trace events with no other effect.
- `NotifyDelegate`, `data.decode()` and the wait loop (:241-253, :293-301). This is bluepy I/O. A cycle that subscribes is modelled as waiting until the link raises, which then leads to cleanup (`Link.LinkLost`). Commands received while waiting reach the dispatcher as `HandleCommand` calls.
- A link that never fails while waiting. That cycle never ends in the source, and the model does not represent it.
- The endless outer `while True` (:213). The model is one cycle, `MaintainCycle`. The "already connected" pass that does nothing is kept as `Link.Idle`.
- Logging, and best-effort exceptions swallowed in `disconnect()` (:314-317), which have no effect on state.
- The BLE address, service UUID and characteristic UUID (:72-74). They are configuration and are left blank in the source.
