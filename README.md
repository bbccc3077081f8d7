# Tetris controller: a verified model

This project models the controller of a browser Tetris game (`docs/js/controller.js`).
The controller sits between the game engine, the canvas view and the browser:

- it keeps two fields: `isPlaying`, and `intervalId`, the gravity timer;
- it turns key presses (Enter 13, Left 37, Up/rotate 38, Right 39, Down 40), key releases and
  clicks on the on-screen buttons (`left`, `up`, `right`, `down`, `power`) into game operations;
- it starts and stops the repeating gravity timer, whose period is `1000 - level*100` ms,
  or 100 ms once that is no longer positive;
- after each game call, and after play or pause, it draws one of three screens: game over,
  pause or main; releasing Down only restarts the timer and draws nothing.

The model has three modules.

- `ControllerSpec` (`controller_spec.dfy`) models values. A state `Ctl` is the pair
  (isPlaying, live interval as its period). Each source method becomes a function. It maps the
  old state, the event and what the game reported during the event (a `Reading`) to the new
  state and the ordered list of effects. An effect is a game call, a screen drawn, or an
  interval started or cleared. `Replay` follows the interval effects of such a list. It fails
  on a list that starts a second interval while one is live, or clears one when none is live.
  `Run` applies the handlers to a sequence of events, one after another, as the browser
  delivers them.
- `ControllerObject` (`controller.dfy`) holds the controller as a class. Its fields are
  `isPlaying` and `intervalId`, plus a ghost `log` that records the effects. Its methods follow the source's
  statements one for one. Each method is proved to produce the state and the log that the
  matching `ControllerSpec` function gives. The handlers also keep the object invariant
  `Valid()`: an interval is live only while playing, and the log's interval calls pair up so
  that exactly the interval in `intervalId` is live. The game engine is the class `Game`.
  Its operations may change its state in any way.
- `ControllerProperties` (`controller_properties.dfy`) holds lemmas that relate several
  handlers or whole event sequences.

Three consequences of the code that the lemmas make explicit:

- Of the two soft-drop inputs, only the Down key touches the gravity timer: key-down clears
  a live interval, and key-up, while playing, starts one if none is live. The on-screen `down` button moves the piece and leaves the interval
  running (`SoftDrop`, `SoftDropButtonKeepsTimer`).
- The controller has no game-over state of its own. `isPlaying` stays true when the game
  ends, so the interval keeps firing and drawing the game-over screen
  (`GameOverKeepsTicking`).
- The period is fixed when an interval starts: `startTimer` computes it on every call but
  uses it only when no interval is live. Enter or power after game over
  resets the game and calls `play`. If an interval is still live, `startTimer` keeps it, and
  the old period carries over to the new game (`ResetKeepsLivePeriod`). After a pause, play
  starts a new interval at the period of the current level (`ResumeRecomputesPeriod`).

## Model

| member | source | states |
|---|---|---|
| ControllerSpec.Period | docs/js/controller.js:54-59 | the period is at least 100; it is at most 1000 for a level of 0 or more; it is `1000 - level*100` below level 10 and 100 from level 10 on |
| ControllerSpec.ScreenFor | docs/js/controller.js:23-33 | exactly one of the three screens is chosen, never the start screen: game over exactly when the game is over, pause exactly when not over and not playing, main exactly when not over and playing |
| ControllerSpec.StartTimer | docs/js/controller.js:53-61 | afterwards an interval is live and isPlaying is unchanged; if one was already live, nothing happens (no second interval, period not recomputed); otherwise one interval is started at the level's period; the interval calls pair up |
| ControllerSpec.StopTimer | docs/js/controller.js:63-68 | afterwards no interval is live; with none live it does nothing; otherwise it clears exactly the live one |
| ControllerSpec.Play | docs/js/controller.js:35-39 | afterwards playing with an interval live; a live interval is kept with its period and is neither cleared nor started again, and otherwise the effects are exactly one interval started at the level's period, then the screen; no game call; draws one screen, last, for the game's state while playing |
| ControllerSpec.Pause | docs/js/controller.js:41-45 | afterwards not playing and no interval live; the effects are exactly the clearing of the live interval, if any, then one screen (game over or pause) |
| ControllerSpec.Reset | docs/js/controller.js:47-50 | resets the game first, then plays: playing with an interval live; a live interval is kept with its period and is neither cleared nor started again, otherwise the effects are exactly the reset call, one interval started at the period of the reset game's level, and the screen; the only game call is the reset; one screen, last, for the reset game's state |
| ControllerSpec.Toggle | docs/js/controller.js:83-91 | Enter (and power, lines 156-163), judged by the game-over flag read before the event. If over: reset then play, with the screen for the reset game. Otherwise, if playing: pause, with no interval live and the pause screen. Otherwise: play, with an interval live and the main screen. When it ends up playing, a live interval is kept and is neither cleared nor started again; a new one runs at the level's period |
| ControllerSpec.Move | docs/js/controller.js:92-103 | a movement key or button while playing: exactly that one game call, controller state unchanged, no interval started or cleared, one screen drawn, last |
| ControllerSpec.Update | docs/js/controller.js:17-20 | a tick: exactly one `movePieceDown`, first, then one screen update; the controller's fields are unchanged and no interval is started or cleared |
| ControllerSpec.HandleKeyDown | docs/js/controller.js:75-110 | when not playing, any key but Enter does nothing; an unknown code does nothing; Enter is the toggle; Left, Up and Right keep the state and neither start nor clear an interval; Down while playing clears the interval; each movement key makes its one game call and draws one screen, last; keeps the invariant; interval calls pair up |
| ControllerSpec.HandleKeyUp | docs/js/controller.js:112-124 | does nothing unless playing and the key is Down, which is exactly startTimer; never calls the game or draws; keeps the invariant; interval calls pair up |
| ControllerSpec.HandleClick | docs/js/controller.js:126-167 | power behaves exactly as the Enter key; the movement buttons never change the controller's state and never start or clear an interval (the down button leaves the timer running), do nothing when not playing, and otherwise make their one game call and draw one screen, last; an unknown id does nothing; keeps the invariant |
| ControllerSpec.Handle | docs/js/controller.js:8-59 | any single event, whether delivered by a listener (lines 8-10) or by the interval's callback (lines 57-59), keeps "an interval is live only while playing", pairs its interval calls and calls the game at most once; it draws either nothing or one screen, last, for the final isPlaying and the game-over flag (the flag after the game call, or the one read before the event when there is no call); a tick leaves the state unchanged and starts or clears no interval |
| ControllerSpec.Run | docs/js/controller.js:8-59 | over any sequence of events from the listeners (lines 8-10) and the interval's callback (lines 57-59), whatever the game reports, the invariant is kept, no second interval is ever started, no missing one is cleared, and the interval left live is the controller's |
| ControllerObject.Controller.constructor | docs/js/controller.js:2-15 | a new controller is not playing, has no interval, has drawn only the start screen, and is valid |
| ControllerObject.Controller.Invoke | docs/js/controller.js:92-108 | a recording helper for the game calls in the handlers: the ghost log gains exactly the one call, then the game operation runs |
| ControllerObject.Controller.Update | docs/js/controller.js:17-20 | state and log after a tick are those of `ControllerSpec.Update`; validity kept |
| ControllerObject.Controller.UpdateView | docs/js/controller.js:23-33 | the screen returned and appended to the log is `ScreenFor` of the game's over flag and isPlaying |
| ControllerObject.Controller.Play | docs/js/controller.js:35-39 | fields and log become those `ControllerSpec.Play` gives for the current level and game-over flag |
| ControllerObject.Controller.Pause | docs/js/controller.js:41-45 | fields and log become those of `ControllerSpec.Pause` |
| ControllerObject.Controller.Reset | docs/js/controller.js:47-50 | fields and log become those of `ControllerSpec.Reset`, for the level and over flag the game has after its reset |
| ControllerObject.Controller.StartTimer | docs/js/controller.js:53-61 | intervalId and log become those of `ControllerSpec.StartTimer` for the game's level |
| ControllerObject.Controller.StopTimer | docs/js/controller.js:63-68 | intervalId and log become those of `ControllerSpec.StopTimer` |
| ControllerObject.Controller.Move | docs/js/controller.js:92-103 | fields unchanged; the log gains the game call and the screen drawn that `ControllerSpec.Move` gives |
| ControllerObject.Controller.Toggle | docs/js/controller.js:83-91 | fields and log become those of `ControllerSpec.Toggle` for the game-over flag read before the event (shared with the power button, lines 156-163) |
| ControllerObject.Controller.HandleKeyDown | docs/js/controller.js:75-110 | fields and log become those of `ControllerSpec.HandleKeyDown`, for the over flag before the event and the game's state after it; validity kept |
| ControllerObject.Controller.HandleKeyUp | docs/js/controller.js:112-124 | fields and log become those of `ControllerSpec.HandleKeyUp`; validity kept |
| ControllerObject.Controller.HandleClick | docs/js/controller.js:126-167 | fields and log become those of `ControllerSpec.HandleClick`; validity kept |
| ControllerProperties.PeriodMonotone | docs/js/controller.js:54-59 | a higher level never gives a longer period |
| ControllerProperties.StartTimerIdempotent | docs/js/controller.js:56-60 | a second startTimer, at any level, changes nothing and starts nothing |
| ControllerProperties.StopTimerIdempotent | docs/js/controller.js:63-68 | a second stopTimer changes nothing and clears nothing |
| ControllerProperties.ResetKeepsLivePeriod | docs/js/controller.js:47-61 | restarting after game over (Enter or power) with an interval live keeps that interval and its period, whatever level the reset game has: the effects are exactly the reset call and one screen, with no interval cleared or started |
| ControllerProperties.ResumeRecomputesPeriod | docs/js/controller.js:35-61 | Enter while playing pauses with no interval live; Enter again plays at the period of the level at that moment |
| ControllerProperties.SoftDrop | docs/js/controller.js:104-122 | Down key-down clears the live interval before `movePieceDown`, then draws; afterwards no interval is live; the matching key-up starts one at the period of the level then |
| ControllerProperties.SoftDropButtonKeepsTimer | docs/js/controller.js:150-154 | the on-screen down button leaves the live interval running (its effects are exactly `movePieceDown` and one screen, with no interval cleared or started), while the Down key clears it |
| ControllerProperties.GameOverKeepsTicking | docs/js/controller.js:17-33 | once the game is over while playing with an interval live, every sequence of firings is deliverable, leaves the controller's state unchanged, and each firing calls `movePieceDown` and draws the game-over screen |
| ControllerProperties.PlayingWithoutTimer | docs/js/controller.js:83-108 | Enter then Down from the initial state leaves the game playing with no interval live: "interval live implies playing" has no converse |
| ControllerProperties.IdleRunIgnored | docs/js/controller.js:78-80 | while not playing, any sequence of events the browser can deliver that holds neither Enter nor a power click changes nothing, calls no game operation and draws nothing; it holds no tick, since no interval is live |
| ControllerProperties.NoRestartWithoutTrigger | docs/js/controller.js:112-124 | once no interval is live, no event sequence without a Down release, an Enter or a power click starts one, so such a sequence, as the browser delivers it, holds no gravity tick |
| ControllerProperties.RunFromInitial | docs/js/controller.js:5-6 | from a fresh controller, every run keeps the invariant, and its interval calls pair up, leaving live exactly the controller's interval |

## Left out

- The game engine (`docs/js/game.js`): grid, pieces, collision, line clearing, scoring and
  levels. game.js is not part of this model. `Game` keeps only the game-over flag and the
  level that the controller reads. Its five operations leave the game's state unconstrained.
  Each handler's result depends on the game only through what the game reports (`Reading`).
- The view (`docs/js/view.js`): canvas drawing, block geometry and colours. A screen drawn is
  a `Render` effect, and the state passed to the view is not modelled.
- DOM wiring: `addEventListener` (events are an explicit input sequence), the unused `buttons`
  field, `getAttribute('id')` (a click carries the id as a string; an element without an id
  never matches a button) and `target.blur()`.
- Timer scheduling: `setInterval`/`clearInterval` become `SetInterval`/`ClearInterval`
  effects. `intervalId` is kept as the period of the live interval rather than the browser's
  numeric id. The browser's ids are positive, hence truthy, so "no interval" is exactly
  `None`. Real time is not modelled: a firing of the interval is a `Tick` event. `Run`
  accepts any sequence of events; `Delivered` picks out those the browser can produce, with
  ticks only while an interval is live.
- `docs/js/main.js` (object wiring) and `gulpfile.js` (build tooling) have no controller logic.
