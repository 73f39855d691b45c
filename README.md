# Odysseus props: a Dafny model of the shared runner and two prop controllers

This project models, in Dafny, the parts of the Odysseus escape-room prop
controllers that hold real logic:

- **Task-box runner** (`odysseus/taskbox.py`), module `TaskBox` in `taskbox.dfy`.
  - `MockTaskBox` is a single-slot backend with one injection path: a state file that stands for an edit made by somebody else.
  - `TaskBoxRunner` keeps three fields in step with the backend: the working state, the last backend state seen, and the change flag.
  - The runner polls, runs the prop's callback and writes back, each on its own cadence (`_inc_time`), after checking its options (`_defaults`, `_validate`).
- **The lights-out grid** (`lp_lights_out.py`), module `LightsOut` in `lights_out.dfy`.
  - `add_values_cross` flips the four neighbours of a pressed button within the limits.
  - `set_limits` marks every cell outside the limits with 2.
- **The reactor console**, in two revisions of the same controller.
  - `reactorconsole/reactorconsole.py` runs inside the odysseus framework of task boxes. It is module `ReactorConsole` in `reactor_console.dfy`.
  - `reactorconsole/reactorlocal.py` talks to its backend over a message socket. It is module `ReactorLocal` in `reactor_local.dfy`.
  - Both share the commit/arm state machine driven by the panel switches, the top-text bookkeeping and the reset of the console values. That shared logic is module `ConsoleLogic` in `console_logic.dfy`.

`wrappers.dfy` holds the `Option` and `Outcome` types. `json.dfy` holds JSON values and Python's dictionary truthiness and `get`.

State that the source changes in place is a Dafny class with those fields: `MockTaskBox`, `TaskBoxRunner`, `Board`, `ReactorState` and `ReactorConsole`. Most methods are proved to follow a pure function of the old state, and the properties are proved about those functions. A few small methods state their new state directly instead: `ReadAndDelete`, `EditStateFile`, `ResetTopLeds`, `ResetTopLedsCommand`, `ZmqReceive` and `TopTextSendValue`.

Some points about the runner that the code settles:
- the runner has no versions, push hints or network errors;
- a poll compares what it reads with the last backend state it saw, not with the working state;
- `initial_state` is never read: the mock starts from `mock_init`;
- the real `TaskBox` only raises.

## Model

| member | source | states |
|---|---|---|
| `TaskBox.Injected` | odysseus/taskbox.py:28-40 | the mock adopts the state file's content exactly when the file exists and its content is truthy |
| `TaskBox.MockRead` | odysseus/taskbox.py:28-34 | a read consumes the state file; it returns the injected content when there is one, else the stored state, and that value is what is stored afterwards |
| `TaskBox.MockWrite` | odysseus/taskbox.py:36-43 | a write consumes the state file; it is refused with a concurrent modification exactly when an edit was injected, and the store then holds the edit; otherwise it stores the candidate |
| `TaskBox.MockWriteThenRead` | odysseus/taskbox.py:28-43 | with no state file, a write lands and the next read returns exactly what was written |
| `TaskBox.AfterCallback` | odysseus/taskbox.py:118-122 | a callback result that is `None` or equal to the working state changes nothing; any other result becomes the working state and sets the change flag; the baseline and backend are untouched |
| `TaskBox.AfterPoll` | odysseus/taskbox.py:98-105 | the read value becomes the baseline; when it equals the old baseline the working state and flag stay; otherwise the read value is adopted, the flag is cleared and the callback runs with `backend_change` set |
| `TaskBox.AfterWrite` | odysseus/taskbox.py:108-115 | a landed write stores the working state, makes it the baseline and clears the flag; a refused write adopts the injected edit as baseline and state (or the callback's result on it); the result is always consistent |
| `TaskBox.ConflictDropsCandidate` | odysseus/taskbox.py:108-115 | after a refused write the working state is the injected edit or the callback's answer to it, and the store holds the edit |
| `TaskBox.PollIdempotent` | odysseus/taskbox.py:98-105 | polling twice in a row gives the same runner state as polling once |
| `TaskBox.IncTime` | odysseus/taskbox.py:144-148 | the new deadline is `t + increment`, unless that lies more than one increment in the past, and then it is exactly the present; with a non-negative increment it is never below `now - increment` |
| `TaskBox.AfterPollAndRun` | odysseus/taskbox.py:83-91 | when the poll deadline is reached the runner state is `AfterPoll` of it and the poll deadline is bumped, otherwise both stay; when the run deadline is reached the callback follows with `backend_change` false and the run deadline is bumped, otherwise the state after the poll step is kept; the write deadline is untouched |
| `TaskBox.AfterIteration` | odysseus/taskbox.py:82-95 | a write happens only when the state changed and the write deadline is reached, and then the write deadline becomes `now + write_interval`; consistency is kept |
| `TaskBox.WriteLeavesInSync` | odysseus/taskbox.py:108-112 | a write that meets no external edit leaves working state, baseline and backend equal, with the flag clear |
| `TaskBox.QuietCallbackNeverWrites` | odysseus/taskbox.py:85-95 | with a callback that never changes its input, an iteration never sets the flag and never moves the write deadline |
| `TaskBox.RunFor` | odysseus/taskbox.py:82-95 | any finite run of the loop keeps the invariant that a set change flag comes with a working state |
| `TaskBox.Defaults` | odysseus/taskbox.py:130-133 | `mock`, `poll_interval` and `write_interval` are added as `False`, `10` and `0` only when missing; every other key and value is kept |
| `TaskBox.Validate` | odysseus/taskbox.py:136-142 | passes exactly when `id`, `callback` and `run_interval` are all present, and otherwise fails with the message of the first missing one |
| `TaskBox.DefaultsIdempotent` | odysseus/taskbox.py:130-142 | defaulting twice is defaulting once, and defaulting never changes the validation verdict |
| `TaskBox.StateFileNamesDistinct` | odysseus/taskbox.py:24 | mocks with different ids watch different state files (`backend-mock-<id>.json`), so an outside edit reaches one mock only |
| `TaskBox.MockTaskBox.constructor` | odysseus/taskbox.py:21-26 | the mock starts with its initial state and whatever the state file holds |
| `TaskBox.MockTaskBox.ReadAndDelete` | odysseus/taskbox.py:45-51 | returns the file's content, if any, and the file is gone afterwards |
| `TaskBox.MockTaskBox.Read` | odysseus/taskbox.py:28-34 | follows `MockRead` |
| `TaskBox.MockTaskBox.Write` | odysseus/taskbox.py:36-43 | follows `MockWrite` |
| `TaskBox.MockTaskBox.EditStateFile` | odysseus/taskbox.py:24-26 | an outside edit puts content in the state file and changes nothing else |
| `TaskBox.TaskBoxRunner.constructor` | odysseus/taskbox.py:56-80 | the runner starts with no state, no baseline, the flag clear and all three deadlines at the present |
| `TaskBox.TaskBoxRunner.CallCallback` | odysseus/taskbox.py:118-122 | follows `AfterCallback` and keeps `Valid` |
| `TaskBox.TaskBoxRunner.PollBackend` | odysseus/taskbox.py:98-105 | follows `AfterPoll` and leaves the deadlines alone |
| `TaskBox.TaskBoxRunner.WriteBackend` | odysseus/taskbox.py:108-115 | follows `AfterWrite`, including the immediate re-poll after a refused write |
| `TaskBox.TaskBoxRunner.RunIteration` | odysseus/taskbox.py:82-95 | one pass of the loop follows `AfterIteration` |
| `LightsOut.Flip` | lp_lights_out.py:16-22 | a flipped cell is 0 or 1, and 0 and 1 swap |
| `LightsOut.Neighbour` | lp_lights_out.py:15-22 | the neighbours visited are `b - 1`, `b + 1`, `b - 16` and `b + 16` in that order |
| `LightsOut.NeighboursDistinct` | lp_lights_out.py:15-22 | the four neighbours are four different buttons, none of them the pressed one |
| `LightsOut.NeighbourAllowedOnGrid` | lp_lights_out.py:15-21 | for the grid button in column `y`, the sideways limit tests (the predicate `NeighbourAllowed`) compare `y - 1` with `limits[0]` and `y + 1` with `limits[1]`; so while those limits lie inside the grid an edge button never flips a cell of the next row, and every test keeps passing when its limit is loosened |
| `LightsOut.CrossStep` | lp_lights_out.py:15-22 | one guarded statement: an IndexError when the limit is missing, a KeyError when the allowed neighbour is missing, otherwise the neighbour flipped exactly when its test passes and nothing else changed |
| `LightsOut.Cross` | lp_lights_out.py:12-24 | no key is added or removed; only the four neighbours can change, each flipped exactly when its limit test passes; it runs to the end exactly when four limits exist and every neighbour it flips exists |
| `LightsOut.CrossInvolution` | lp_lights_out.py:15-22 | pressing the same button twice restores the grid when the flipped cells hold 0 or 1 |
| `LightsOut.LimitTest` | lp_lights_out.py:40 | with four limits the condition is the disjunction of the four bounds; an IndexError is possible only with fewer than four limits, and certain with none |
| `LightsOut.Limited` | lp_lights_out.py:37-44 | grid cells outside the limits become 2 (and are created when missing); every other key keeps its value |
| `LightsOut.Mark` | lp_lights_out.py:38-42 | after any number of loop steps, finished or stopped, no cell has disappeared and every cell that was added or changed holds 2 |
| `LightsOut.MarkIsMarkedBefore` | lp_lights_out.py:38-42 | with four limits, after any number of loop steps exactly the visited out-of-limits cells are 2 |
| `LightsOut.MarkStaysStopped` | lp_lights_out.py:38-40 | once the loops stopped on an IndexError, no later step changes the cells |
| `LightsOut.SetLimitsComplete` | lp_lights_out.py:37-44 | with four limits the loops run to the end and leave `Limited` |
| `LightsOut.SetLimitsCell` | lp_lights_out.py:38-42 | an existing cell `y + 16 * i` is 2 afterwards when it is out of limits, and keeps its value otherwise |
| `LightsOut.SetLimitsIdempotent` | lp_lights_out.py:37-44 | marking the limits a second time changes nothing |
| `LightsOut.Board.AddValuesCross` | lp_lights_out.py:12-24 | the in-place statements follow `Cross`, including where an exception stops them |
| `LightsOut.Board.SetLimits` | lp_lights_out.py:37-44 | the nested loops follow the step-by-step marking, including where an exception stops them; the limits are untouched |
| `Json.LookupAfterSet` | reactorconsole/reactorlocal.py:800-801 | `get` (the function `Lookup`, which reads a JSON null as absent, as `d.get(key, None) is not None` at reactorconsole/reactorconsole.py:496-497 does) after an assignment: the key just set reads back its non-null value, every other key reads as before, and a key holding a string is found with that string |
| `Json.Truthy` | reactorconsole/reactorconsole.py:550 | a dictionary is truthy exactly when it has an entry |
| `Json.TruthyOpt` | reactorconsole/reactorconsole.py:780 | `None` and the empty dictionary are falsy; a truthy value is a dictionary with a key |
| `ConsoleLogic.ReplaceAll` | reactorconsole/reactorconsole.py:629-630 | a string without the pattern is returned unchanged |
| `ConsoleLogic.Contains` | reactorconsole/reactorconsole.py:745 | Python's `in` on strings: a contained text is no longer than the text, and the empty text is always contained |
| `ConsoleLogic.ContainsIff` | reactorconsole/reactorconsole.py:745 | `Contains` holds exactly when the text occurs at some index |
| `ConsoleLogic.EndsWith` | reactorconsole/reactorconsole.py:626 | Python's `endswith`: a text that ends with the suffix is some prefix followed by the suffix |
| `ConsoleLogic.EndsWithAppend` | reactorconsole/reactorconsole.py:626 | any text followed by a suffix ends with that suffix |
| `ConsoleLogic.UpAlias` | reactorconsole/reactorconsole.py:629 | `alias.replace('_gauge', '_up')`: an alias without `_gauge` is kept |
| `ConsoleLogic.DownAlias` | reactorconsole/reactorconsole.py:630 | `alias.replace('_gauge', '_down')`: an alias without `_gauge` is kept |
| `ConsoleLogic.ReplaceTrailing` | reactorconsole/reactorconsole.py:629-630 | when no occurrence overlaps the end, replacing in `s + pat` keeps `s` and turns the trailing pattern into the replacement |
| `ConsoleLogic.GaugeSwitchAliases` | reactorconsole/reactorconsole.py:627-632 | a gauge alias `<stem>_gauge` has the switches `<stem>_up` and `<stem>_down` when `_gauge` occurs only at its end |
| `ConsoleLogic.PadLeft5` | reactorconsole/reactorlocal.py:659 | the sent text has length 5 or the text's length, ends with the text, and everything in front is spaces |
| `ConsoleLogic.PadLeft5Short` | reactorconsole/reactorlocal.py:656-659 | a text of at most five characters is sent as exactly five characters |
| `ConsoleLogic.CommitState.Rank` | reactorconsole/reactorconsole.py:62-69 | the `IntEnum` value of a commit state lies between 0 and 5 |
| `ConsoleLogic.RankOrder` | reactorconsole/reactorconsole.py:62-69 | the values rise strictly in declaration order from `unintialized` = 0 to `commit_sent` = 5, and no two states share a value, so the comparison `< CommitState.armed` means "before `armed`" |
| `ConsoleLogic.OnSwitchEvent` | reactorconsole/reactorconsole.py:739-768 | an `unused` alias changes nothing; a gauge switch stores its inverted state and only that entry changes; the arm key gives `ready` when released and `armed` only from below `armed`; the push button moves only `armed` to `committed`; the commit state changes for no other alias |
| `ConsoleLogic.OnSwitchEvents` | reactorconsole/reactorconsole.py:739-768 | events handled one after the other; a run of events on `unused` aliases only changes nothing |
| `ConsoleLogic.SwitchesNeverSend` | reactorconsole/reactorconsole.py:753-766 | no run of switch events moves the commit state past `committed` |
| `ConsoleLogic.SwitchesKeepDirections` | reactorconsole/reactorconsole.py:748-751 | no run of switch events adds or removes a gauge switch |
| `ConsoleLogic.ArmThenPushCommits` | reactorconsole/reactorconsole.py:753-766 | from below `armed`, turning the key and pushing the button commits |
| `ConsoleLogic.ReleaseDisarms` | reactorconsole/reactorconsole.py:753-756 | releasing the arm key gives `ready` from any state |
| `ConsoleLogic.ArmCommitStep` | reactorconsole/reactorconsole.py:381-403 | `ready` and `commit_sent` restore the remembered text; `armed` remembers the text and shows `-----`; `committed` moves to `send_commit` exactly when the gauges match; in `ready`, `armed` and `commit_sent` exactly one display update with the new text is queued unless a full update is pending, in the other states none |
| `ConsoleLogic.BackendTopTextStep` | reactorconsole/reactorconsole.py:494-503 | a backend top text is always remembered, and shown (with a display update) only when the display does not show `-----` |
| `ConsoleLogic.ArmThenReadyRestores` | reactorconsole/reactorconsole.py:384-390 | arming and then releasing the key shows the text from before arming again |
| `ConsoleLogic.ArmedBackendTextShownOnDisarm` | reactorconsole/reactorconsole.py:494-503 | a backend text that arrives while armed keeps `-----` on the display and is the text shown after disarming |
| `ConsoleLogic.ResetAlias` | reactorconsole/reactorconsole.py:625-636 | one pass of the loop body: a `_gauge` alias gets value 0 and both switches false, a `_led` alias value 0, any other alias changes nothing |
| `ConsoleLogic.ResetAliases` | reactorconsole/reactorconsole.py:625-636 | the loop over the aliases in order: no entry disappears, and a list without gauge or LED aliases changes nothing |
| `ConsoleLogic.ResetAliasesResets` | reactorconsole/reactorconsole.py:625-636 | every `_gauge` alias reads 0 and its `_up`/`_down` switches read false, every `_led` alias reads 0, and every other entry keeps its value |
| `ConsoleLogic.ResetAliasesIdempotent` | reactorconsole/reactorconsole.py:625-636 | resetting twice is resetting once |
| `ConsoleLogic.ResetColorLeds` | reactorconsole/reactorconsole.py:639 | there are exactly 32 colour-LED values, all 0 |
| `ReactorConsole.DefaultBackendState` | reactorconsole/reactorconsole.py:786-793 | the hard-coded state has exactly `expected`, `lights` and `status`, with status `broken`, and it is truthy |
| `ReactorConsole.Adopts` | reactorconsole/reactorconsole.py:780 | the given state is adopted on every backend change, and also when nothing is held and the given state is truthy; without a backend change a truthy held state is never replaced |
| `ReactorConsole.FrameworkBase` | reactorconsole/reactorconsole.py:780-793 | the given state is adopted on a backend change or when none is held; an absent state becomes the default with status `broken` |
| `ReactorConsole.FrameworkStep` | reactorconsole/reactorconsole.py:776-806 | a backend state always exists afterwards; in `send_commit` the state becomes `commit_sent`, gets status `fixed`, blinking is back on and the state is returned; otherwise `None` is returned and commit state and blinking stay; the flag is raised exactly when the state was replaced or changed |
| `ReactorConsole.KeepsHeldState` | reactorconsole/reactorconsole.py:780-783 | without a backend change, a state already held is kept |
| `ReactorConsole.CommitSentOnce` | reactorconsole/reactorconsole.py:796-806 | the update in `send_commit` returns a `fixed` state and the next update returns nothing |
| `ReactorConsole.ReactorState.constructor` | reactorconsole/reactorconsole.py:72-111 | the initial field values of the class and of `__init__` |
| `ReactorConsole.ReactorState.ArdubusCallback` | reactorconsole/reactorconsole.py:739-768 | follows `OnSwitchEvent` |
| `ReactorConsole.ReactorState.ArmCommit` | reactorconsole/reactorconsole.py:381-403 | follows `ArmCommitStep` and appends its display update |
| `ReactorConsole.ReactorState.ArmCommitOnChange` | reactorconsole/reactorconsole.py:573-575 | the arm/commit handler runs exactly when the commit state differs from the one handled last, which is then recorded |
| `ReactorConsole.ReactorState.BackendTopText` | reactorconsole/reactorconsole.py:494-503 | follows `BackendTopTextStep` |
| `ReactorConsole.ReactorState.ResetTopLeds` | reactorconsole/reactorconsole.py:485-491 | every top LED becomes 0; unless a full update is pending, exactly one update command per top LED is appended, and none otherwise; the model leaves the order of those commands open, while the source appends them in the dictionary's insertion order; the earlier commands are kept |
| `ReactorConsole.ReactorState.OnBackendChange` | reactorconsole/reactorconsole.py:550-561 | runs only with the flag raised and a truthy state; clears the flag, stops blinking on a `broken` status, resets the top LEDs, takes over the backend top text; it appends exactly one update per top LED (unless a full update is pending) followed by the top-text commands of `BackendTopTextStep` |
| `ReactorConsole.ReactorState.FrameworkUpdate` | reactorconsole/reactorconsole.py:776-806 | follows `FrameworkStep` |
| `ReactorConsole.ReactorState.ResetConsoleValues` | reactorconsole/reactorconsole.py:620-646 | the loop over the aliases follows `ResetAliases`; the top text becomes empty and the colour LEDs 32 zeros |
| `ReactorLocal.ReceivedState` | reactorconsole/reactorlocal.py:799-803 | the stored state always has a non-null status; a missing or null one becomes `undef`; nothing else changes |
| `ReactorLocal.ReceivedStateIdempotent` | reactorconsole/reactorlocal.py:800-801 | filling in the status twice is filling it in once |
| `ReactorLocal.SendFixedStep` | reactorconsole/reactorlocal.py:779-789 | status becomes `fixed` in any case; without a backend top text it stops with a KeyError and nothing else changes; otherwise both top texts become the backend's, and a top text that `'{:>5}'` cannot format (null, a list or an object) stops it there with a TypeError; otherwise `already_broken` is cleared, blinking is on, the fixed state is published and the commit is sent |
| `ReactorLocal.UnformattableTopTextStalls` | reactorconsole/reactorlocal.py:779-789 | with a null, list or object backend top text the fixed-send fails: nothing is published, the commit stays in `send_commit`, and `already_broken` and blinking are as they were |
| `ReactorLocal.CommitPublishesFixed` | reactorconsole/reactorlocal.py:422-431 | a commit with matching gauges and a formattable backend top text reaches `send_commit`; the fixed-send then publishes a `fixed` state and reaches `commit_sent`, after which the handler shows the backend's top text |
| `ReactorLocal.ReactorConsole.constructor` | reactorconsole/reactorlocal.py:53-112 | the initial field values, with an empty backend state |
| `ReactorLocal.ReactorConsole.ArdubusCallback` | reactorconsole/reactorlocal.py:748-777 | follows `OnSwitchEvent` |
| `ReactorLocal.ReactorConsole.ArmCommit` | reactorconsole/reactorlocal.py:410-433 | follows `ArmCommitStep`; an accepted commit also schedules one fixed-send |
| `ReactorLocal.ReactorConsole.ArmCommitOnChange` | reactorconsole/reactorlocal.py:612-614 | the arm/commit handler runs exactly when the commit state differs from the one handled last, which is then recorded; when it runs on an accepted commit one fixed-send is scheduled |
| `ReactorLocal.ReactorConsole.CommitThroughLoop` | reactorconsole/reactorlocal.py:422-427 | a commit with matching gauges that the loop has not handled yet reaches the fixed-send: the status becomes `fixed`, and the commit is sent exactly when the backend state has a top text that `'{:>5}'` can format (a string, number or boolean), otherwise it stays in `send_commit` |
| `ReactorLocal.ReactorConsole.SendFixed` | reactorconsole/reactorlocal.py:779-789 | a scheduled fixed-send follows `SendFixedStep` |
| `ReactorLocal.ReactorConsole.ZmqReceive` | reactorconsole/reactorlocal.py:791-804 | a message on another topic is skipped; otherwise the state becomes `ReceivedState` of the message and the flag is raised |
| `ReactorLocal.ReactorConsole.BackendTopText` | reactorconsole/reactorlocal.py:532-541 | follows `BackendTopTextStep` |
| `ReactorLocal.ReactorConsole.ResetTopLedsCommand` | reactorconsole/reactorlocal.py:525-529 | one reset of the rod LEDs unless a full update is pending |
| `ReactorLocal.ReactorConsole.OnBackendChange` | reactorconsole/reactorlocal.py:588-599 | runs only with the flag raised and a non-empty state; clears the flag, stops blinking on a `broken` status, resets the LEDs, takes over the backend top text |
| `ReactorLocal.ReactorConsole.ResetConsoleValues` | reactorconsole/reactorlocal.py:627-653 | follows `ResetAliases`; the top text becomes empty and the colour LEDs 32 zeros |
| `ReactorLocal.ReactorConsole.TopTextSendValue` | reactorconsole/reactorlocal.py:656-662 | a string top text is sent padded by `PadLeft5` |

## Left out

**TaskBox**
- The real `TaskBox` (odysseus/taskbox.py:11-17) only raises. The runner is modelled with the mock backend only, and the choice between the two backends is not modelled.
- `_parse_command_line` (argparse) is not modelled.
- The mock's JSON file I/O and its prints are not modelled. The state file is an optional value. The truthiness of its content is a function given to the mock.
- `time()` and `sleep` become a clock parameter, and `_wait_until` becomes a precondition of `RunIteration`.
  - The clock and the intervals are `real`, where the source uses floats. The rounding of the float additions in `_inc_time` is not modelled, although its bounds hold for the computed sums either way.
  - `TaskBox.AfterIteration` reads the clock once per iteration. The source reads it again for each of its tests and in `_inc_time`.
- `run` loops forever. `TaskBox.RunFor` covers any finite prefix of its clock readings.
- `copy.deepcopy` is not modelled. States are values, and the callback is a pure function of the copy it receives.
- The `mock_init` default `{}` is left to the caller of the constructor.
- `TaskBox.AfterWrite` requires a working state. The loop writes only with the change flag set, and `Consistent` ties that flag to a state.

**LightsOut**
- The limits are integers. The `int(...)` conversions of `add_values_cross` are not modelled, and neither is a state without a `limits` entry.
- The cells are keyed by button number rather than by the string of that number.
- `print_grid`, `box_init`, `logic` and the launchpad MIDI I/O are not modelled.

**Reactor console**
- `ConsoleLogic.ReplaceAll`: its own contract says only that text without the pattern is unchanged. What the model relies on, the trailing `_gauge` case, is stated in `ConsoleLogic.GaugeSwitchAliases`.
- Floating-point logic is not modelled: gauge movement, `_local_update_loop_check_gauges` and rounding, LED dimming, colour-LED fades.
  - `gauges_match_expected` is an input field.
  - `full_update_pending` is an input field. Its timer (reactorconsole/reactorconsole.py:546-547) is not modelled.
- The asyncio effects are not modelled: `_blink_armed_text`, `_enter_broken_effect`, `_enter_broken_jump_effect`, `_invalid_commit_punish`, `_handle_commands` and `_do_full_update`.
- The threads and locks are not modelled. Every handler is one atomic step.
  - `ReactorLocal.ReactorConsole.SendFixed` publishes and moves to `commit_sent` in one step. The source awaits the socket between the two.
- Hardware and socket I/O are not modelled.
  - Commands for the hardware are recorded in the sequence the handlers extend.
  - Published states are appended to a list.
  - Decoding an incoming message is not modelled, and neither is a message that is not a JSON object.
- `ReactorLocal.ReactorConsole.TopTextSendValue` formats string top texts only. Python's formatting of other JSON values is not modelled.
- `ConsoleLogic.ArmCommitStep` and `ConsoleLogic.BackendTopTextStep` append `UpdateTopText(t)` whatever the top text is, and carry on. In the source the display update formats the text with `'{:>5}'` as soon as it is queued (reactorconsole/reactorconsole.py:387, 392, 401, 502 and reactorconsole/reactorlocal.py:416, 421, 431, 540). A null, list or object text therefore raises a TypeError there, and the update loop stops. That text can be a list or object from the backend, or the null that a failed fixed-send leaves behind. The model does not capture the exception and the stopped loop.
- Aliasing is not modelled. The runner hands the callback a deep copy of its state (odysseus/taskbox.py:119), but the dictionary the callback returns becomes the runner's `_state` (odysseus/taskbox.py:121) and the mock's stored state (odysseus/taskbox.py:42), while the console keeps that same dictionary as `backend_state`. A later in-place change to it is therefore seen by all three holders in the source; the model passes values and does not capture that sharing.
- `handled_arm_state` is a local variable of the update loop. The model keeps it as a field.
- ReactorConsole.ReactorState.ResetTopLeds: does not promise the order of the LED update commands. The source visits `topled_values` in insertion order (reactorconsole/reactorconsole.py:486), and the model picks any unvisited LED. Each command updates a different LED, so the order does not change the outcome.
- The loop over `ALIAS_MAP` is modelled over the aliases in their iteration order. `_reset_console_values` ends with a full hardware update, which is not modelled.
- `cleanup` and `quit` (shutdown) and the logging are not modelled.
