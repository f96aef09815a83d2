# toki: a Dafny model of the countdown timer's core

toki is a terminal countdown timer. It takes one argument such as `"25m, 5m, 25m"` or `"10 5 2"`, runs the stages one after another, shows each as a clock line and a progress bar, and quits after the last stage or when the user presses a quit or interrupt key.

This project models the two parts of `main.go` that carry logic:

- **The timer-argument pipeline.** `splitTimerArgString` cuts the argument with Go's regular expression `\s*[\s,-]\s*`. `addSuffixIfArgIsNumber` gives bare numbers the unit `s`. The loop in the root command parses each piece with `time.ParseDuration` and stops at the first error. Modules `TimerArgSplit` and `TimerArgs`.
- **The Bubble Tea model.** `model.Update` is a pure step `Step(model, msg) -> (model, cmd)`. The model also covers `timerInterval`, the initial model, the decision `View` takes, and the command's final outcome. Modules `GoTime`, `Toki`, `Sessions` and `RootCommand`.

Module map:

| file | module | models |
|---|---|---|
| `wrappers.dfy` | `Wrappers` | `Option` and `Result` |
| `go_time.dfy` | `GoTime` | nanosecond durations, Go's truncating `/`, `Duration.Milliseconds`, `timerInterval` |
| `timer_arg_split.dfy` | `TimerArgSplit` | `splitTimerArgString` with RE2's leftmost-first matching and `Regexp.Split(s, -1)` |
| `timer_args.dfy` | `TimerArgs` | `addSuffixIfArgIsNumber` and the duration loop of the root command |
| `toki_model.dfy` | `Toki` | the `model` struct, `Update`, the initial model, `View`'s decisions, the exit outcome |
| `sessions.dfy` | `Sessions` | message sequences, and the runtime stopping at `tea.Quit` |
| `root_command.dfy` | `RootCommand` | the root command end to end |
| `sample_lib.dfy` | `SampleLib` | a small stand-in for the two Go parsers, used for concrete cases |
| `scenarios.dfy` | `Scenarios` | concrete sessions |

Abstractions:

- `strconv.ParseFloat` and `time.ParseDuration` are fields of a `StdLib` value that every pipeline function takes as a parameter. `isFloat` says whether `ParseFloat` succeeds. `parseDuration` returns `time.ParseDuration`'s result in nanoseconds, with `None` for its error. The lemmas assume two facts about them, both true of Go, and state each as a precondition where it is used. `RejectsEmpty` says both reject the empty string (`TimerArgs.EmptyPieceFails`, `TimerArgs.EmptyArgumentFails`). `TimerArgs.BareNumberMeansSeconds` requires that a float followed by `s` is not a float (`!isFloat(t + "s")`).
- `time.Now()` is a parameter. The initial model receives it as `now`, and each `Timeout` message carries the reading taken while it is handled.
- The Bubbles `timer.Model` is the value it was configured with: `Countdown(timeout, interval)`. The Bubbles `progress.Model` is the target percent and the width it was last given; `SetPercent` holds the target to 0–100 as Bubbles does. The package-level `winHeight` is a field of the model.
- The Bubble Tea runtime is `Sessions.Run`. It handles messages one at a time, in order, and treats `tea.Quit` as taking effect at once: it handles none after the first `Update` that returns it. Bubble Tea itself queues the quit message behind any messages already waiting, so a message that was already queued could still be handled (see `Scenarios.InterruptAfterLastTimeout`).

Behaviour the model follows from the code, where a user could expect otherwise:

- Separators are not collapsed. `"5m,,10m"` splits into `["5m", "", "10m"]`. A leading or trailing separator also leaves an empty piece. The empty argument is the single piece `""`. So there is no separate empty-specification error. Every empty piece fails in `time.ParseDuration` with the invalid-duration error (`TimerArgs.EmptyPieceFails`, `SampleLib.RejectsDoubledComma`).
- `Update` does not look at the `quitting` or `interrupting` flags. A tick that reaches a model that has already quit still counts time (`Scenarios.TickAfterQuitStillCounts`). A finished session stays still only because the runtime stops delivering messages once `tea.Quit` takes effect (`Sessions.Run`).
- A stage of zero length or of less than one millisecond (`0`, `0s`, `500us`) parses. Its `Milliseconds()` is 0, so the first tick of that stage divides by zero and panics (main.go:46). `Toki.Ready` makes `Milliseconds(durations[state]) != 0` a precondition of handling a `Tick` (`GoTime.MeasurableIff`, `Scenarios.ZeroStageCannotTick`).
- A plain quit and a natural completion end the same way: `"<name> finished!"` and success. Only the interrupt key gives the error `interrupted`.

## Model

| member | source | states |
|---|---|---|
| GoTime.Quo | main.go:46 | Go's `/` on integers truncates toward zero: the magnitude of the quotient is the largest whole multiple of the divisor not above the dividend, and its sign is the sign of the product |
| GoTime.Milliseconds | main.go:46 | `Duration.Milliseconds` brackets a non-negative duration between consecutive whole milliseconds, and a non-positive one likewise from above |
| GoTime.WholePercent | main.go:46 | the progress percent `ms*100/stageMs` is the largest whole percent not above the true ratio, and it is below 100 exactly while fewer milliseconds have passed than the stage has |
| GoTime.MeasurableIff | main.go:46 | the tick's divisor `durations[state].Milliseconds()` is non-zero exactly for stages of at least 1 ms in magnitude |
| GoTime.TimerInterval | main.go:227-233 | the cadence is 100 ms exactly for stages under one minute, and 1 s exactly for stages of one minute or more |
| GoTime.TimerIntervalBoundaries | main.go:227-233 | 45 s and 59.999 s tick at 100 ms; exactly 60 s and 25 min tick at 1 s |
| TimerArgSplit.MatchIsLongest | main.go:245-246 | the separator chosen at a whitespace, comma or hyphen belongs to the language of `\s*[\s,-]\s*`, and no longer prefix of the text does |
| TimerArgSplit.Split | main.go:244-247 | the split always yields at least one piece, and no piece contains tab, newline, form feed, carriage return, space, comma or hyphen |
| TimerArgSplit.Separators | main.go:245-246 | every separator the split cuts out is a word of the pattern's language |
| TimerArgSplit.SplitJoinsBack | main.go:244-247 | there is exactly one more piece than there are separator matches, and pieces and separators put back together give the argument |
| TimerArgSplit.SplitOfJoin | main.go:244-247 | splitting undoes joining: separator-free pieces glued with words of the pattern come back exactly, provided no inner piece is empty |
| TimerArgSplit.SplitWord | main.go:244-247 | a separator-free prefix is glued onto the first piece of what follows |
| TimerArgSplit.SplitPlain | main.go:244-247 | text without separator characters is one piece |
| TimerArgSplit.SplitAtPattern | main.go:244-247 | a word of the pattern followed by a non-separator character is cut as exactly one separator |
| TimerArgSplit.OneSeparator | main.go:244-247 | a whitespace run with at most one comma or hyphen in it is a single separator between two pieces |
| TimerArgSplit.AdjacentPunctuation | main.go:244-247 | two commas or hyphens side by side leave an empty piece between them |
| TimerArgSplit.FirstPieceEmpty | main.go:244-247 | the first piece is empty exactly when the argument is empty or starts with a separator character |
| TimerArgSplit.LastPieceEmpty | main.go:244-247 | the last piece is empty exactly when the argument is empty or ends with a separator character |
| TimerArgSplit.ExampleSingle | main.go:244-247 | `""` splits to `[""]` and `"25m"` to `["25m"]` |
| TimerArgSplit.ExampleTwoStages | main.go:244-247 | `"5m, 10m"`, `"5m 10m"`, `"5m-10m"` and `"5m , 10m"` all split to `["5m", "10m"]` |
| TimerArgSplit.ExampleDoubledComma | main.go:244-247 | `"5m,,10m"` keeps the empty piece between its two commas |
| TimerArgSplit.ExampleOuterSeparator | main.go:244-247 | `",5m"` and `"5m "` keep an empty piece at the end where the separator stands |
| TimerArgSplit.ExampleThreeStages | main.go:244-247 | `"5m,10m-15m"` splits to three pieces in order |
| TimerArgs.AddSuffixIfArgIsNumber | main.go:235-242 | the result starts with the input and continues with the suffix exactly when the input parses as a float, and with nothing otherwise |
| TimerArgs.NormalizeSuffixesNumbers | main.go:158 | a piece gets exactly `"s"` appended when it is a bare number, and is handed over unchanged otherwise |
| TimerArgs.BareNumberMeansSeconds | main.go:158-160 | a bare number is parsed from the same text as the number followed by `s` |
| TimerArgs.ParseAll | main.go:156-165 | the loop succeeds exactly when every piece parses, with one duration per piece in piece order; otherwise it fails with the text of the first piece that does not parse |
| TimerArgs.SequenceDurations | main.go:156-165 | the in-place loop, which returns at the first error, computes exactly that outcome |
| TimerArgs.ParseTimerArg | main.go:154-165 | a successful parse has one stage per piece and at least one stage, so `durations[0]` exists |
| TimerArgs.EmptyPieceFails | main.go:160-163 | any empty piece makes the command fail |
| TimerArgs.EmptyArgumentFails | main.go:154-163 | the empty argument fails with the invalid-duration error of `""` |
| Toki.Initial | main.go:170-179 | the program starts valid: on stage 0, nothing passed, no flag set, started at the clock reading given, with the name, fullscreen flag and time format it was given, an empty bar of the default width, no window height yet, and a countdown for the first stage at its cadence |
| Toki.OnTick | main.go:41-51 | a tick adds exactly the countdown interval to `passed` and sets the bar to the truncated whole percent, held to at most 100 once the stage is overrun; the bar is below 100 exactly while fewer milliseconds have passed than the stage has; the stage, flags and countdown are unchanged |
| Toki.SetPercent | main.go:47 | the bar's target is the given percent when it lies in 0–100, and is held to the nearer end otherwise; the width is kept |
| Toki.OnResize | main.go:53-59 | the bar width becomes the window width less 8, held to 80 columns only when not fullscreen; no timing field or flag changes |
| Toki.OnTimeout | main.go:66-80 | on the last stage the program quits with the stage unchanged; before it, the stage advances by one from zero passed, starting now, with a countdown of the new stage's length at `timerInterval` of it; nothing else changes |
| Toki.OnKey | main.go:87-98 | `esc` and `q` set `quitting` and quit; `ctrl+c` sets `interrupting` and quits; other keys change nothing |
| Toki.Step | main.go:39-99 | one step keeps the stages, moves the index by at most one and only on a timeout, never clears a flag, sets each flag only for its own causes, quits only with a flag set, and keeps validity |
| Toki.QuitCauses | main.go:39-99 | `Update` returns `tea.Quit` exactly for a quit key, the interrupt key, or a timeout on the last stage |
| Toki.AdvanceCauses | main.go:66-80 | the stage index changes exactly on a timeout before the last stage, and `passed` is reset with it |
| Toki.ResizeKeepsTiming | main.go:53-59 | a resize leaves stage, elapsed time, countdown, start and flags alone, and a second resize overrides the first |
| Toki.Layout | main.go:106-112 | the 24-hour layout `15:04` is chosen exactly for `24h` in either case; every other format gives `time.Kitchen` |
| Toki.View | main.go:101-120 | the view is blank exactly when a flag is set; otherwise it shows the model's start time and, as end time, the start plus the current stage, the bar's percent and the fullscreen flag, the name itself as title exactly when it is non-empty, and the layout `Layout` picks for the format |
| Toki.QuitBlanksView | main.go:39-120 | a step that returns `tea.Quit` leaves a model whose view is blank |
| Toki.EndTimeMovesOnlyOnTimeout | main.go:39-120 | while the program runs, a step that does not quit keeps the end time on screen, except a timeout, which shows the new stage from the moment of the timeout to that moment plus the stage's length |
| Toki.Finish | main.go:184-191 | the command fails with `interrupted` exactly when the interrupt flag is set, and otherwise prints `finished!`, preceded by the name and a space only for a non-empty name |
| Sessions.StepAll | main.go:39-99 | over any sequence of messages, validity is kept, the stage index never decreases, and both flags are sticky |
| Sessions.MeasurableStagesRun | main.go:45-46 | when every stage lasts at least a millisecond, every sequence of messages can be handled |
| Sessions.StepAllAppend | main.go:39-99 | handling a sequence in two parts is handling it whole |
| Sessions.InterruptedIffCtrlC | main.go:92-95 | after any sequence, the interrupt flag is set exactly when it was set before or `ctrl+c` was among the messages |
| Sessions.Run | main.go:39-99 | the run stops only on a message whose step quits, which then set a flag; the interrupt flag ends set exactly when `ctrl+c` stopped the run, the quit flag exactly when a quit key or a timeout did; the run ends without a stopping message exactly when no step quits, and then it has handled every message |
| Sessions.QuitIndex | main.go:39-99 | when some step quits, there is a first one: every message before it is handled without a quit, and the step on it returns `tea.Quit` |
| Sessions.RunStopsAtFirstQuit | main.go:39-99 | the run stops on that first quitting message, with the model exactly as that step left it |
| Sessions.RunKeepsName | main.go:39-99 | no message changes the name |
| Sessions.RunOutcome | main.go:184-191 | the command reports `interrupted` exactly when `ctrl+c` stopped the run, and otherwise prints the finished line with the session's name |
| Sessions.TimeoutsAdvance | main.go:66-80 | `k` timeouts before the last stage advance the index by exactly `k` and leave the flags alone |
| Sessions.TimeoutsFinish | main.go:66-80 | one timeout per stage walks a fresh session to the last stage and stops it on that stage's timeout with success |
| Sessions.RunAfterSteps | main.go:39-99 | messages that do not quit can be handled first, and the run continues from where they leave the model |
| RootCommand.Launch | main.go:153-180 | the command starts the program exactly when the argument parses, on a valid first-stage model built from the parsed stages, the name, fullscreen and format flags, and the clock reading at start, with an empty bar of the default width |
| RootCommand.Execute | main.go:153-192 | a parse error is returned exactly when the argument does not parse, and it is the error of the first piece that fails; `interrupted` exactly when the run was stopped by `ctrl+c`; otherwise the finished line |
| SampleLib.DigitsThenUnit | main.go:160 | within the stand-in parser, digits followed by a Go unit parse to their value in that unit |
| SampleLib.ThreeStagesInOrder | main.go:154-165 | `"5m,10m-15m"` gives the stages 5, 10 and 15 minutes in that order |
| SampleLib.BareNumberIsSeconds | main.go:154-165 | `"5"` and `"5s"` both give one stage of 5 s |
| SampleLib.RejectsWord | main.go:160-163 | `"abc"` fails with the invalid-duration error of `"abc"` |
| SampleLib.RejectsDoubledComma | main.go:160-163 | `"5m,,10m"` fails on its empty piece although both stages around it parse |
| SampleLib.RejectsOverflow | main.go:160-163 | `"2562048h"`, beyond the largest Go duration, fails with its own invalid-duration error |
| SampleLib.UnmeasurableStagesParse | main.go:154-165 | `"0"` and `"500us"` parse, to stages with a millisecond count of zero |
| Scenarios.TwoStageWalk | main.go:66-80 | for stages of 2 s and 3 s, the first timeout starts stage 1 from zero with a 3 s countdown at 100 ms; the second quits with success and a blank view |
| Scenarios.TruncatedPercent | main.go:45-47 | a 10 s stage at 3.27 s shows 32 percent |
| Scenarios.OverrunTickHoldsBar | main.go:45-47 | a tick that takes a 150 ms stage from 100 ms to 200 ms, past its end, leaves the bar at 100 percent |
| Scenarios.InterruptAfterLastTimeout | main.go:66-99 | if a `ctrl+c` already queued after the last stage's timeout were handled, the command would report `interrupted`; the modelled runtime stops at the timeout and succeeds |
| Scenarios.TickAfterQuitStillCounts | main.go:41-51 | `Update` counts a tick even after the quit flag is set |
| Scenarios.NothingAfterQuitKey | main.go:87-91 | after `q` the runtime handles nothing more and the command succeeds |
| Scenarios.ZeroStageCannotTick | main.go:46 | a stage of 0 or 500 µs cannot take a tick; a stage of 1 ms can |

## Left out

- Command-line wiring is not modelled: flag registration, `cobra.ExactArgs(1)`, the hidden `man` command, `--version` and `main` (main.go:129-152, 195-225). It is plumbing around the root command.
- `model.Init` (main.go:35-37) is not modelled. It only forwards to the Bubbles timer.
- The internals of the Bubbles and Bubble Tea libraries are not modelled. This covers how the countdown runs down and emits its timeout, `timer.Update` on ticks and `StartStopMsg` (main.go:49, 61-64), `progress.Update`, `FrameMsg` animation and `SetPercent`'s command (main.go:47, 82-85), `tea.Batch`, and the two independently firing tick sources. These are foreign code and concurrency. Their messages are inputs, and their commands are `Delegated`.
- The conversion `float64(pct)/100` (main.go:47) is not modelled. The model keeps the integer percent.
- Rendered text is not modelled: `time.Format` output, lipgloss styles, `timer.View`, `progress.View`, and the fullscreen top margin from `winHeight` (main.go:113-126). `Toki.View` returns the layout and the values it would format.
- The grammars of `strconv.ParseFloat` and `time.ParseDuration` are not modelled. They are standard-library code and are parameters here. `SampleLib` is a deliberately partial stand-in, used only for concrete cases.
- The exact text of Go's parse errors is not modelled. `InvalidDuration` carries the text that failed, which is what Go's message quotes.
- `tea.NewProgram(...).Run()` returning its own error (main.go:181-183) is not modelled. That is a terminal failure outside the core.
- Sixty-four-bit overflow is not modelled: `passed` is an unbounded integer, where Go's `time.Duration` would wrap after about 292 years in one stage. `Milliseconds() * 100` cannot overflow, since a duration has at most about 9.2e15 milliseconds.
- Toki.ToLower: lower-cases ASCII only, where Go's `strings.ToLower` covers Unicode. No non-ASCII character lower-cases to `2`, `4` or `h`, so the choice of layout is the same.
- Toki.OnTick: the bounds on the percent are stated for a non-negative elapsed time and a positive stage. A negative stage comes only from a parser that is not Go's, since the hyphen is a separator. The body computes Go's truncating division for every sign.
- Sessions.Run: keeps the runtime's ordering, but assumes `tea.Quit` takes effect immediately. Bubble Tea delivers the quit message asynchronously, after messages already queued, so a `ctrl+c` pressed just after the last stage's timeout would be handled and end the command with `interrupted` (`Scenarios.InterruptAfterLastTimeout`). Which messages arrive, and when, is the input sequence.
- Sessions.RunOutcome: states the outcome under the same immediate-quit assumption; it does not cover messages handled between `tea.Quit` and its quit message.
- RootCommand.Execute: states the outcome under the same immediate-quit assumption.
