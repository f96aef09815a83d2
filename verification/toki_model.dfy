/**
 * The Bubble Tea model of the timer: its state, the messages it reacts to,
 * its `Update` step, the start-up state built by the root command, the
 * decision `View` takes, and the command's final outcome.
 */
module Toki {
  import opened Wrappers
  import opened GoTime

  /** `padding` and `maxWidth`: margins around the bar and the widest inline bar. */
  const Padding: int := 2
  const MaxWidth: int := 80

  /** Width of a fresh progress bar (`progress.New` uses the library's default of 40 columns). */
  const DefaultBarWidth: int := 40

  /** The key bindings: `quitKeys` and `intKeys`. */
  const QuitKeys: seq<string> := ["esc", "q"]
  const IntKeys: seq<string> := ["ctrl+c"]

  /** Go's `time.Kitchen` layout and the 24-hour layout chosen by `--format 24h`. */
  const Kitchen: string := "3:04PM"
  const Clock24: string := "15:04"

  /**
   * The countdown component, as configured by `timer.New(timeout,
   * timer.WithInterval(interval))`; its own running down is library state
   * that is not part of this model.
   */
  datatype Countdown = Countdown(timeout: int, interval: int)

  /**
   * The progress component: the target whole percent last set and the bar
   * width. `SetPercent` holds its target to the range 0 to 100 percent.
   */
  datatype Progress = Progress(percent: int, width: int)

  /** `progress.SetPercent`: the target becomes `pct`, held to the range 0 to 100. */
  function SetPercent(p: Progress, pct: int): (r: Progress)
    ensures r.width == p.width
    ensures 0 <= r.percent <= 100
    ensures 0 <= pct <= 100 ==> r.percent == pct
    ensures pct < 0 ==> r.percent == 0
    ensures pct > 100 ==> r.percent == 100
  {
    p.(percent := if pct < 0 then 0 else if pct > 100 then 100 else pct)
  }

  /**
   * The `model` struct. `start` is an opaque wall-clock reading, and
   * `winHeight`, a package-level variable in the program, is carried here.
   */
  datatype Model = Model(
    name: string,
    altscreen: bool,
    startTimeFormat: string,
    durations: seq<int>,
    state: nat,
    passed: int,
    start: int,
    timer: Countdown,
    progress: Progress,
    quitting: bool,
    interrupting: bool,
    winHeight: int)

  /**
   * The messages `Update` distinguishes. `Timeout` carries the wall-clock
   * reading `time.Now()` returns while it is handled; `Other` is any message
   * of a type `Update` does not switch on.
   */
  datatype Msg =
    | Tick
    | Resize(width: int, height: int)
    | StartStop
    | Timeout(now: int)
    | Frame
    | Key(key: string)
    | Other

  /**
   * The command `Update` hands back to the runtime: none, `tea.Quit`, the
   * start of a new countdown, or a command produced inside a library
   * component (ticks, animation frames, a batch of these).
   */
  datatype Cmd = Nil | Quit | StartTimer | Delegated

  datatype Transition = Transition(next: Model, cmd: Cmd)

  /** The stage index names a stage, and the countdown is the one built for that stage. */
  predicate Valid(m: Model) {
    && m.state < |m.durations|
    && m.timer == Countdown(m.durations[m.state], TimerInterval(m.durations[m.state]))
    && m.passed >= 0
  }

  /** Every stage is long enough for the progress division of a tick. */
  predicate AllMeasurable(durations: seq<int>) {
    forall i :: 0 <= i < |durations| ==> Measurable(durations[i])
  }

  /** What `Update` needs of the state to handle `msg` without indexing out of range or dividing by zero. */
  predicate Ready(m: Model, msg: Msg) {
    match msg
    case Tick => m.state < |m.durations| && Measurable(m.durations[m.state])
    case Timeout(_) => m.state < |m.durations|
    case _ => true
  }

  /**
   * The model the root command starts the program with: first stage, nothing
   * passed, no flag set, an empty bar, and a countdown for the first stage at
   * its cadence.
   */
  function Initial(durations: seq<int>, name: string, altscreen: bool, format: string, now: int): (m: Model)
    requires |durations| >= 1
    ensures Valid(m)
    ensures m.state == 0 && m.passed == 0 && m.start == now
    ensures !m.quitting && !m.interrupting
    ensures m.durations == durations && m.name == name
    ensures m.startTimeFormat == format && m.altscreen == altscreen
    ensures m.progress == Progress(0, DefaultBarWidth) && m.winHeight == 0
  {
    Model(name, altscreen, format, durations, 0, 0, now,
          Countdown(durations[0], TimerInterval(durations[0])),
          Progress(0, DefaultBarWidth), false, false, 0)
  }

  /**
   * A countdown tick: the elapsed time grows by the countdown's interval and
   * the bar is set to the whole percent of the stage's milliseconds that
   * have passed, with Go's truncating division, held to at most 100 by
   * `SetPercent`. A stage of less than one millisecond makes that division
   * panic; `Ready` excludes it.
   */
  function OnTick(m: Model): (t: Transition)
    requires Ready(m, Tick)
    ensures t.next.passed == m.passed + m.timer.interval
    ensures t.next == m.(passed := t.next.passed, progress := m.progress.(percent := t.next.progress.percent))
    ensures t.cmd == Delegated
    ensures 0 <= t.next.progress.percent <= 100
    ensures
      var done, total := Milliseconds(t.next.passed), Milliseconds(m.durations[m.state]);
      var pct := t.next.progress.percent;
      0 <= done && 0 < total ==>
        && (pct < 100 <==> done < total)
        && (pct < 100 ==> pct * total <= done * 100 < (pct + 1) * total)
  {
    var passed := m.passed + m.timer.interval;
    var done, total := Milliseconds(passed), Milliseconds(m.durations[m.state]);
    var pct := Quo(done * 100, total);
    WholePercent(done, total);
    Transition(m.(passed := passed, progress := SetPercent(m.progress, pct)), Delegated)
  }

  /**
   * A window resize: the bar takes the window width less the margins and is
   * held to `MaxWidth` columns only inline; the height goes to `winHeight`.
   */
  function OnResize(m: Model, width: int, height: int): (t: Transition)
    ensures t.cmd == Nil
    ensures t.next == m.(progress := m.progress.(width := t.next.progress.width), winHeight := height)
    ensures !m.altscreen ==> t.next.progress.width <= MaxWidth
    ensures m.altscreen || width - Padding * 2 - 4 <= MaxWidth ==>
              t.next.progress.width == width - Padding * 2 - 4
    ensures !m.altscreen && width - Padding * 2 - 4 > MaxWidth ==> t.next.progress.width == MaxWidth
  {
    var w := width - Padding * 2 - 4;
    var w' := if !m.altscreen && w > MaxWidth then MaxWidth else w;
    Transition(m.(progress := m.progress.(width := w'), winHeight := height), Nil)
  }

  /**
   * The countdown of the current stage ran out. After the last stage the
   * program quits; otherwise the next stage starts now, from zero, with a
   * fresh countdown at that stage's cadence.
   */
  function OnTimeout(m: Model, now: int): (t: Transition)
    requires Ready(m, Timeout(now))
    ensures m.state == |m.durations| - 1 ==> t == Transition(m.(quitting := true), Quit)
    ensures m.state < |m.durations| - 1 ==>
              && t.cmd == StartTimer
              && t.next.state == m.state + 1
              && t.next.passed == 0
              && t.next.start == now
              && t.next.timer.timeout == m.durations[t.next.state]
              && t.next.timer == Countdown(m.durations[t.next.state], TimerInterval(m.durations[t.next.state]))
              && t.next == m.(state := t.next.state, passed := 0, start := now, timer := t.next.timer)
  {
    if m.state == |m.durations| - 1 then
      Transition(m.(quitting := true), Quit)
    else
      var state := m.state + 1;
      var d := m.durations[state];
      Transition(m.(state := state, start := now, passed := 0,
                    timer := Countdown(d, TimerInterval(d))), StartTimer)
  }

  /** A key press: a quit key sets `quitting`, an interrupt key sets `interrupting`; both quit. */
  function OnKey(m: Model, key: string): (t: Transition)
    ensures key in QuitKeys ==> t == Transition(m.(quitting := true), Quit)
    ensures key in IntKeys ==> t == Transition(m.(interrupting := true), Quit)
    ensures key !in QuitKeys && key !in IntKeys ==> t == Transition(m, Nil)
  {
    if key in QuitKeys then Transition(m.(quitting := true), Quit)
    else if key in IntKeys then Transition(m.(interrupting := true), Quit)
    else Transition(m, Nil)
  }

  /** `model.Update`: one message in, the next model and a command out. */
  function Step(m: Model, msg: Msg): (t: Transition)
    requires Ready(m, msg)
    ensures t.next.durations == m.durations
    ensures t.next.state == m.state || (msg.Timeout? && t.next.state == m.state + 1)
    ensures t.next.quitting <==>
              || m.quitting
              || (msg.Key? && msg.key in QuitKeys)
              || (msg.Timeout? && m.state == |m.durations| - 1)
    ensures t.next.interrupting <==> m.interrupting || (msg.Key? && msg.key in IntKeys)
    ensures t.cmd == Quit ==> t.next.quitting || t.next.interrupting
    ensures Valid(m) ==> Valid(t.next)
  {
    match msg
    case Tick => OnTick(m)
    case Resize(w, h) => OnResize(m, w, h)
    case StartStop => Transition(m, Delegated)
    case Timeout(now) => OnTimeout(m, now)
    case Frame => Transition(m, Delegated)
    case Key(k) => OnKey(m, k)
    case Other => Transition(m, Nil)
  }

  /** The program is told to stop exactly on a quit key, an interrupt key, or the last stage's timeout. */
  lemma QuitCauses(m: Model, msg: Msg)
    requires Ready(m, msg)
    ensures Step(m, msg).cmd == Quit <==>
              || (msg.Key? && (msg.key in QuitKeys || msg.key in IntKeys))
              || (msg.Timeout? && m.state == |m.durations| - 1)
  {
  }

  /** The stage advances on a timeout before the last stage, and on nothing else; the elapsed time restarts with it. */
  lemma AdvanceCauses(m: Model, msg: Msg)
    requires Ready(m, msg)
    ensures Step(m, msg).next.state != m.state <==> msg.Timeout? && m.state < |m.durations| - 1
    ensures Step(m, msg).next.state != m.state ==> Step(m, msg).next.passed == 0
  {
  }

  /** Resizing leaves every timing field as it was, and a second resize overrides the first. */
  lemma ResizeKeepsTiming(m: Model, w1: int, h1: int, w2: int, h2: int)
    ensures var n := OnResize(m, w1, h1).next;
      && n.state == m.state && n.passed == m.passed && n.timer == m.timer && n.start == m.start
      && n.quitting == m.quitting && n.interrupting == m.interrupting && n.progress.percent == m.progress.percent
    ensures OnResize(OnResize(m, w1, h1).next, w2, h2) == OnResize(m, w2, h2)
  {
  }

  /** ASCII lower-casing, the part of `strings.ToLower` that can produce the text `24h`. */
  function ToLower(s: string): (r: string)
    ensures |r| == |s|
    ensures forall i :: 0 <= i < |s| ==> r[i] == (if 'A' <= s[i] <= 'Z' then s[i] - 'A' + 'a' else s[i])
  {
    if |s| == 0 then ""
    else [if 'A' <= s[0] <= 'Z' then s[0] - 'A' + 'a' else s[0]] + ToLower(s[1..])
  }

  /** The clock layout `View` formats the start and end times with. */
  function Layout(format: string): (r: string)
    ensures r == Clock24 <==> format == "24h" || format == "24H"
    ensures r == Clock24 || r == Kitchen
  {
    var lower := ToLower(format);
    if lower == "24h" then
      Clock24
    else
      assert format == "24h" || format == "24H" ==> lower == "24h";
      Kitchen
  }

  /**
   * What `View` shows: nothing once a flag is set; otherwise the start time,
   * the optional name, the end time of the stage (start plus the stage's
   * duration) and the bar, laid out as `Layout` chooses. The rendered text
   * itself is not modelled.
   */
  datatype Screen =
    | Blank
    | Clock(layout: string, startAt: int, title: Option<string>, endAt: int, percent: int, fullscreen: bool)

  function View(m: Model): (s: Screen)
    requires !m.quitting && !m.interrupting ==> m.state < |m.durations|
    ensures s.Blank? <==> m.quitting || m.interrupting
    ensures s.Clock? ==>
              && s.startAt == m.start
              && s.endAt == m.start + m.durations[m.state]
              && s.percent == m.progress.percent
              && s.fullscreen == m.altscreen
              && s.title == (if m.name != "" then Some(m.name) else None)
              && s.layout == Layout(m.startTimeFormat)
  {
    if m.quitting || m.interrupting then Blank
    else
      Clock(Layout(m.startTimeFormat), m.start, if m.name != "" then Some(m.name) else None,
            m.start + m.durations[m.state], m.progress.percent, m.altscreen)
  }

  /**
   * The end of the root command once the program has stopped: the error
   * `interrupted` when the interrupt flag is set, otherwise the line
   * `finished!`, preceded by the name and a space when a name was given.
   */
  function Finish(m: Model): (r: Result<string, string>)
    ensures r.Failure? <==> m.interrupting
    ensures r.Failure? ==> r.error == "interrupted"
    ensures r.Success? && m.name == "" ==> r.value == "finished!\n"
    ensures r.Success? && m.name != "" ==> r.value == m.name + " finished!\n"
  {
    if m.interrupting then Failure("interrupted")
    else Success((if m.name != "" then m.name + " " else "") + "finished!\n")
  }

  /** Whatever makes `Update` quit also blanks the last view the runtime draws. */
  lemma QuitBlanksView(m: Model, msg: Msg)
    requires Ready(m, msg)
    ensures Step(m, msg).cmd == Quit ==> View(Step(m, msg).next).Blank?
  {
  }

  /**
   * While the program runs, the end time on screen moves only on a timeout,
   * and then to the moment of the timeout plus the length of the new stage.
   */
  lemma EndTimeMovesOnlyOnTimeout(m: Model, msg: Msg)
    requires Valid(m) && Ready(m, msg) && !m.quitting && !m.interrupting
    ensures View(m).Clock?
    ensures Step(m, msg).cmd != Quit ==> View(Step(m, msg).next).Clock?
    ensures Step(m, msg).cmd != Quit && !msg.Timeout? ==> View(Step(m, msg).next).endAt == View(m).endAt
    ensures Step(m, msg).cmd != Quit && msg.Timeout? ==>
              && m.state + 1 < |m.durations|
              && View(Step(m, msg).next).startAt == msg.now
              && View(Step(m, msg).next).endAt == msg.now + m.durations[m.state + 1]
  {
  }
}
