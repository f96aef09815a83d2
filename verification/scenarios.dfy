/** Concrete sessions: the stage walk, the truncated percent, and what `Update` does not guard against. */
module Scenarios {
  import opened Wrappers
  import opened GoTime
  import opened Toki
  import opened Sessions

  /**
   * Stages of 2 s and 3 s: the first timeout moves to the second stage with
   * nothing passed and a 3 s countdown at 100 ms; the second quits the
   * program with success.
   */
  lemma TwoStageWalk(now1: int, now2: int)
    ensures var m := Initial([2 * Second, 3 * Second], "", false, "", 0);
      var t1 := Step(m, Timeout(now1));
      var t2 := Step(t1.next, Timeout(now2));
      && t1.cmd == StartTimer
      && t1.next.state == 1 && t1.next.passed == 0 && t1.next.start == now1
      && t1.next.timer == Countdown(3 * Second, 100 * Millisecond)
      && t2.cmd == Quit && t2.next.quitting && t2.next.state == 1
      && View(t2.next) == Blank
      && Finish(t2.next) == Success("finished!\n")
  {
  }

  /**
   * A 10 s stage with 3.17 s already counted: the tick brings it to 3.27 s,
   * and the bar shows 32 percent, not 33.
   */
  lemma TruncatedPercent()
    ensures var m := Initial([10 * Second], "", false, "", 0).(passed := 3_170 * Millisecond);
      var t := Step(m, Tick);
      t.next.passed == 3_270 * Millisecond && t.next.progress.percent == 32
  {
    var m := Initial([10 * Second], "", false, "", 0).(passed := 3_170 * Millisecond);
    assert Milliseconds(3_270 * Millisecond) == 3_270;
    assert Milliseconds(10 * Second) == 10_000;
    assert Quo(327_000, 10_000) == 32;
  }

  /**
   * A 150 ms stage ticks every 100 ms: the second tick is past the end of
   * the stage, and the bar is held at 100 percent rather than the 133 the
   * division gives.
   */
  lemma OverrunTickHoldsBar()
    ensures var m := Initial([150 * Millisecond], "", false, "", 0).(passed := 100 * Millisecond);
      var t := Step(m, Tick);
      t.next.passed == 200 * Millisecond && t.next.progress.percent == 100
  {
    assert Milliseconds(200 * Millisecond) == 200;
    assert Milliseconds(150 * Millisecond) == 150;
    assert Quo(20_000, 150) == 133;
  }

  /**
   * `ctrl+c` handled just after the last stage's timeout still sets the
   * interrupt flag, so a runtime that delivers it makes the command fail with
   * `interrupted`; `Run`, which stops at the timeout's `tea.Quit`, reports
   * success.
   */
  lemma InterruptAfterLastTimeout(m: Model, now: int)
    requires Valid(m) && m.state == |m.durations| - 1 && !m.interrupting
    ensures Runnable(m, [Timeout(now), Key("ctrl+c")])
    ensures Finish(StepAll(m, [Timeout(now), Key("ctrl+c")])) == Failure("interrupted")
    ensures Finish(Run(m, [Timeout(now), Key("ctrl+c")]).final).Success?
  {
    var msgs := [Timeout(now), Key("ctrl+c")];
    assert msgs[1..] == [Key("ctrl+c")] && msgs[1..][1..] == [];
  }

  /**
   * `Update` itself does not look at the flags: a tick that reaches a model
   * that has already quit still counts time. Only the runtime, which stops
   * delivering messages after `tea.Quit`, keeps a finished session still.
   */
  lemma TickAfterQuitStillCounts(m: Model)
    requires Valid(m) && Measurable(m.durations[m.state]) && m.quitting
    ensures Step(m, Tick).next.passed > m.passed
    ensures Step(m, Tick).next.quitting
  {
  }

  /** After a quit key the runtime hands no further message to `Update`. */
  lemma NothingAfterQuitKey(m: Model, rest: seq<Msg>)
    requires Valid(m) && !m.interrupting
    ensures Live(m, [Key("q")] + rest)
    ensures Run(m, [Key("q")] + rest) == Session(m.(quitting := true), Some(Key("q")))
    ensures Finish(Run(m, [Key("q")] + rest).final).Success?
  {
    assert ([Key("q")] + rest)[0] == Key("q");
  }

  /** A stage of zero length, as `toki 0` yields, cannot take a tick: the source divides by zero there. */
  lemma ZeroStageCannotTick()
    ensures !Ready(Initial([0], "", false, "", 0), Tick)
    ensures !Ready(Initial([500_000], "", false, "", 0), Tick)
    ensures Ready(Initial([Millisecond], "", false, "", 0), Tick)
  {
    MeasurableIff(0);
    MeasurableIff(500_000);
    MeasurableIff(Millisecond);
  }
}
