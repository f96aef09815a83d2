/**
 * Sequences of messages delivered to the model. `StepAll` hands every
 * message to `Update`, whatever the commands say; `Run` is the Bubble Tea
 * runtime reduced to its ordering: messages are handled one at a time, in
 * order, and none is handled after `Update` has returned `tea.Quit`.
 */
module Sessions {
  import opened Wrappers
  import opened GoTime
  import opened Toki

  /** Every message of `msgs` can be handled in the state the earlier ones lead to. */
  predicate Runnable(m: Model, msgs: seq<Msg>)
    decreases |msgs|
  {
    |msgs| == 0 || (Ready(m, msgs[0]) && Runnable(Step(m, msgs[0]).next, msgs[1..]))
  }

  /** Every message the program gets to handle, up to the one that quits it, can be handled. */
  predicate Live(m: Model, msgs: seq<Msg>)
    decreases |msgs|
  {
    || |msgs| == 0
    || (Ready(m, msgs[0]) && (Step(m, msgs[0]).cmd == Quit || Live(Step(m, msgs[0]).next, msgs[1..])))
  }

  /** Every message of `msgs` can be handled, and none of them makes `Update` return `tea.Quit`. */
  predicate NoQuit(m: Model, msgs: seq<Msg>)
    decreases |msgs|
  {
    || |msgs| == 0
    || (Ready(m, msgs[0]) && Step(m, msgs[0]).cmd != Quit && NoQuit(Step(m, msgs[0]).next, msgs[1..]))
  }

  /** The model after handling all of `msgs` in order. */
  function StepAll(m: Model, msgs: seq<Msg>): (r: Model)
    requires Runnable(m, msgs)
    ensures Valid(m) ==> Valid(r)
    ensures r.durations == m.durations
    ensures m.state <= r.state <= m.state + |msgs|
    ensures m.quitting ==> r.quitting
    ensures m.interrupting ==> r.interrupting
    decreases |msgs|
  {
    if |msgs| == 0 then m else StepAll(Step(m, msgs[0]).next, msgs[1..])
  }

  /** From a valid state whose stages all last a millisecond or more, any message sequence can be handled. */
  lemma {:induction false} MeasurableStagesRun(m: Model, msgs: seq<Msg>)
    requires Valid(m) && AllMeasurable(m.durations)
    ensures Runnable(m, msgs)
    ensures Live(m, msgs)
    decreases |msgs|
  {
    if |msgs| > 0 {
      MeasurableStagesRun(Step(m, msgs[0]).next, msgs[1..]);
    }
  }

  /** Handling a sequence in two parts is handling it whole. */
  lemma {:induction false} StepAllAppend(m: Model, a: seq<Msg>, b: seq<Msg>)
    requires Runnable(m, a + b)
    ensures Runnable(m, a) && Runnable(StepAll(m, a), b)
    ensures StepAll(m, a + b) == StepAll(StepAll(m, a), b)
    decreases |a|
  {
    if |a| == 0 {
      assert a + b == b;
    } else {
      assert (a + b)[0] == a[0];
      assert (a + b)[1..] == a[1..] + b;
      StepAllAppend(Step(m, a[0]).next, a[1..], b);
    }
  }

  /** The interrupt flag ends up set exactly when it was set already or `ctrl+c` was among the messages. */
  lemma {:induction false} InterruptedIffCtrlC(m: Model, msgs: seq<Msg>)
    requires Runnable(m, msgs)
    ensures StepAll(m, msgs).interrupting <==> m.interrupting || Key("ctrl+c") in msgs
    decreases |msgs|
  {
    if |msgs| > 0 {
      InterruptedIffCtrlC(Step(m, msgs[0]).next, msgs[1..]);
      assert msgs == [msgs[0]] + msgs[1..];
    }
  }

  /** The state the runtime leaves behind, and the message whose `tea.Quit` stopped it, if one did. */
  datatype Session = Session(final: Model, stoppedBy: Option<Msg>)

  /**
   * The runtime's loop: messages are handled in order until one makes
   * `Update` return `tea.Quit`; later messages are never handled.
   */
  function Run(m: Model, msgs: seq<Msg>): (s: Session)
    requires Live(m, msgs)
    ensures Valid(m) ==> Valid(s.final)
    ensures s.final.durations == m.durations
    ensures m.state <= s.final.state
    ensures s.stoppedBy.Some? ==> s.stoppedBy.value in msgs
    ensures s.stoppedBy.Some? ==> s.final.quitting || s.final.interrupting
    ensures s.final.interrupting <==> m.interrupting || s.stoppedBy == Some(Key("ctrl+c"))
    ensures s.final.quitting <==>
              || m.quitting
              || s.stoppedBy == Some(Key("esc"))
              || s.stoppedBy == Some(Key("q"))
              || (s.stoppedBy.Some? && s.stoppedBy.value.Timeout?)
    ensures s.stoppedBy.None? <==> NoQuit(m, msgs)
    ensures s.stoppedBy.None? ==> Runnable(m, msgs) && s.final == StepAll(m, msgs)
    decreases |msgs|
  {
    if |msgs| == 0 then Session(m, None)
    else
      var t := Step(m, msgs[0]);
      if t.cmd == Quit then Session(t.next, Some(msgs[0]))
      else
        var s := Run(t.next, msgs[1..]);
        assert s.stoppedBy.Some? ==> s.stoppedBy.value in msgs;
        s
  }

  /**
   * Where the first `tea.Quit` comes from: the index of the first message
   * whose step returns it. Every message before it is handled without
   * quitting.
   */
  function QuitIndex(m: Model, msgs: seq<Msg>): (k: nat)
    requires Live(m, msgs) && !NoQuit(m, msgs)
    ensures k < |msgs|
    ensures Runnable(m, msgs[..k]) && NoQuit(m, msgs[..k])
    ensures Ready(StepAll(m, msgs[..k]), msgs[k])
    ensures Step(StepAll(m, msgs[..k]), msgs[k]).cmd == Quit
    decreases |msgs|
  {
    var t := Step(m, msgs[0]);
    if t.cmd == Quit then
      assert msgs[..0] == [];
      0
    else
      var k := QuitIndex(t.next, msgs[1..]);
      var before := msgs[..k + 1];
      assert before[0] == msgs[0] && before[1..] == msgs[1..][..k];
      assert msgs[k + 1] == msgs[1..][k];
      k + 1
  }

  /**
   * The run stops at the first message whose step returns `tea.Quit`, and
   * its final model is the one that step leaves: nothing after that message
   * is handled.
   */
  lemma RunStopsAtFirstQuit(m: Model, msgs: seq<Msg>)
    requires Live(m, msgs) && !NoQuit(m, msgs)
    ensures var k := QuitIndex(m, msgs);
      Run(m, msgs) == Session(Step(StepAll(m, msgs[..k]), msgs[k]).next, Some(msgs[k]))
  {
    var k := QuitIndex(m, msgs);
    var a, b := msgs[..k], msgs[k..];
    var r := StepAll(m, a);
    assert b[0] == msgs[k];
    assert Live(r, b);
    RunAfterSteps(m, a, b);
    assert a + b == msgs;
  }

  /**
   * When the runtime has stopped, the command reports `interrupted` exactly
   * when `ctrl+c` stopped it, and otherwise prints the finished line with the
   * name the session was started with.
   */
  lemma RunOutcome(m: Model, msgs: seq<Msg>)
    requires Live(m, msgs) && !m.interrupting
    ensures Finish(Run(m, msgs).final) ==
              if Run(m, msgs).stoppedBy == Some(Key("ctrl+c")) then Failure("interrupted")
              else Success((if m.name == "" then "" else m.name + " ") + "finished!\n")
  {
    RunKeepsName(m, msgs);
  }

  /** The name is never changed by a message. */
  lemma {:induction false} RunKeepsName(m: Model, msgs: seq<Msg>)
    requires Live(m, msgs)
    ensures Run(m, msgs).final.name == m.name
    decreases |msgs|
  {
    if |msgs| > 0 && Step(m, msgs[0]).cmd != Quit {
      RunKeepsName(Step(m, msgs[0]).next, msgs[1..]);
    }
  }

  /** `k` timeouts before the last stage walk `k` stages forward, each starting from nothing passed. */
  lemma {:induction false} TimeoutsAdvance(m: Model, k: nat, now: int)
    requires Valid(m) && m.state + k < |m.durations|
    ensures Runnable(m, seq(k, _ => Timeout(now)))
    ensures NoQuit(m, seq(k, _ => Timeout(now)))
    ensures var r := StepAll(m, seq(k, _ => Timeout(now)));
      && r.state == m.state + k
      && (k > 0 ==> r.passed == 0 && r.start == now)
      && r.quitting == m.quitting && r.interrupting == m.interrupting
    decreases k
  {
    if k > 0 {
      var msgs := seq(k, _ => Timeout(now));
      var n := Step(m, Timeout(now)).next;
      assert msgs[1..] == seq(k - 1, _ => Timeout(now));
      TimeoutsAdvance(n, k - 1, now);
    }
  }

  /**
   * Timeouts alone carry a fresh session through every stage: the program
   * quits on the timeout of the last stage, having walked through every
   * stage, and reports success.
   */
  lemma TimeoutsFinish(m: Model, now: int, extra: seq<Msg>)
    requires Valid(m) && m.state == 0 && !m.quitting && !m.interrupting
    ensures var msgs := seq(|m.durations|, _ => Timeout(now)) + extra;
      && Live(m, msgs)
      && Run(m, msgs).stoppedBy == Some(Timeout(now))
      && Run(m, msgs).final.state == |m.durations| - 1
      && Finish(Run(m, msgs).final).Success?
  {
    var n := |m.durations|;
    var before := seq(n - 1, _ => Timeout(now));
    var msgs := seq(n, _ => Timeout(now)) + extra;
    TimeoutsAdvance(m, n - 1, now);
    var r := StepAll(m, before);
    assert msgs == before + ([Timeout(now)] + extra);
    assert Live(r, [Timeout(now)] + extra);
    RunAfterSteps(m, before, [Timeout(now)] + extra);
  }

  /**
   * Messages that do not quit can be handled first: running `a + b` is
   * running `b` from where `a` leaves the model.
   */
  lemma {:induction false} RunAfterSteps(m: Model, a: seq<Msg>, b: seq<Msg>)
    requires NoQuit(m, a) && Runnable(m, a) && Live(StepAll(m, a), b)
    ensures Live(m, a + b)
    ensures Run(m, a + b) == Run(StepAll(m, a), b)
    decreases |a|
  {
    if |a| > 0 {
      assert (a + b)[0] == a[0] && (a + b)[1..] == a[1..] + b;
      RunAfterSteps(Step(m, a[0]).next, a[1..], b);
    } else {
      assert a + b == b;
    }
  }
}
