/**
 * The root command end to end: the timer argument becomes the stage
 * durations, the program starts on the first stage, the runtime delivers
 * messages until one quits it, and the command either prints the finished
 * line or returns an error.
 */
module RootCommand {
  import opened Wrappers
  import TimerArgSplit
  import opened TimerArgs
  import opened Toki
  import opened Sessions

  /** The `--name`, `--fullscreen` and `--format` flags. */
  datatype Flags = Flags(name: string, fullscreen: bool, format: string)

  /** The errors the command can return: a stage that does not parse, or the user's interrupt. */
  datatype CommandError = InvalidArgument(cause: ParseError) | Interrupted

  /**
   * The part of the command before the program runs: parse the argument,
   * then build the model for the first stage at the wall-clock time `now`.
   */
  function Launch(arg: string, lib: StdLib, flags: Flags, now: int): (r: Result<Model, ParseError>)
    ensures r.Failure? <==> ParseTimerArg(arg, lib).Failure?
    ensures r.Failure? ==> r.error == ParseTimerArg(arg, lib).error
    ensures r.Success? ==>
              && Valid(r.value)
              && r.value.durations == ParseTimerArg(arg, lib).value
              && |r.value.durations| == |TimerArgSplit.Split(arg)|
              && r.value.state == 0 && r.value.passed == 0
              && !r.value.quitting && !r.value.interrupting
              && r.value.name == flags.name && r.value.altscreen == flags.fullscreen
              && r.value.startTimeFormat == flags.format && r.value.start == now
              && r.value.progress == Progress(0, DefaultBarWidth) && r.value.winHeight == 0
  {
    match ParseTimerArg(arg, lib)
    case Failure(e) => Failure(e)
    case Success(durations) => Success(Initial(durations, flags.name, flags.fullscreen, flags.format, now))
  }

  /**
   * The whole command for a given sequence of messages: a parse error is
   * returned before any program starts; otherwise the run ends with the
   * interrupt error or the finished line.
   */
  function Execute(arg: string, lib: StdLib, flags: Flags, now: int, msgs: seq<Msg>): (r: Result<string, CommandError>)
    requires Launch(arg, lib, flags, now).Success? ==> Live(Launch(arg, lib, flags, now).value, msgs)
    ensures r.Failure? && r.error.InvalidArgument? <==> ParseTimerArg(arg, lib).Failure?
    ensures r.Failure? && r.error.InvalidArgument? ==> r.error.cause == ParseTimerArg(arg, lib).error
    ensures r == Failure(Interrupted) <==>
              Launch(arg, lib, flags, now).Success? &&
              Run(Launch(arg, lib, flags, now).value, msgs).stoppedBy == Some(Key("ctrl+c"))
    ensures r.Success? ==> r.value == (if flags.name == "" then "" else flags.name + " ") + "finished!\n"
  {
    match Launch(arg, lib, flags, now)
    case Failure(e) => Failure(InvalidArgument(e))
    case Success(m) =>
      RunOutcome(m, msgs);
      match Finish(Run(m, msgs).final)
      case Failure(_) => Failure(Interrupted)
      case Success(line) => Success(line)
  }
}
