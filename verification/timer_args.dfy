/**
 * The duration loop of the root command: every piece of the split timer
 * argument is given the unit `s` when it is a bare number, then parsed as a
 * Go duration; the first piece that does not parse aborts the command with
 * that parse error.
 */
module TimerArgs {
  import opened Wrappers
  import TimerArgSplit

  /**
   * The two standard-library parsers the loop calls, taken as given:
   * `isFloat(t)` holds when `strconv.ParseFloat(t, 64)` reports no error, and
   * `parseDuration(t)` is `time.ParseDuration(t)` in nanoseconds, `None`
   * standing for its error.
   */
  datatype StdLib = StdLib(isFloat: string -> bool, parseDuration: string -> Option<int>)

  /**
   * What both Go parsers do with the empty string: `ParseFloat("")` and
   * `ParseDuration("")` both report a syntax error.
   */
  predicate RejectsEmpty(lib: StdLib) {
    !lib.isFloat("") && lib.parseDuration("") == None
  }

  /** The error a failing piece aborts the command with; it names the text handed to `time.ParseDuration`. */
  datatype ParseError = InvalidDuration(text: string)

  /** `addSuffixIfArgIsNumber`: the suffix is appended exactly to the texts `ParseFloat` accepts. */
  function AddSuffixIfArgIsNumber(s: string, suffix: string, isFloat: string -> bool): (r: string)
    ensures |s| <= |r| && r[..|s|] == s
    ensures r[|s|..] == (if isFloat(s) then suffix else "")
  {
    if isFloat(s) then s + suffix else s
  }

  /** The text a piece becomes before it is parsed: a bare number gains the unit of seconds. */
  function Normalize(t: string, lib: StdLib): string {
    AddSuffixIfArgIsNumber(t, "s", lib.isFloat)
  }

  predicate Parses(t: string, lib: StdLib) {
    lib.parseDuration(Normalize(t, lib)).Some?
  }

  /** Piece `k` is the first that does not parse. */
  predicate FirstBad(pieces: seq<string>, lib: StdLib, k: int) {
    && 0 <= k < |pieces|
    && !Parses(pieces[k], lib)
    && forall j :: 0 <= j < k ==> Parses(pieces[j], lib)
  }

  /**
   * The outcome of the loop over `pieces`, defined piece by piece from the
   * front: it succeeds exactly when every piece parses, yielding one duration
   * per piece in piece order, and otherwise fails with the first piece that
   * does not parse.
   */
  function ParseAll(pieces: seq<string>, lib: StdLib): (r: Result<seq<int>, ParseError>)
    ensures r.Success? <==> forall i :: 0 <= i < |pieces| ==> Parses(pieces[i], lib)
    ensures r.Success? ==> |r.value| == |pieces|
    ensures r.Success? ==>
              forall i :: 0 <= i < |pieces| ==> lib.parseDuration(Normalize(pieces[i], lib)) == Some(r.value[i])
    ensures forall k :: FirstBad(pieces, lib, k) ==> r == Failure(InvalidDuration(Normalize(pieces[k], lib)))
    decreases |pieces|
  {
    if |pieces| == 0 then Success([])
    else
      var text := Normalize(pieces[0], lib);
      match lib.parseDuration(text)
      case None => Failure(InvalidDuration(text))
      case Some(d) =>
        var rest := ParseAll(pieces[1..], lib);
        assert forall k :: FirstBad(pieces, lib, k) ==> k >= 1 && FirstBad(pieces[1..], lib, k - 1);
        if rest.Failure? then rest else Success([d] + rest.value)
  }

  /**
   * The loop of the root command as written: it rewrites each piece in place
   * with its suffixed form, parses it, and returns at the first error.
   */
  method SequenceDurations(pieces: seq<string>, lib: StdLib) returns (r: Result<seq<int>, ParseError>)
    ensures r == ParseAll(pieces, lib)
  {
    var items := pieces;
    var durations: seq<int> := [];
    var index := 0;
    while index < |items|
      invariant 0 <= index <= |items| == |pieces|
      invariant |durations| == index
      invariant items[index..] == pieces[index..]
      invariant forall j :: 0 <= j < index ==> items[j] == Normalize(pieces[j], lib)
      invariant forall j :: 0 <= j < index ==> lib.parseDuration(items[j]) == Some(durations[j])
    {
      assert items[index] == pieces[index..][0];
      items := items[index := AddSuffixIfArgIsNumber(items[index], "s", lib.isFloat)];
      var parsed := lib.parseDuration(items[index]);
      if parsed.None? {
        assert FirstBad(pieces, lib, index);
        assert ParseAll(pieces, lib) == Failure(InvalidDuration(items[index]));
        return Failure(InvalidDuration(items[index]));
      }
      durations := durations + [parsed.value];
      index := index + 1;
    }
    var expected := ParseAll(pieces, lib);
    assert expected.Success?;
    assert |expected.value| == |durations|;
    assert forall j :: 0 <= j < |durations| ==> Some(expected.value[j]) == Some(durations[j]);
    assert expected.value == durations;
    r := Success(durations);
  }

  /** The whole pipeline from the command-line argument to the stage durations. */
  function ParseTimerArg(arg: string, lib: StdLib): (r: Result<seq<int>, ParseError>)
    ensures r.Success? ==> |r.value| == |TimerArgSplit.Split(arg)| >= 1
  {
    ParseAll(TimerArgSplit.Split(arg), lib)
  }

  /**
   * Each piece is rewritten exactly by appending `s` when it is a bare
   * number and is otherwise handed over unchanged.
   */
  lemma NormalizeSuffixesNumbers(t: string, lib: StdLib)
    ensures lib.isFloat(t) ==> Normalize(t, lib) == t + "s"
    ensures !lib.isFloat(t) ==> Normalize(t, lib) == t
  {
    var r := Normalize(t, lib);
    assert r == r[..|t|] + r[|t|..];
  }

  /** A bare number denotes the same stage as the number followed by `s`. */
  lemma BareNumberMeansSeconds(t: string, lib: StdLib)
    requires lib.isFloat(t) && !lib.isFloat(t + "s")
    ensures Normalize(t, lib) == Normalize(t + "s", lib)
  {
    NormalizeSuffixesNumbers(t, lib);
    NormalizeSuffixesNumbers(t + "s", lib);
  }

  /**
   * An empty piece, as left by an empty argument or by doubled, leading or
   * trailing separators, makes the command fail, unless an earlier piece has
   * already failed.
   */
  lemma {:induction false} EmptyPieceFails(arg: string, lib: StdLib)
    requires RejectsEmpty(lib)
    requires "" in TimerArgSplit.Split(arg)
    ensures ParseTimerArg(arg, lib).Failure?
  {
    var pieces := TimerArgSplit.Split(arg);
    var i :| 0 <= i < |pieces| && pieces[i] == "";
    NormalizeSuffixesNumbers("", lib);
    assert !Parses(pieces[i], lib);
  }

  /** The empty argument fails with the parse error of the empty text. */
  lemma EmptyArgumentFails(lib: StdLib)
    requires RejectsEmpty(lib)
    ensures ParseTimerArg("", lib) == Failure(InvalidDuration(""))
  {
    TimerArgSplit.ExampleSingle("");
    NormalizeSuffixesNumbers("", lib);
    assert FirstBad([""], lib, 0);
  }
}
