/**
 * A small, clearly partial stand-in for the two standard-library parsers,
 * used to state concrete cases of the pipeline. `IsDecimal` accepts the
 * digit strings of at most 308 digits: their values stay below the largest
 * float64, so `strconv.ParseFloat` accepts all of them. `ParseDurationSubset`
 * accepts `0` and a digit string followed by one of Go's duration units when
 * the value fits in an int64 count of nanoseconds; `time.ParseDuration`
 * accepts exactly those of this form, with the same value, and rejects the
 * larger ones. Fractions, signs, exponents, multi-part durations such as
 * `1h30m` and longer digit strings are outside this subset.
 */
module SampleLib {
  import opened Wrappers
  import opened GoTime
  import opened TimerArgs
  import TimerArgSplit

  predicate IsDigit(c: char) {
    '0' <= c <= '9'
  }

  /** A non-empty run of at most 308 decimal digits. */
  predicate IsDecimal(s: string) {
    0 < |s| <= 308 && forall i :: 0 <= i < |s| ==> IsDigit(s[i])
  }

  /** The largest int64, the longest `time.Duration` in nanoseconds. */
  const MaxInt64: int := 0x7FFF_FFFF_FFFF_FFFF

  /** The value of a digit string. */
  function DigitsValue(s: string): (v: nat)
    requires forall i :: 0 <= i < |s| ==> IsDigit(s[i])
    decreases |s|
  {
    if |s| == 0 then 0
    else
      assert IsDigit(s[|s| - 1]);
      DigitsValue(s[..|s| - 1]) * 10 + (s[|s| - 1] as int - '0' as int)
  }

  /** Length of the digit run at the front of `s`. */
  function DigitRun(s: string): (n: nat)
    ensures n <= |s|
    ensures forall i :: 0 <= i < n ==> IsDigit(s[i])
  {
    if |s| > 0 && IsDigit(s[0]) then 1 + DigitRun(s[1..]) else 0
  }

  /** Go's duration units in nanoseconds (`us` has two further spellings with the micro sign). */
  function UnitNanos(unit: string): Option<int> {
    if unit == "ns" then Some(1)
    else if unit == "us" || unit == "\U{00B5}s" || unit == "\U{03BC}s" then Some(1_000)
    else if unit == "ms" then Some(Millisecond)
    else if unit == "s" then Some(Second)
    else if unit == "m" then Some(Minute)
    else if unit == "h" then Some(60 * Minute)
    else None
  }

  /** `time.ParseDuration` on the subset: `0`, or digits followed by a unit, within the int64 range. */
  function ParseDurationSubset(s: string): Option<int> {
    if s == "0" then Some(0)
    else
      var k := DigitRun(s);
      if k == 0 then None
      else
        match UnitNanos(s[k..])
        case None => None
        case Some(unit) =>
          var v := DigitsValue(s[..k]) * unit;
          if v <= MaxInt64 then Some(v) else None
  }

  /** The stand-in library. */
  const Sample: StdLib := StdLib(IsDecimal, ParseDurationSubset)

  /** Both stand-in parsers reject the empty text, as Go's do. */
  lemma SampleRejectsEmpty()
    ensures RejectsEmpty(Sample)
  {
  }

  /** A digit string followed by a unit parses to its value in that unit, unless that overflows int64. */
  lemma DigitsThenUnit(t: string, k: nat, unit: int)
    requires 0 < k < |t| && t != "0"
    requires forall i :: 0 <= i < k ==> IsDigit(t[i])
    requires !IsDigit(t[k]) && UnitNanos(t[k..]) == Some(unit)
    ensures var v := DigitsValue(t[..k]) * unit;
      ParseDurationSubset(t) == if v <= MaxInt64 then Some(v) else None
  {
    DigitRunStops(t, k);
  }

  lemma {:induction false} DigitRunStops(t: string, k: nat)
    requires k < |t|
    requires forall i :: 0 <= i < k ==> IsDigit(t[i])
    requires !IsDigit(t[k])
    ensures DigitRun(t) == k
    decreases k
  {
    if k > 0 {
      DigitRunStops(t[1..], k - 1);
    }
  }

  /** A stage written as digits followed by a unit is left as it is and parses to its value. */
  lemma UnitPiece(t: string, digits: string, unitText: string, unit: int)
    requires t == digits + unitText && IsDecimal(digits)
    requires |unitText| > 0 && !IsDigit(unitText[0]) && UnitNanos(unitText) == Some(unit)
    requires DigitsValue(digits) * unit <= MaxInt64
    ensures Normalize(t, Sample) == t
    ensures ParseDurationSubset(t) == Some(DigitsValue(digits) * unit)
    ensures Sample.parseDuration(Normalize(t, Sample)) == Some(DigitsValue(digits) * unit)
  {
    var k := |digits|;
    assert t[k] == unitText[0];
    NormalizeSuffixesNumbers(t, Sample);
    assert t[..k] == digits && t[k..] == unitText;
    DigitsThenUnit(t, k, unit);
  }

  /** A bare digit string gains the unit of seconds. */
  lemma NumberPiece(t: string)
    requires IsDecimal(t)
    ensures Normalize(t, Sample) == t + "s"
  {
    NormalizeSuffixesNumbers(t, Sample);
  }

  /** `"5m,10m-15m"` parses to 5, 10 and 15 minutes, in that order. */
  lemma ThreeStagesInOrder(arg: string)
    requires arg == "5m,10m-15m"
    ensures ParseTimerArg(arg, Sample) == Success([5 * Minute, 10 * Minute, 15 * Minute])
  {
    TimerArgSplit.ExampleThreeStages(arg);
    ThreePieces(["5m", "10m", "15m"]);
  }

  lemma ThreePieces(pieces: seq<string>)
    requires pieces == ["5m", "10m", "15m"]
    ensures ParseAll(pieces, Sample) == Success([5 * Minute, 10 * Minute, 15 * Minute])
  {
    MinutePiece(pieces[0], "5", 5);
    MinutePiece(pieces[1], "10", 10);
    MinutePiece(pieces[2], "15", 15);
    ParseThree(pieces[0], pieces[1], pieces[2], Sample, 5 * Minute, 10 * Minute, 15 * Minute);
    assert pieces == [pieces[0], pieces[1], pieces[2]];
  }

  /** A number of minutes written with the unit `m`. */
  lemma MinutePiece(t: string, digits: string, n: nat)
    requires t == digits + "m" && IsDecimal(digits) && DigitsValue(digits) == n && n * Minute <= MaxInt64
    ensures Sample.parseDuration(Normalize(t, Sample)) == Some(n * Minute)
  {
    UnitPiece(t, digits, "m", Minute);
  }

  /** Three pieces that parse give their three durations in order. */
  lemma ParseThree(a: string, b: string, c: string, lib: StdLib, da: int, db: int, dc: int)
    requires lib.parseDuration(Normalize(a, lib)) == Some(da)
    requires lib.parseDuration(Normalize(b, lib)) == Some(db)
    requires lib.parseDuration(Normalize(c, lib)) == Some(dc)
    ensures ParseAll([a, b, c], lib) == Success([da, db, dc])
  {
    OnePiece(c, lib);
    ParsedPiece(b, [c], lib, db);
    assert [b] + [c] == [b, c] && [db] + [dc] == [db, dc];
    ParsedPiece(a, [b, c], lib, da);
    assert [a] + [b, c] == [a, b, c] && [da] + [db, dc] == [da, db, dc];
  }

  /** A piece that parses puts its duration in front of whatever the rest yields. */
  lemma ParsedPiece(t: string, rest: seq<string>, lib: StdLib, d: int)
    requires lib.parseDuration(Normalize(t, lib)) == Some(d)
    ensures ParseAll([t] + rest, lib) ==
              match ParseAll(rest, lib)
              case Success(v) => Success([d] + v)
              case Failure(e) => Failure(e)
  {
    assert ([t] + rest)[0] == t && ([t] + rest)[1..] == rest;
  }

  /** `"5"` and `"5s"` both parse to one stage of 5 seconds: a bare number is a number of seconds. */
  lemma BareNumberIsSeconds(arg: string)
    requires arg == "5" || arg == "5s"
    ensures ParseTimerArg(arg, Sample) == Success([5 * Second])
  {
    TimerArgSplit.SplitPlain(arg);
    if arg == "5" {
      NumberPiece(arg);
    } else {
      NormalizeSuffixesNumbers(arg, Sample);
    }
    UnitPiece("5s", "5", "s", Second);
    OnePiece(arg, Sample);
  }

  /** A single piece parses to its duration or fails with its text. */
  lemma OnePiece(t: string, lib: StdLib)
    ensures ParseAll([t], lib) ==
              match lib.parseDuration(Normalize(t, lib))
              case Some(d) => Success([d])
              case None => Failure(InvalidDuration(Normalize(t, lib)))
  {
    var r := ParseAll([t], lib);
    if r.Success? {
      assert Some(r.value[0]) == lib.parseDuration(Normalize(t, lib));
      assert r.value == [r.value[0]];
    } else {
      assert FirstBad([t], lib, 0);
    }
  }

  /** `"abc"`, neither a number nor a duration, is rejected with its own text. */
  lemma RejectsWord(arg: string)
    requires arg == "abc"
    ensures ParseTimerArg(arg, Sample) == Failure(InvalidDuration("abc"))
  {
    TimerArgSplit.SplitPlain(arg);
    assert !IsDigit(arg[0]);
    NormalizeSuffixesNumbers(arg, Sample);
    assert DigitRun(arg) == 0;
    OnePiece(arg, Sample);
  }

  /** `"2562048h"`, longer than the int64 range of nanoseconds (about 292 years), is rejected. */
  lemma RejectsOverflow(arg: string)
    requires arg == "2562048h"
    ensures ParseTimerArg(arg, Sample) == Failure(InvalidDuration("2562048h"))
  {
    TimerArgSplit.SplitPlain(arg);
    OverflowPiece(arg, "2562048");
    OnePiece(arg, Sample);
  }

  lemma OverflowPiece(t: string, digits: string)
    requires digits == "2562048" && t == digits + "h"
    ensures Normalize(t, Sample) == t && ParseDurationSubset(t) == None
  {
    var k := |digits|;
    assert t[k] == 'h' && t[..k] == digits && t[k..] == "h";
    NormalizeSuffixesNumbers(t, Sample);
    SevenDigits(digits);
    DigitsThenUnit(t, k, 60 * Minute);
  }

  lemma SevenDigits(d: string)
    requires d == "2562048"
    ensures DigitsValue(d) == 2562048
  {
    var d6, d5, d4, d3, d2, d1 := d[..6], d[..5], d[..4], d[..3], d[..2], d[..1];
    assert d6[..5] == d5 && d5[..4] == d4 && d4[..3] == d3 && d3[..2] == d2 && d2[..1] == d1 && d1[..0] == [];
    assert DigitsValue(d1) == 2;
    assert DigitsValue(d2) == 25;
    assert DigitsValue(d3) == 256;
    assert DigitsValue(d4) == 2562;
    assert DigitsValue(d5) == 25620;
    assert DigitsValue(d6) == 256204;
  }

  /** `"5m,,10m"` is rejected on its empty middle piece, although both stages around it parse. */
  lemma RejectsDoubledComma(arg: string)
    requires arg == "5m,,10m"
    ensures ParseTimerArg(arg, Sample) == Failure(InvalidDuration(""))
  {
    var pieces := ["5m", "", "10m"];
    TimerArgSplit.ExampleDoubledComma(arg);
    UnitPiece(pieces[0], "5", "m", Minute);
    NormalizeSuffixesNumbers("", Sample);
    assert FirstBad(pieces, Sample, 1);
  }

  /**
   * `"0"` and `"500us"` parse: zero and sub-millisecond stages are accepted, but their
   * millisecond count is zero, so the first tick of such a stage would
   * divide by zero.
   */
  lemma UnmeasurableStagesParse(arg: string)
    requires arg == "0" || arg == "500us"
    ensures var r := ParseTimerArg(arg, Sample);
      && r == Success([if arg == "0" then 0 else 500_000])
      && !Measurable(r.value[0])
  {
    if arg == "0" {
      ZeroStage(arg);
    } else {
      MicrosecondStage(arg);
    }
  }

  lemma ZeroStage(arg: string)
    requires arg == "0"
    ensures ParseTimerArg(arg, Sample) == Success([0])
  {
    TimerArgSplit.SplitPlain(arg);
    NumberPiece(arg);
    UnitPiece("0s", "0", "s", Second);
    OnePiece(arg, Sample);
  }

  lemma MicrosecondStage(arg: string)
    requires arg == "500us"
    ensures ParseTimerArg(arg, Sample) == Success([500_000])
  {
    TimerArgSplit.SplitPlain(arg);
    MicrosecondPiece(arg);
    OnePiece(arg, Sample);
  }

  lemma MicrosecondPiece(t: string)
    requires t == "500us"
    ensures Sample.parseDuration(Normalize(t, Sample)) == Some(500_000)
  {
    var digits := "500";
    assert DigitsValue(digits) == 500 by {
      assert digits[..2] == "50" && "50"[..1] == "5";
    }
    UnitPiece(t, digits, "us", 1_000);
  }
}
