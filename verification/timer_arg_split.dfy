/**
 * `splitTimerArgString`: the timer argument is cut with Go's
 * `regexp.MustCompile("\\s*[\\s,-]\\s*").Split(s, -1)`.
 *
 * The pattern never matches the empty string, and a match can only begin at
 * a whitespace, comma or hyphen character. RE2 chooses the leftmost match
 * and, within it, leftmost-first (Perl) preference: the first `\s*` takes
 * the whole whitespace run, then one comma or hyphen is taken if it follows,
 * then the whitespace after it; when no comma or hyphen follows, the run
 * gives back its last character to `[\s,-]`. `Split` with a negative count
 * returns the text between consecutive matches plus the text after the last
 * match, so there is always exactly one more piece than there are matches.
 */
module TimerArgSplit {

  /** `\s` in Go's RE2 syntax: tab, newline, form feed, carriage return and space. */
  predicate IsSpace(c: char) {
    c == '\t' || c == '\n' || c == '\U{000C}' || c == '\r' || c == ' '
  }

  /** The two punctuation separators of the character class `[\s,-]`. */
  predicate IsPunct(c: char) {
    c == ',' || c == '-'
  }

  /** Members of the character class `[\s,-]`; a separator starts exactly at one of these. */
  predicate IsSepChar(c: char) {
    IsSpace(c) || IsPunct(c)
  }

  /** A piece of text free of separator characters. */
  predicate NoSepChar(t: string) {
    forall i :: 0 <= i < |t| ==> !IsSepChar(t[i])
  }

  /**
   * Membership in the language of `\s*[\s,-]\s*`: a non-empty run of
   * separator characters of which at most one is a comma or hyphen.
   */
  predicate InPattern(t: string) {
    && |t| >= 1
    && (forall i :: 0 <= i < |t| ==> IsSepChar(t[i]))
    && (forall i, j :: 0 <= i < j < |t| && IsPunct(t[i]) ==> !IsPunct(t[j]))
  }

  /** Length of the whitespace run at the front of `s` (the greedy `\s*`). */
  function SpaceRun(s: string): (n: nat)
    ensures n <= |s|
    ensures forall i :: 0 <= i < n ==> IsSpace(s[i])
    ensures n < |s| ==> !IsSpace(s[n])
  {
    if |s| > 0 && IsSpace(s[0]) then 1 + SpaceRun(s[1..]) else 0
  }

  /** Length of the separator that the pattern matches at the front of `s`. */
  function MatchLen(s: string): (n: nat)
    requires |s| > 0 && IsSepChar(s[0])
    ensures 1 <= n <= |s|
  {
    var k := SpaceRun(s);
    if k < |s| && IsPunct(s[k]) then k + 1 + SpaceRun(s[k + 1..]) else k
  }

  /**
   * The match chosen at a separator character is a word of the pattern's
   * language, and no longer prefix of the text is one: for this pattern the
   * leftmost-first match is the longest match.
   */
  lemma MatchIsLongest(s: string)
    requires |s| > 0 && IsSepChar(s[0])
    ensures InPattern(s[..MatchLen(s)])
    ensures forall j :: MatchLen(s) < j <= |s| ==> !InPattern(s[..j])
  {
    var k := SpaceRun(s);
    var n := MatchLen(s);
    if k < |s| && IsPunct(s[k]) {
      var tail := SpaceRun(s[k + 1..]);
      assert n == k + 1 + tail;
      forall i | 0 <= i < n
        ensures IsSepChar(s[..n][i])
      {
        if i > k {
          assert s[..n][i] == s[k + 1..][i - k - 1];
        }
      }
      forall i, j | 0 <= i < j < n && IsPunct(s[..n][i])
        ensures !IsPunct(s[..n][j])
      {
        assert i == k;
        assert s[..n][j] == s[k + 1..][j - k - 1];
      }
      forall j | n < j <= |s|
        ensures !InPattern(s[..j])
      {
        assert s[k + 1..][tail] == s[n];
        assert IsPunct(s[..j][k]);
        if IsPunct(s[n]) {
          assert IsPunct(s[..j][n]);
        } else {
          assert !IsSepChar(s[..j][n]);
        }
      }
    } else {
      assert k >= 1;
      forall j | n < j <= |s|
        ensures !InPattern(s[..j])
      {
        assert !IsSepChar(s[..j][k]);
      }
    }
  }

  /**
   * `splitTimerArgString`: the pieces of `s` between separator matches,
   * with one piece more than there are matches.
   */
  function Split(s: string): (r: seq<string>)
    ensures |r| >= 1
    ensures forall i :: 0 <= i < |r| ==> NoSepChar(r[i])
    decreases |s|
  {
    if |s| == 0 then [""]
    else if IsSepChar(s[0]) then [""] + Split(s[MatchLen(s)..])
    else
      var rest := Split(s[1..]);
      [[s[0]] + rest[0]] + rest[1..]
  }

  /** The separator texts `Split` cuts out of `s`, in order. */
  function Separators(s: string): (r: seq<string>)
    ensures forall i :: 0 <= i < |r| ==> InPattern(r[i])
    decreases |s|
  {
    if |s| == 0 then []
    else if IsSepChar(s[0]) then
      MatchIsLongest(s);
      [s[..MatchLen(s)]] + Separators(s[MatchLen(s)..])
    else Separators(s[1..])
  }

  /** Re-assembles pieces with the separators that stood between them. */
  function Join(pieces: seq<string>, seps: seq<string>): (r: string)
    requires |pieces| == |seps| + 1
    decreases |seps|
  {
    if |seps| == 0 then pieces[0]
    else pieces[0] + seps[0] + Join(pieces[1..], seps[1..])
  }

  /** Nothing is lost: the pieces and the separators put back together give the argument. */
  lemma {:induction false} SplitJoinsBack(s: string)
    ensures |Split(s)| == |Separators(s)| + 1
    ensures Join(Split(s), Separators(s)) == s
    decreases |s|, 1
  {
    if |s| > 0 && IsSepChar(s[0]) {
      JoinsBackAtSeparator(s);
    } else if |s| > 0 {
      JoinsBackAtChar(s);
    }
  }

  lemma {:induction false} JoinsBackAtSeparator(s: string)
    requires |s| > 0 && IsSepChar(s[0])
    ensures |Split(s)| == |Separators(s)| + 1
    ensures Join(Split(s), Separators(s)) == s
    decreases |s|, 0
  {
    var n := MatchLen(s);
    var pieces, seps := Split(s[n..]), Separators(s[n..]);
    SplitJoinsBack(s[n..]);
    assert Split(s) == [""] + pieces;
    assert Separators(s) == [s[..n]] + seps;
    JoinCons("", s[..n], pieces, seps);
    assert s == "" + s[..n] + s[n..];
  }

  /** `Join` takes one piece and one separator off the front. */
  lemma JoinCons(p: string, t: string, pieces: seq<string>, seps: seq<string>)
    requires |pieces| == |seps| + 1
    ensures Join([p] + pieces, [t] + seps) == p + t + Join(pieces, seps)
  {
    assert ([p] + pieces)[1..] == pieces && ([t] + seps)[1..] == seps;
  }

  lemma {:induction false} JoinsBackAtChar(s: string)
    requires |s| > 0 && !IsSepChar(s[0])
    ensures |Split(s)| == |Separators(s)| + 1
    ensures Join(Split(s), Separators(s)) == s
    decreases |s|, 0
  {
    var rest, seps := Split(s[1..]), Separators(s[1..]);
    SplitJoinsBack(s[1..]);
    assert Separators(s) == seps;
    assert Split(s) == [[s[0]] + rest[0]] + rest[1..];
    JoinPrepend([s[0]], rest[0], rest[1..], seps);
    assert [rest[0]] + rest[1..] == rest;
    assert s == [s[0]] + s[1..];
  }

  /** Text put in front of the first piece ends up in front of the joined string. */
  lemma JoinPrepend(x: string, first: string, rest: seq<string>, seps: seq<string>)
    requires |rest| == |seps|
    ensures Join([x + first] + rest, seps) == x + Join([first] + rest, seps)
  {
    if |seps| > 0 {
      JoinCons(x + first, seps[0], rest, seps[1..]);
      JoinCons(first, seps[0], rest, seps[1..]);
      assert [seps[0]] + seps[1..] == seps;
      assert (x + first) + seps[0] + Join(rest, seps[1..]) == x + (first + seps[0] + Join(rest, seps[1..]));
    }
  }

  /** A piece without separator characters at the front joins the first piece of the rest. */
  lemma {:induction false} SplitWord(a: string, s: string)
    requires NoSepChar(a)
    ensures Split(a + s) == [a + Split(s)[0]] + Split(s)[1..]
    decreases |a|
  {
    if |a| > 0 {
      SplitWord(a[1..], s);
      assert (a + s)[1..] == a[1..] + s;
      assert [a[0]] + (a[1..] + Split(s)[0]) == a + Split(s)[0];
    } else {
      assert a + s == s;
      assert Split(s) == [Split(s)[0]] + Split(s)[1..];
      assert a + Split(s)[0] == Split(s)[0];
    }
  }

  /** Text without separator characters is a single piece. */
  lemma SplitPlain(a: string)
    requires NoSepChar(a)
    ensures Split(a) == [a]
  {
    SplitWord(a, "");
    assert a + "" == a;
  }

  /**
   * A word of the pattern's language followed by text that cannot extend it
   * is cut as exactly one separator.
   */
  lemma SplitAtPattern(t: string, s: string)
    requires InPattern(t)
    requires |s| == 0 || !IsSepChar(s[0])
    ensures Split(t + s) == [""] + Split(s)
  {
    var u := t + s;
    assert IsSepChar(u[0]);
    MatchIsLongest(u);
    var n := MatchLen(u);
    MatchCoversPattern(t, s);
    assert n <= |t| by {
      if |s| > 0 {
        assert forall i :: 0 <= i < n ==> IsSepChar(u[..n][i]);
        assert u[|t|] == s[0];
      }
    }
    assert u[n..] == s;
  }

  /** The chosen match at the front of a word of the language is never shorter than the word. */
  lemma MatchCoversPattern(t: string, s: string)
    requires InPattern(t)
    ensures MatchLen(t + s) >= |t|
  {
    var u := t + s;
    var k := SpaceRun(u);
    if k < |t| {
      // the first non-space character of t is its only comma or hyphen
      assert u[k] == t[k];
      assert IsPunct(t[k]);
    }
  }

  /**
   * Splitting undoes joining: pieces without separator characters, glued by
   * words of the pattern's language, come back exactly, provided no piece
   * strictly inside is empty (two separators meeting would otherwise be read
   * as one longer separator).
   */
  lemma {:induction false} SplitOfJoin(pieces: seq<string>, seps: seq<string>)
    requires |pieces| == |seps| + 1
    requires forall i :: 0 <= i < |pieces| ==> NoSepChar(pieces[i])
    requires forall i :: 0 <= i < |seps| ==> InPattern(seps[i])
    requires forall i :: 0 < i < |pieces| - 1 ==> |pieces[i]| > 0
    ensures Split(Join(pieces, seps)) == pieces
    decreases |seps|
  {
    if |seps| == 0 {
      SplitPlain(pieces[0]);
    } else {
      var tail := Join(pieces[1..], seps[1..]);
      SplitOfJoin(pieces[1..], seps[1..]);
      JoinStart(pieces[1..], seps[1..]);
      PieceThenSeparator(pieces[0], seps[0], tail);
      assert Join(pieces, seps) == pieces[0] + (seps[0] + tail);
      assert pieces == [pieces[0]] + pieces[1..];
    }
  }

  /** A piece, then a separator, then text that does not start with a separator. */
  lemma PieceThenSeparator(a: string, t: string, s: string)
    requires NoSepChar(a) && InPattern(t)
    requires |s| == 0 || !IsSepChar(s[0])
    ensures Split(a + (t + s)) == [a] + Split(s)
  {
    SplitAtPattern(t, s);
    SplitWord(a, t + s);
    assert a + "" == a;
  }

  lemma JoinStart(pieces: seq<string>, seps: seq<string>)
    requires |pieces| == |seps| + 1
    requires NoSepChar(pieces[0])
    requires |seps| > 0 ==> |pieces[0]| > 0
    ensures var j := Join(pieces, seps); |j| == 0 || !IsSepChar(j[0])
  {
    var j := Join(pieces, seps);
    if |pieces[0]| > 0 {
      assert j[0] == pieces[0][0];
    }
  }

  /** A whitespace run holding at most one comma or hyphen is one separator. */
  lemma OneSeparator(a: string, t: string, b: string)
    requires NoSepChar(a) && NoSepChar(b)
    requires InPattern(t)
    ensures Split(a + t + b) == [a, b]
  {
    SplitOfJoin([a, b], [t]);
    assert Join([a, b], [t]) == a + t + Join([b], []);
  }

  /** Two commas or hyphens side by side leave an empty piece between them. */
  lemma AdjacentPunctuation(a: string, c1: char, c2: char, b: string)
    requires NoSepChar(a) && NoSepChar(b)
    requires IsPunct(c1) && IsPunct(c2)
    ensures Split(a + [c1, c2] + b) == [a, "", b]
  {
    var s1 := [c1, c2] + b;
    PunctuationPair(c1, c2, b);
    SplitWord(a, s1);
    assert a + [c1, c2] + b == a + s1;
    assert a + "" == a;
  }

  lemma PunctuationPair(c1: char, c2: char, b: string)
    requires NoSepChar(b)
    requires IsPunct(c1) && IsPunct(c2)
    ensures Split([c1, c2] + b) == ["", "", b]
  {
    var x := [c2] + b;
    var s := [c1] + x;
    assert x[0] == c2;
    SplitPlain(b);
    LoneComma(c2, b);
    LoneComma(c1, x);
    var r := Split(s);
    assert r == [""] + ([""] + [b]);
    assert |r| == 3 && r[0] == "" && r[1] == "" && r[2] == b;
    assert s == [c1, c2] + b;
  }

  /** A comma or hyphen not followed by whitespace is a separator on its own. */
  lemma LoneComma(c: char, rest: string)
    requires IsPunct(c)
    requires |rest| == 0 || !IsSpace(rest[0])
    ensures Split([c] + rest) == [""] + Split(rest)
  {
    var s := [c] + rest;
    assert s[0] == c && s[1..] == rest;
    assert SpaceRun(s) == 0;
    assert SpaceRun(rest) == 0;
    assert MatchLen(s) == 1;
  }

  /** The first piece is empty exactly when the argument is empty or starts with a separator. */
  lemma FirstPieceEmpty(s: string)
    ensures Split(s)[0] == "" <==> |s| == 0 || IsSepChar(s[0])
  {
  }

  /** The last piece is empty exactly when the argument is empty or ends with a separator. */
  lemma {:induction false} LastPieceEmpty(s: string)
    ensures var r := Split(s); r[|r| - 1] == "" <==> |s| == 0 || IsSepChar(s[|s| - 1])
    decreases |s|
  {
    if |s| > 0 && IsSepChar(s[0]) {
      LastPieceEmptyAfterSeparator(s);
    } else if |s| > 0 {
      LastPieceEmptyAfterChar(s);
    }
  }

  lemma {:induction false} LastPieceEmptyAfterSeparator(s: string)
    requires |s| > 0 && IsSepChar(s[0])
    ensures var r := Split(s); r[|r| - 1] == "" <==> IsSepChar(s[|s| - 1])
    decreases |s|, 0
  {
    var t := s[MatchLen(s)..];
    var r, rest := Split(s), Split(t);
    assert r[|r| - 1] == rest[|rest| - 1] by {
      SplitAtSeparator(s);
      LastOfCons("", rest);
    }
    LastPieceEmpty(t);
    RestEndsAlike(s);
  }

  /** A separator at the front leaves an empty first piece; the rest splits on its own. */
  lemma SplitAtSeparator(s: string)
    requires |s| > 0 && IsSepChar(s[0])
    ensures Split(s) == [""] + Split(s[MatchLen(s)..])
  {
  }

  /** Putting an element in front keeps the last element. */
  lemma LastOfCons<T>(x: T, rest: seq<T>)
    requires |rest| > 0
    ensures ([x] + rest)[|rest|] == rest[|rest| - 1]
  {
  }

  /** What follows the first match ends in a separator character exactly when the whole text does. */
  lemma RestEndsAlike(s: string)
    requires |s| > 0 && IsSepChar(s[0])
    ensures var t := s[MatchLen(s)..]; (|t| == 0 || IsSepChar(t[|t| - 1])) <==> IsSepChar(s[|s| - 1])
  {
    var n := MatchLen(s);
    if n == |s| {
      MatchIsLongest(s);
      assert s[..n][n - 1] == s[n - 1];
    } else {
      assert s[n..][|s| - n - 1] == s[|s| - 1];
    }
  }

  lemma {:induction false} LastPieceEmptyAfterChar(s: string)
    requires |s| > 0 && !IsSepChar(s[0])
    ensures var r := Split(s); r[|r| - 1] == "" <==> IsSepChar(s[|s| - 1])
    decreases |s|, 0
  {
    var rest := Split(s[1..]);
    var r := Split(s);
    LastPieceEmpty(s[1..]);
    if |rest| == 1 {
      assert r == [[s[0]] + rest[0]];
      if |s| > 1 {
        FirstPieceEmpty(s[1..]);
        assert s[1..][|s| - 2] == s[|s| - 1];
      }
    } else {
      assert r[|r| - 1] == rest[|rest| - 1];
      assert s[1..][|s| - 2] == s[|s| - 1];
    }
  }

  /* The argument forms of the command line. */

  /** `""` splits to `[""]` and `"25m"` to `["25m"]`: a single stage, and the empty argument, are one piece. */
  lemma ExampleSingle(arg: string)
    requires arg == "" || arg == "25m"
    ensures Split(arg) == [arg]
  {
    SplitPlain(arg);
  }

  /** `"5m, 10m"`, `"5m 10m"`, `"5m-10m"` and `"5m , 10m"` all split to `["5m", "10m"]`. */
  lemma ExampleTwoStages(arg: string, sep: string)
    requires sep == ", " || sep == " " || sep == "-" || sep == " , "
    requires arg == "5m" + sep + "10m"
    ensures Split(arg) == ["5m", "10m"]
  {
    OneSeparator("5m", sep, "10m");
  }

  /** `"5m,,10m"` splits to `["5m", "", "10m"]`: a doubled comma is not collapsed. */
  lemma ExampleDoubledComma(arg: string)
    requires arg == "5m,,10m"
    ensures Split(arg) == ["5m", "", "10m"]
  {
    AdjacentPunctuation("5m", ',', ',', "10m");
    assert "5m" + [',', ','] + "10m" == arg;
  }

  /** `",5m"` splits to `["", "5m"]` and `"5m "` to `["5m", ""]`: an outer separator leaves an empty piece at that end. */
  lemma ExampleOuterSeparator(arg: string)
    requires arg == ",5m" || arg == "5m "
    ensures Split(arg) == if arg == ",5m" then ["", "5m"] else ["5m", ""]
  {
    if arg == ",5m" {
      OneSeparator("", ",", "5m");
      assert "" + "," + "5m" == arg;
    } else {
      OneSeparator("5m", " ", "");
      assert "5m" + " " + "" == arg;
    }
  }

  /** `"5m,10m-15m"` splits to `["5m", "10m", "15m"]`, in order. */
  lemma ExampleThreeStages(arg: string)
    requires arg == "5m,10m-15m"
    ensures Split(arg) == ["5m", "10m", "15m"]
  {
    SplitOfJoin(["5m", "10m", "15m"], [",", "-"]);
    assert Join(["5m", "10m", "15m"], [",", "-"]) == arg;
  }
}
