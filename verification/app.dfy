/** The logic of app.py around the predictor: reading the workout shorthand
`<reps>*<distance>(m|min) (<rest>)` (the regex match, then `int` on its
digit groups, with CPython's limit on their length), the range checks that
decide whether the predictor is called, the 2.5-second offset added to its
result, and the minutes-and-seconds form of a split. The Streamlit page itself (widgets,
session state, messages) is not modelled; `ProcessWorkout` returns what the
page would show as a value.
 */
module App {
  import opened TrainModel

  datatype Option<+T> = None | Some(value: T) {
    predicate IsFailure() { None? }

    function PropagateFailure<U>(): Option<U>
      requires None?
    {
      None
    }

    function Extract(): T
      requires Some?
    {
      value
    }
  }

  /** The three numbers of a workout shorthand. */
  datatype Workout = Workout(reps: nat, distance: nat, rest: nat)

  /** The two spellings the shorthand allows after the distance. */
  datatype DistanceUnit = Metres | Minutes

  // ---------------------------------------------------------------------
  // Digits
  // ---------------------------------------------------------------------

  predicate IsDigit(c: char)
  {
    '0' <= c <= '9'
  }

  predicate AllDigits(s: string)
  {
    forall i :: 0 <= i < |s| ==> IsDigit(s[i])
  }

  /** A group the regex `\d+` can match: one or more digits. */
  predicate DigitGroup(s: string)
  {
    |s| > 0 && AllDigits(s)
  }

  function DigitValue(c: char): nat
    requires IsDigit(c)
  {
    (c - '0') as nat
  }

  /** The number a digit string denotes, as Python's `int` reads it
      (leading zeros allowed). */
  function Value(ds: string): nat
    requires AllDigits(ds)
  {
    if |ds| == 0 then 0 else Value(ds[..|ds| - 1]) * 10 + DigitValue(ds[|ds| - 1])
  }

  /** The length of the longest run of digits at the start of `s`. */
  function DigitRun(s: string): (n: nat)
    ensures n <= |s|
    ensures AllDigits(s[..n])
    ensures n < |s| ==> !IsDigit(s[n])
  {
    if |s| == 0 || !IsDigit(s[0]) then
      0
    else
      var m := DigitRun(s[1..]);
      assert s[..1 + m] == [s[0]] + s[1..][..m];
      1 + m
  }

  /** The shortest decimal spelling of `n`. */
  function NatToDigits(n: nat): (ds: string)
    ensures DigitGroup(ds)
    ensures Value(ds) == n
  {
    var last := ['0' + (n % 10) as char];
    if n < 10 then
      assert Value(last) == Value([]) * 10 + n;
      last
    else
      var prefix := NatToDigits(n / 10);
      var ds := prefix + last;
      assert ds[..|ds| - 1] == prefix;
      ds
  }

  /** 10 to the power `k`. */
  function Pow10(k: nat): nat
  {
    if k == 0 then 1 else 10 * Pow10(k - 1)
  }

  /** The spelling of `n` has at most `k` digits exactly when n < 10^k. */
  lemma {:induction false} NatToDigitsLength(n: nat, k: nat)
    requires 1 <= k
    ensures |NatToDigits(n)| <= k <==> n < Pow10(k)
    decreases n
  {
    if n < 10 {
      PowAtLeastTen(k);
    } else {
      var prefix := NatToDigits(n / 10);
      assert NatToDigits(n) == prefix + ['0' + (n % 10) as char];
      if k == 1 {
        assert Pow10(1) == 10;
      } else {
        NatToDigitsLength(n / 10, k - 1);
        assert Pow10(k) == 10 * Pow10(k - 1);
      }
    }
  }

  lemma {:induction false} PowAtLeastTen(k: nat)
    requires 1 <= k
    ensures 10 <= Pow10(k)
    decreases k
  {
    if k > 1 {
      PowAtLeastTen(k - 1);
    }
  }

  // ---------------------------------------------------------------------
  // The shorthand reader (extract_workout_details)
  // ---------------------------------------------------------------------

  /** A run of digits read off the front of a string, and the text after it. */
  datatype DigitSplit = DigitSplit(digits: string, rest: string)

  /** Reads `\d+` greedily off the front of `s`. It fails exactly when `s`
      does not start with a digit; otherwise it splits `s` into a maximal
      digit group and the rest. */
  function ReadDigitGroup(s: string): (r: Option<DigitSplit>)
    ensures r.None? <==> |s| == 0 || !IsDigit(s[0])
    ensures r.Some? ==> DigitGroup(r.value.digits)
                        && s == r.value.digits + r.value.rest
                        && (|r.value.rest| == 0 || !IsDigit(r.value.rest[0]))
  {
    var n := DigitRun(s);
    if n == 0 then
      None
    else
      assert s == s[..n] + s[n..];
      Some(DigitSplit(s[..n], s[n..]))
  }

  /** The text after `p` when `s` starts with `p`. */
  function StripPrefix(p: string, s: string): (r: Option<string>)
    ensures r.Some? <==> p <= s
    ensures r.Some? ==> s == p + r.value
  {
    if p <= s then
      assert s == p + s[|p|..];
      Some(s[|p|..])
    else
      None
  }

  /** The text the regex group `(m|min) \(` matches for each unit. */
  function UnitOpen(u: DistanceUnit): string
  {
    match u
    case Metres => "m ("
    case Minutes => "min ("
  }

  /** Reads `(m|min) \(` off the front of `s`, trying `m` first as the
      regex does. */
  function ReadUnit(s: string): (r: Option<(DistanceUnit, string)>)
    ensures r.Some? ==> s == UnitOpen(r.value.0) + r.value.1
    ensures r.None? <==> !(UnitOpen(Metres) <= s) && !(UnitOpen(Minutes) <= s)
  {
    match StripPrefix(UnitOpen(Metres), s)
    case Some(t) => Some((Metres, t))
    case None =>
      match StripPrefix(UnitOpen(Minutes), s)
      case Some(t) => Some((Minutes, t))
      case None => None
  }

  /** A text the pattern matches at its start: three digit groups in the
      shorthand layout, followed by any `tail` (the match is not anchored
      at the end). */
  function Shorthand(d1: string, d2: string, d3: string, u: DistanceUnit, tail: string): string
  {
    d1 + ("*" + (d2 + (UnitOpen(u) + (d3 + (")" + tail)))))
  }

  /** The pattern matches at the start of `s`. */
  ghost predicate MatchesAtStart(s: string)
  {
    exists d1, d2, d3, u, tail ::
      DigitGroup(d1) && DigitGroup(d2) && DigitGroup(d3) && s == Shorthand(d1, d2, d3, u, tail)
  }

  /** The groups of a successful match: groups 1, 2, 3 and 4 of the
      pattern, and the text after the match. */
  datatype ShorthandMatch = ShorthandMatch(reps: string, distance: string, unit: DistanceUnit, rest: string, tail: string)

  /** `re.match(r"(\d+)\*(\d+)(m|min) \((\d+)\)", s)`: the groups of the
      match at the start of `s`, or `None` where there is none. */
  function MatchShorthand(s: string): (r: Option<ShorthandMatch>)
    ensures r.Some? ==>
              && DigitGroup(r.value.reps) && DigitGroup(r.value.distance) && DigitGroup(r.value.rest)
              && s == Shorthand(r.value.reps, r.value.distance, r.value.rest, r.value.unit, r.value.tail)
  {
    var reps :- ReadDigitGroup(s);
    var afterStar :- StripPrefix("*", reps.rest);
    var distance :- ReadDigitGroup(afterStar);
    var unit :- ReadUnit(distance.rest);
    var rest :- ReadDigitGroup(unit.1);
    var tail :- StripPrefix(")", rest.rest);
    assert s == Shorthand(reps.digits, distance.digits, rest.digits, unit.0, tail);
    Some(ShorthandMatch(reps.digits, distance.digits, unit.0, rest.digits, tail))
  }

  /** CPython's default `sys.int_max_str_digits`: `int` raises `ValueError`
      on a decimal string with more digits than this. */
  const IntMaxStrDigits: nat := 4300

  /** What `extract_workout_details` does with a text: no match (it returns
      `(None, None, None)`), a digit group too long for `int` (which raises,
      uncaught), or the three numbers. */
  datatype Extraction = NoMatch | DigitLimitExceeded | Parsed(workout: Workout)

  /** `extract_workout_details`: the match, then `int` on groups 1, 2 and 4. */
  function ExtractWorkoutDetails(s: string): Extraction
  {
    match MatchShorthand(s)
    case None => NoMatch
    case Some(m) =>
      if |m.reps| > IntMaxStrDigits || |m.distance| > IntMaxStrDigits || |m.rest| > IntMaxStrDigits then
        DigitLimitExceeded
      else
        Parsed(Workout(Value(m.reps), Value(m.distance), Value(m.rest)))
  }

  /** The pattern matches at the start of `s` with no digit group longer
      than `int` accepts. */
  ghost predicate MatchesWithinLimit(s: string)
  {
    exists d1, d2, d3, u, tail ::
      && DigitGroup(d1) && DigitGroup(d2) && DigitGroup(d3)
      && |d1| <= IntMaxStrDigits && |d2| <= IntMaxStrDigits && |d3| <= IntMaxStrDigits
      && s == Shorthand(d1, d2, d3, u, tail)
  }

  /** The canonical shorthand of a workout. */
  function Format(w: Workout, u: DistanceUnit): string
  {
    Shorthand(NatToDigits(w.reps), NatToDigits(w.distance), NatToDigits(w.rest), u, "")
  }

  lemma {:induction false} DigitRunOfGroup(d: string, rest: string)
    requires AllDigits(d)
    requires |rest| == 0 || !IsDigit(rest[0])
    ensures DigitRun(d + rest) == |d|
    decreases |d|
  {
    if |d| > 0 {
      assert (d + rest)[1..] == d[1..] + rest;
      DigitRunOfGroup(d[1..], rest);
    }
  }

  /** Reading a digit group followed by a non-digit gives exactly the group
      and the text after it. */
  lemma ReadDigitGroupOf(d: string, rest: string)
    requires DigitGroup(d)
    requires |rest| == 0 || !IsDigit(rest[0])
    ensures ReadDigitGroup(d + rest) == Some(DigitSplit(d, rest))
  {
    DigitRunOfGroup(d, rest);
    assert (d + rest)[..|d|] == d;
    assert (d + rest)[|d|..] == rest;
  }

  lemma StripPrefixOf(p: string, t: string)
    ensures StripPrefix(p, p + t) == Some(t)
  {
    assert p <= p + t;
  }

  lemma ReadUnitOf(u: DistanceUnit, t: string)
    ensures ReadUnit(UnitOpen(u) + t) == Some((u, t))
  {
    StripPrefixOf(UnitOpen(u), t);
    if u == Minutes {
      var s := UnitOpen(u) + t;
      assert s[1] == 'i';
      assert !(UnitOpen(Metres) <= s);
    }
  }

  /** On a text in the shorthand layout the match succeeds, and its groups
      are exactly the pieces the text was built from. */
  lemma MatchOfShorthand(d1: string, d2: string, d3: string, u: DistanceUnit, tail: string)
    requires DigitGroup(d1) && DigitGroup(d2) && DigitGroup(d3)
    ensures MatchShorthand(Shorthand(d1, d2, d3, u, tail)) == Some(ShorthandMatch(d1, d2, u, d3, tail))
  {
    var s5 := ")" + tail;
    var s4 := d3 + s5;
    var s3 := UnitOpen(u) + s4;
    var s2 := d2 + s3;
    var s1 := "*" + s2;
    ReadDigitGroupOf(d1, s1);
    StripPrefixOf("*", s2);
    assert UnitOpen(u)[0] == 'm';
    ReadDigitGroupOf(d2, s3);
    ReadUnitOf(u, s4);
    ReadDigitGroupOf(d3, s5);
    StripPrefixOf(")", tail);
  }

  /** The match succeeds exactly on the texts the pattern matches at their
      start. */
  lemma MatchSucceedsIffPattern(s: string)
    ensures MatchShorthand(s).Some? <==> MatchesAtStart(s)
  {
    if MatchesAtStart(s) {
      var d1, d2, d3, u, tail :| DigitGroup(d1) && DigitGroup(d2) && DigitGroup(d3) && s == Shorthand(d1, d2, d3, u, tail);
      MatchOfShorthand(d1, d2, d3, u, tail);
    }
  }

  /** On a text in the shorthand layout, the reader returns the values of
      the three digit groups, or reports the digit limit when one of them
      is longer than `int` accepts. */
  lemma ExtractShorthand(d1: string, d2: string, d3: string, u: DistanceUnit, tail: string)
    requires DigitGroup(d1) && DigitGroup(d2) && DigitGroup(d3)
    ensures ExtractWorkoutDetails(Shorthand(d1, d2, d3, u, tail)) ==
              if |d1| <= IntMaxStrDigits && |d2| <= IntMaxStrDigits && |d3| <= IntMaxStrDigits
              then Parsed(Workout(Value(d1), Value(d2), Value(d3)))
              else DigitLimitExceeded
  {
    MatchOfShorthand(d1, d2, d3, u, tail);
  }

  /** Whatever the reader accepts has the shorthand layout with digit groups
      `int` accepts, and the result holds the values of those groups. */
  lemma ExtractSound(s: string)
    ensures ExtractWorkoutDetails(s).Parsed? ==>
              exists d1, d2, d3, u, tail ::
                && DigitGroup(d1) && DigitGroup(d2) && DigitGroup(d3)
                && |d1| <= IntMaxStrDigits && |d2| <= IntMaxStrDigits && |d3| <= IntMaxStrDigits
                && s == Shorthand(d1, d2, d3, u, tail)
                && ExtractWorkoutDetails(s).workout == Workout(Value(d1), Value(d2), Value(d3))
  {
    if ExtractWorkoutDetails(s).Parsed? {
      var m := MatchShorthand(s).value;
      assert s == Shorthand(m.reps, m.distance, m.rest, m.unit, m.tail);
    }
  }

  /** The three outcomes of the reader: no match exactly when the pattern
      does not match at the start; the numbers exactly when it matches with
      every group short enough for `int`; the digit limit otherwise. */
  lemma ExtractSucceedsIffMatch(s: string)
    ensures ExtractWorkoutDetails(s).NoMatch? <==> !MatchesAtStart(s)
    ensures ExtractWorkoutDetails(s).Parsed? <==> MatchesWithinLimit(s)
    ensures ExtractWorkoutDetails(s).DigitLimitExceeded? <==> MatchesAtStart(s) && !MatchesWithinLimit(s)
  {
    MatchSucceedsIffPattern(s);
    ExtractSound(s);
    if MatchesWithinLimit(s) {
      var d1, d2, d3, u, tail :|
        && DigitGroup(d1) && DigitGroup(d2) && DigitGroup(d3)
        && |d1| <= IntMaxStrDigits && |d2| <= IntMaxStrDigits && |d3| <= IntMaxStrDigits
        && s == Shorthand(d1, d2, d3, u, tail);
      ExtractShorthand(d1, d2, d3, u, tail);
    }
  }

  /** `m` and `min` after the distance give the same result. */
  lemma UnitIsIgnored(d1: string, d2: string, d3: string, tail: string)
    requires DigitGroup(d1) && DigitGroup(d2) && DigitGroup(d3)
    ensures ExtractWorkoutDetails(Shorthand(d1, d2, d3, Metres, tail))
            == ExtractWorkoutDetails(Shorthand(d1, d2, d3, Minutes, tail))
  {
    ExtractShorthand(d1, d2, d3, Metres, tail);
    ExtractShorthand(d1, d2, d3, Minutes, tail);
  }

  /** Text after the closing parenthesis is accepted and changes nothing. */
  lemma TrailingTextIsIgnored(d1: string, d2: string, d3: string, u: DistanceUnit, tail: string)
    requires DigitGroup(d1) && DigitGroup(d2) && DigitGroup(d3)
    ensures ExtractWorkoutDetails(Shorthand(d1, d2, d3, u, tail))
            == ExtractWorkoutDetails(Shorthand(d1, d2, d3, u, ""))
  {
    ExtractShorthand(d1, d2, d3, u, tail);
    ExtractShorthand(d1, d2, d3, u, "");
  }

  /** Reading the canonical shorthand of a workout gives the workout back
      when each number is below 10^4300, and the digit limit otherwise. */
  lemma ExtractFormat(w: Workout, u: DistanceUnit)
    ensures ExtractWorkoutDetails(Format(w, u)) ==
              if w.reps < Pow10(IntMaxStrDigits) && w.distance < Pow10(IntMaxStrDigits) && w.rest < Pow10(IntMaxStrDigits)
              then Parsed(w)
              else DigitLimitExceeded
  {
    NatToDigitsLength(w.reps, IntMaxStrDigits);
    NatToDigitsLength(w.distance, IntMaxStrDigits);
    NatToDigitsLength(w.rest, IntMaxStrDigits);
    ExtractShorthand(NatToDigits(w.reps), NatToDigits(w.distance), NatToDigits(w.rest), u, "");
  }

  /** The example the page shows its users. */
  lemma ExampleWorkout()
    ensures ExtractWorkoutDetails("8*500m (2)") == Parsed(Workout(8, 500, 2))
  {
    ExampleValues();
    ExampleText();
    ExtractShorthand("8", "500", "2", Metres, "");
  }

  lemma ExampleValues()
    ensures DigitGroup("8") && DigitGroup("500") && DigitGroup("2")
    ensures Value("8") == 8 && Value("500") == 500 && Value("2") == 2
  {
    assert "8"[..0] == "";
    assert "2"[..0] == "";
    assert "500"[..2] == "50";
    assert "50"[..1] == "5";
    assert "5"[..0] == "";
  }

  lemma ExampleText()
    ensures Shorthand("8", "500", "2", Metres, "") == "8*500m (2)"
  {
    var s := Shorthand("8", "500", "2", Metres, "");
    assert |s| == 10;
    assert forall i | 0 <= i < 10 :: s[i] == "8*500m (2)"[i];
  }

  // ---------------------------------------------------------------------
  // Range checks and the displayed prediction (app.py lines 74-89)
  // ---------------------------------------------------------------------

  /** The three range checks app.py runs on a parsed workout. */
  datatype Check = Reps | Distance | Rest

  /** The checks in the order app.py runs them. */
  function Rank(k: Check): nat
  {
    match k
    case Reps => 0
    case Distance => 1
    case Rest => 2
  }

  /** The range each check accepts. */
  predicate Passes(k: Check, w: Workout)
  {
    match k
    case Reps => 1 <= w.reps <= 50
    case Distance => 50 <= w.distance <= 5000
    case Rest => 1 <= w.rest <= 9
  }

  /** Every check the workout fails. */
  function Failing(w: Workout): set<Check>
  {
    set k | k in {Reps, Distance, Rest} && !Passes(k, w)
  }

  /** The check whose error app.py reports: none when every check passes,
      otherwise a failing check that comes before every other failing one. */
  function FirstFailingCheck(w: Workout): (r: Option<Check>)
    ensures r.None? <==> Failing(w) == {}
    ensures r.Some? ==> r.value in Failing(w)
    ensures r.Some? ==> forall k :: k in Failing(w) ==> Rank(r.value) <= Rank(k)
  {
    if !(1 <= w.reps <= 50) then
      assert Reps in Failing(w);
      Some(Reps)
    else if !(50 <= w.distance <= 5000) then
      assert Distance in Failing(w);
      Some(Distance)
    else if !(1 <= w.rest <= 9) then
      assert Rest in Failing(w);
      Some(Rest)
    else
      assert forall k :: Passes(k, w);
      None
  }

  /** What the page shows for a workout text. `ConversionError` is the
      `ValueError` from `int` that app.py does not catch: the page shows the
      exception instead of a message. */
  datatype Outcome =
    | NoInput
    | InvalidFormat
    | ConversionError
    | Rejected(failed: Check)
    | Recommended(split: real)

  /** Seconds added to the predictor's result before it is shown. */
  const DisplayOffset: real := 2.5

  /** The erg splits, three workout numbers and the predictor's call, as the
      page runs them on the text in the workout box. */
  function ProcessWorkout(exp: real -> real, splits: ErgSplits, input: string): (o: Outcome)
    ensures o == NoInput <==> input == ""
    ensures o == InvalidFormat <==> input != "" && !MatchesAtStart(input)
    ensures o == ConversionError <==> input != "" && MatchesAtStart(input) && !MatchesWithinLimit(input)
    ensures o.Rejected? <==>
              input != "" && ExtractWorkoutDetails(input).Parsed?
              && Failing(ExtractWorkoutDetails(input).workout) != {}
    ensures o.Rejected? ==> FirstFailingCheck(ExtractWorkoutDetails(input).workout) == Some(o.failed)
    ensures o.Recommended? <==>
              input != "" && ExtractWorkoutDetails(input).Parsed?
              && Failing(ExtractWorkoutDetails(input).workout) == {}
    ensures o.Recommended? ==>
              var w := ExtractWorkoutDetails(input).workout;
              o.split == PredictTargetSplit(exp, w.distance as real, w.reps as real, w.rest as real, splits) + DisplayOffset
  {
    ExtractSucceedsIffMatch(input);
    if input == "" then
      NoInput
    else
      match ExtractWorkoutDetails(input)
      case NoMatch => InvalidFormat
      case DigitLimitExceeded => ConversionError
      case Parsed(w) =>
        match FirstFailingCheck(w)
        case Some(k) => Rejected(k)
        case None =>
          Recommended(PredictTargetSplit(exp, w.distance as real, w.reps as real, w.rest as real, splits) + DisplayOffset)
  }

  /** The predictor is called exactly when the text reads as a workout with
      1 to 50 reps, 50 to 5000 m and 1 to 9 minutes of rest. */
  lemma PredictorCalledOnlyInRange(exp: real -> real, splits: ErgSplits, input: string)
    ensures ProcessWorkout(exp, splits, input).Recommended? <==>
              && input != ""
              && ExtractWorkoutDetails(input).Parsed?
              && 1 <= ExtractWorkoutDetails(input).workout.reps <= 50
              && 50 <= ExtractWorkoutDetails(input).workout.distance <= 5000
              && 1 <= ExtractWorkoutDetails(input).workout.rest <= 9
  {
    if ExtractWorkoutDetails(input).Parsed? {
      var w := ExtractWorkoutDetails(input).workout;
      assert Failing(w) == {} <==> forall k :: Passes(k, w) by {
        assert Passes(Reps, w) <==> Reps !in Failing(w);
        assert Passes(Distance, w) <==> Distance !in Failing(w);
        assert Passes(Rest, w) <==> Rest !in Failing(w);
      }
      assert (forall k :: Passes(k, w)) <==>
             Passes(Reps, w) && Passes(Distance, w) && Passes(Rest, w);
    }
  }

  /** With positive 2k and 5k splits, the shown split is within 20% of the
      base pace, plus the display offset. */
  lemma DisplayedSplitWithinBounds(exp: real -> real, splits: ErgSplits, input: string)
    requires 0.0 < splits.latest2000m && 0.0 < splits.latest5000m
    ensures ProcessWorkout(exp, splits, input).Recommended? ==>
              var w := ExtractWorkoutDetails(input).workout;
              var base := BasePace(w.distance as real, splits);
              var split := ProcessWorkout(exp, splits, input).split;
              0.8 * base + DisplayOffset <= split <= 1.2 * base + DisplayOffset
  {
    if !ProcessWorkout(exp, splits, input).Recommended? {
      return;
    }
    var w := ExtractWorkoutDetails(input).workout;
    var base := BasePace(w.distance as real, splits);
    assert 0.0 < Min(splits.latest2000m, splits.latest5000m) <= base;
  }

  // ---------------------------------------------------------------------
  // Splits as minutes and seconds
  // ---------------------------------------------------------------------

  /** A split entered as whole minutes and seconds, in seconds. */
  function PaceSeconds(minutes: int, seconds: real): real
  {
    minutes as real * 60.0 + seconds
  }

  /** `int(p // 60)`: the whole minutes of a split. */
  function WholeMinutes(p: real): int
  {
    (p / 60.0).Floor
  }

  /** `p % 60`: the seconds left over after the whole minutes. */
  function SecondsPart(p: real): real
  {
    p - 60.0 * WholeMinutes(p) as real
  }

  /** Splitting a split back into minutes and seconds recovers what was
      entered, for any seconds value in [0, 60). */
  lemma PaceSecondsRoundTrip(minutes: int, seconds: real)
    requires 0.0 <= seconds < 60.0
    ensures WholeMinutes(PaceSeconds(minutes, seconds)) == minutes
    ensures SecondsPart(PaceSeconds(minutes, seconds)) == seconds
  {
    var p := PaceSeconds(minutes, seconds);
    assert p / 60.0 == minutes as real + seconds / 60.0;
    assert 0.0 <= seconds / 60.0 < 1.0;
  }

  /** The three erg splits from the page's six inputs. With at least one
      minute and non-negative seconds each split is at least a minute. */
  function ErgSplitsFromInputs(min2k: int, sec2k: real, min5k: int, sec5k: real, min30: int, sec30: real): (splits: ErgSplits)
    ensures 1 <= min2k && 0.0 <= sec2k ==> 60.0 <= splits.latest2000m
    ensures 1 <= min5k && 0.0 <= sec5k ==> 60.0 <= splits.latest5000m
    ensures 1 <= min30 && 0.0 <= sec30 ==> 60.0 <= splits.latest30at20
  {
    ErgSplits(PaceSeconds(min2k, sec2k), PaceSeconds(min5k, sec5k), PaceSeconds(min30, sec30))
  }

  /** The splits the page builds from its widgets (at least one minute and
      no negative seconds) meet what `DisplayedSplitWithinBounds` needs, so
      every split the page shows lies within 20% of the base pace, plus the
      display offset. */
  lemma DisplayedSplitFromInputs(exp: real -> real, min2k: int, sec2k: real, min5k: int, sec5k: real,
                                 min30: int, sec30: real, input: string)
    requires 1 <= min2k && 0.0 <= sec2k && 1 <= min5k && 0.0 <= sec5k
    ensures var splits := ErgSplitsFromInputs(min2k, sec2k, min5k, sec5k, min30, sec30);
            ProcessWorkout(exp, splits, input).Recommended? ==>
              var w := ExtractWorkoutDetails(input).workout;
              var base := BasePace(w.distance as real, splits);
              var split := ProcessWorkout(exp, splits, input).split;
              0.8 * base + DisplayOffset <= split <= 1.2 * base + DisplayOffset
  {
    DisplayedSplitWithinBounds(exp, ErgSplitsFromInputs(min2k, sec2k, min5k, sec5k, min30, sec30), input);
  }
}
