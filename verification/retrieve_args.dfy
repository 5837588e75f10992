/** Command-line values of the data-retrieval tool that are turned into sequences before
    any store is tried: forecast-hour and member ranges, lead-time strings, and the checks
    on the chosen data stores.

    Lead times are whole seconds.
 */
module RetrieveArgs {
  import opened Results
  import opened Text
  import opened PyCollections

  // ---------------------------------------------------------------------------
  // argument ranges

  /** A list of one, or of more than three, integers is used as given; `[a, b]` is
      `a` to `b` inclusive and `[a, b, c]` is `range(a, b + 1, c)`. */
  function ArgListToRange(args: seq<int>): (r: Result<seq<int>>)
    ensures |args| != 2 && |args| != 3 ==> r == Success(args)
    ensures |args| == 2 ==> r.Success?
    ensures |args| == 3 ==> (r.Failure? <==> args[2] == 0)
    ensures r.Failure? ==> r.error.ValueError?
  {
    if |args| == 2 then Success(Range(args[0], args[1] + 1, 1))
    else if |args| == 3 then CheckedRange(args[0], args[1] + 1, args[2])
    else Success(args)
  }

  /** `[a, b]` names exactly the integers from `a` to `b`, in increasing order. */
  lemma {:induction false} ArgPairInclusive(a: int, b: int)
    ensures ArgListToRange([a, b]).Success?
    ensures var r := ArgListToRange([a, b]).value;
            && |r| == (if b < a then 0 else b - a + 1)
            && forall i :: 0 <= i < |r| ==> r[i] == a + i
  {
    assert ArgListToRange([a, b]).value == Range(a, b + 1, 1);
    RangeUnit(a, b + 1);
  }

  /** With a positive increment, `[a, b, c]` holds exactly the values `a + k * c` that do
      not pass `b`, so `b` itself is included whenever a whole number of increments
      reaches it. */
  lemma {:induction false} ArgTripleMembers(a: int, b: int, c: int, x: int)
    requires c > 0
    ensures ArgListToRange([a, b, c]).Success?
    ensures x in ArgListToRange([a, b, c]).value <==>
              x <= b && exists k: nat :: x == Stride(a, c, k)
  {
    assert ArgListToRange([a, b, c]).value == Range(a, b + 1, c);
    RangeMembers(a, b + 1, c, x);
  }

  // ---------------------------------------------------------------------------
  // lead-time strings

  const LeadTimeUsage := "Specify leadtime as hours[:minutes[:seconds]]"

  /** A `:` followed by at least one digit at the start of `t`: the value of the digits
      and how many characters the colon and digits take. */
  function ColonField(t: string): (r: Scan)
    ensures r.Number? ==> 1 < r.end <= |t| && t[0] == ':' && r.value >= 0
  {
    if |t| > 0 && t[0] == ':' && DigitRun(t[1..]) > 0 then
      var n := DigitRun(t[1..]);
      Number(DigitsValue(t[1..1 + n]), 1 + n)
    else NoNumber
  }

  /** The lead time that `hours[:minutes[:seconds]]` at the start of `s` names, in
      seconds; whatever follows the matched prefix is ignored. A string that does not
      start with a digit ends the program with status 1, and a total of 10^9 days or
      more is the `OverflowError` of `timedelta`. */
  function LeadTimeSeconds(s: string): (r: Result<int>)
    ensures (r.Failure? && r.error.Exit?) <==> |s| == 0 || !IsDigit(s[0])
    ensures r.Failure? ==> r.error == Exit(1, LeadTimeUsage) || r.error == OverflowError(TimedeltaRange)
    ensures r.Success? ==> 0 <= r.value < TimedeltaEnd
  {
    var h := DigitRun(s);
    if h == 0 then Failure(Exit(1, LeadTimeUsage))
    else Timedelta(DigitsValue(s[..h]) * 3600 + MinutesAndSeconds(s[h..]))
  }

  /** What `timedelta` makes of a non-negative number of seconds. */
  function LeadTimeOf(sec: nat): Result<int>
  {
    if sec < TimedeltaEnd then Success(sec) else Failure(OverflowError(TimedeltaRange))
  }

  /** The seconds added by the optional `:minutes` and `:seconds` fields at the start
      of `t`. */
  function MinutesAndSeconds(t: string): (sec: nat)
  {
    var minutes := ColonField(t);
    var after := if minutes.Number? then minutes.end else 0;
    var seconds := ColonField(t[after..]);
    (if minutes.Number? then minutes.value else 0) * 60
      + (if seconds.Number? then seconds.value else 0)
  }

  lemma {:induction false} ColonFieldOf(n: nat, rest: string)
    requires |rest| == 0 || !IsDigit(rest[0])
    ensures ColonField(":" + NatText(n) + rest) == Number(n, 1 + |NatText(n)|)
  {
    var t := ":" + NatText(n) + rest;
    assert t[1..] == NatText(n) + rest;
    DigitRunOf(NatText(n), rest);
    assert t[1..1 + |NatText(n)|] == NatText(n);
    NatTextRoundTrip(n);
  }

  /** The hours are the leading digits; the rest comes from what follows them. */
  lemma {:induction false} HoursThen(h: nat, t: string)
    requires |t| == 0 || !IsDigit(t[0])
    ensures LeadTimeSeconds(NatText(h) + t) == LeadTimeOf(h * 3600 + MinutesAndSeconds(t))
  {
    var s := NatText(h) + t;
    DigitRunOf(NatText(h), t);
    assert s[..|NatText(h)|] == NatText(h);
    assert s[|NatText(h)|..] == t;
    NatTextRoundTrip(h);
  }

  lemma {:induction false} MinutesSecondsOf(m: nat, sec: nat, rest: string)
    requires |rest| == 0 || !IsDigit(rest[0])
    ensures MinutesAndSeconds(":" + NatText(m) + (":" + NatText(sec) + rest)) == m * 60 + sec
  {
    var u := ":" + NatText(sec) + rest;
    var t := ":" + NatText(m) + u;
    ColonFieldOf(m, u);
    assert t[1 + |NatText(m)|..] == u;
    ColonFieldOf(sec, rest);
  }

  lemma {:induction false} MinutesOnlyOf(m: nat, rest: string)
    requires |rest| == 0 || (!IsDigit(rest[0]) && rest[0] != ':')
    ensures MinutesAndSeconds(":" + NatText(m) + rest) == m * 60
  {
    var t := ":" + NatText(m) + rest;
    ColonFieldOf(m, rest);
    assert t[1 + |NatText(m)|..] == rest;
  }

  /** `h:m:s` parses back to its number of seconds, whatever non-digit text follows,
      as long as that is under 10^9 days. */
  lemma {:induction false} LeadTimeRoundTrip(h: nat, m: nat, sec: nat, rest: string)
    requires |rest| == 0 || !IsDigit(rest[0])
    ensures LeadTimeSeconds(NatText(h) + (":" + NatText(m) + (":" + NatText(sec) + rest)))
            == LeadTimeOf(h * 3600 + m * 60 + sec)
  {
    var t := ":" + NatText(m) + (":" + NatText(sec) + rest);
    assert t[0] == ':';
    MinutesSecondsOf(m, sec, rest);
    var ms := MinutesAndSeconds(t);
    assert ms == m * 60 + sec;
    HoursThen(h, t);
  }

  /** `h:m` parses back to its number of seconds when no `:` follows, as long as that
      is under 10^9 days. */
  lemma {:induction false} LeadTimeHoursMinutes(h: nat, m: nat, rest: string)
    requires |rest| == 0 || (!IsDigit(rest[0]) && rest[0] != ':')
    ensures LeadTimeSeconds(NatText(h) + (":" + NatText(m) + rest)) == LeadTimeOf(h * 3600 + m * 60)
  {
    var t := ":" + NatText(m) + rest;
    assert t[0] == ':';
    HoursThen(h, t);
    MinutesOnlyOf(m, rest);
  }

  /** The lead time of a forecast hour written with `str`: `t` hours for `t >= 0` below
      24000000000 (10^9 days), the `OverflowError` from there on, and an exit with
      status 1 for a negative hour, whose text starts with `-`. */
  lemma {:induction false} LeadTimeOfHour(t: int)
    ensures LeadTimeSeconds(IntText(t)) ==
              if t < 0 then Failure(Exit(1, LeadTimeUsage))
              else if t < 24_000_000_000 then Success(t * 3600)
              else Failure(OverflowError(TimedeltaRange))
  {
    if t >= 0 {
      assert NatText(t) + "" == NatText(t);
      HoursThen(t, "");
    }
  }

  /** The lead times of a list of forecast hours, in order; the first hour that is
      negative or of 10^9 days or more ends the parse. */
  function LeadTimesOfHours(hours: seq<int>): (r: Result<seq<int>>)
    ensures r.Success? <==> forall i :: 0 <= i < |hours| ==> 0 <= hours[i] < 24_000_000_000
    ensures r.Success? ==> |r.value| == |hours|
    ensures r.Failure? ==> r.error == Exit(1, LeadTimeUsage) || r.error == OverflowError(TimedeltaRange)
  {
    if |hours| == 0 then Success([])
    else
      LeadTimeOfHour(hours[0]);
      var first := LeadTimeSeconds(IntText(hours[0]));
      if first.Failure? then Failure(first.error)
      else
        var rest := LeadTimesOfHours(hours[1..]);
        if rest.Failure? then rest else Success([first.value] + rest.value)
  }

  /** Each lead time is its forecast hour in seconds. */
  lemma {:induction false} LeadTimesAreHours(hours: seq<int>, i: int)
    requires LeadTimesOfHours(hours).Success? && 0 <= i < |hours|
    ensures LeadTimesOfHours(hours).value[i] == hours[i] * 3600
  {
    LeadTimeOfHour(hours[0]);
    if i > 0 {
      LeadTimesAreHours(hours[1..], i - 1);
    }
  }

  // ---------------------------------------------------------------------------
  // argument checks

  /** The command-line values this model needs, as argument parsing leaves them. */
  datatype RawArgs = RawArgs(
    fcstHrs: seq<int>,
    members: seq<int>,
    dataStores: seq<string>,
    inputFilePath: Option<string>)

  datatype Args = Args(
    leadTimes: seq<int>,
    members: seq<int>,
    dataStores: seq<string>,
    inputFilePath: Option<string>)

  const DiskWithoutPath := "You must provide an input_file_path when choosing  disk as a data store!"
  const NoHpss := "You requested the hpss data store, but the HPSS module isn't loaded. This data store is only available on NOAA compute platforms."

  /** The checks made after parsing, in the order they are made: forecast hours become
      lead times, members become a range, `disk` needs an input path, and `hpss` needs
      the archive client (`hsiAvailable`, the outcome of probing for it). */
  function ParseArgs(raw: RawArgs, hsiAvailable: bool): (r: Result<Args>)
    ensures r.Success? <==>
              && ArgListToRange(raw.fcstHrs).Success?
              && LeadTimesOfHours(ArgListToRange(raw.fcstHrs).value).Success?
              && ArgListToRange(raw.members).Success?
              && ("disk" in raw.dataStores ==> raw.inputFilePath.Some?)
              && ("hpss" in raw.dataStores ==> hsiAvailable)
    ensures r.Success? ==>
              && r.value.leadTimes == LeadTimesOfHours(ArgListToRange(raw.fcstHrs).value).value
              && r.value.members == ArgListToRange(raw.members).value
              && r.value.dataStores == raw.dataStores
              && r.value.inputFilePath == raw.inputFilePath
    ensures r.Failure? && r.error.ArgumentTypeError? ==>
              "disk" in raw.dataStores && raw.inputFilePath.None?
    ensures r.Failure? && "disk" in raw.dataStores && raw.inputFilePath.None? ==>
              r.error.ArgumentTypeError? || r.error.ValueError? || r.error.Exit? || r.error.OverflowError?
    ensures r.Failure? && r.error.OverflowError? ==>
              && ArgListToRange(raw.fcstHrs).Success?
              && LeadTimesOfHours(ArgListToRange(raw.fcstHrs).value).Failure?
    ensures ArgListToRange(raw.fcstHrs).Failure? ==> r == Failure(ArgListToRange(raw.fcstHrs).error)
    ensures ArgListToRange(raw.fcstHrs).Success? &&
            LeadTimesOfHours(ArgListToRange(raw.fcstHrs).value).Failure? ==>
              r == Failure(LeadTimesOfHours(ArgListToRange(raw.fcstHrs).value).error)
    ensures ArgListToRange(raw.fcstHrs).Success? &&
            LeadTimesOfHours(ArgListToRange(raw.fcstHrs).value).Success? &&
            ArgListToRange(raw.members).Failure? ==>
              r == Failure(ArgListToRange(raw.members).error)
    ensures ArgListToRange(raw.fcstHrs).Success? &&
            LeadTimesOfHours(ArgListToRange(raw.fcstHrs).value).Success? &&
            ArgListToRange(raw.members).Success? &&
            "disk" in raw.dataStores && raw.inputFilePath.None? ==>
              r == Failure(ArgumentTypeError(DiskWithoutPath))
    ensures ArgListToRange(raw.fcstHrs).Success? &&
            LeadTimesOfHours(ArgListToRange(raw.fcstHrs).value).Success? &&
            ArgListToRange(raw.members).Success? &&
            ("disk" in raw.dataStores ==> raw.inputFilePath.Some?) &&
            "hpss" in raw.dataStores && !hsiAvailable ==>
              r == Failure(Exit(1, NoHpss))
  {
    var hours :- ArgListToRange(raw.fcstHrs);
    var leadTimes :- LeadTimesOfHours(hours);
    var members :- ArgListToRange(raw.members);
    if "disk" in raw.dataStores && raw.inputFilePath.None? then
      Failure(ArgumentTypeError(DiskWithoutPath))
    else if "hpss" in raw.dataStores && !hsiAvailable then
      Failure(Exit(1, NoHpss))
    else
      Success(Args(leadTimes, members, raw.dataStores, raw.inputFilePath))
  }

  /** A forecast hour of 10^9 days stops the parse with the `OverflowError`. */
  lemma ParseArgsHugeHour()
    ensures ParseArgs(RawArgs([24_000_000_000], [-999], ["aws"], None), true)
            == Failure(OverflowError(TimedeltaRange))
  {
    LeadTimeOfHour(24_000_000_000);
  }
}
