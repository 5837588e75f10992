/** The names and small text files the cyclone-tracker driver puts in its run directory:
    the forecast hours it reads, the `fort.15` table of forecast minutes, the combined
    GRIB files with the links and index files that point at them, and the storm vitals
    of the cycle, one line per storm, sorted.

    The run directory is a path as `str(Path(...))` prints it: no trailing `/` unless it
    is the root, and `.` for the current directory.
 */
module Tracker {
  import opened Results
  import opened Text
  import opened PyCollections

  /** The cycle the tracker runs for, as the calendar fields `strftime` prints. */
  datatype Cycle = Cycle(year: int, month: int, day: int, hour: int)

  /** `cycle.strftime("%Y%m%d%H")`. */
  function CycleStamp(c: Cycle): string
  {
    ZeroPadded(c.year, 4) + ZeroPadded(c.month, 2) + ZeroPadded(c.day, 2) + ZeroPadded(c.hour, 2)
  }

  /** `cycle.strftime("%Y%m%d %H")`, the date and hour as the vitals file writes them. */
  function VitalsStamp(c: Cycle): string
  {
    ZeroPadded(c.year, 4) + ZeroPadded(c.month, 2) + ZeroPadded(c.day, 2) + " " + ZeroPadded(c.hour, 2)
  }

  // ---------------------------------------------------------------------------
  // forecast hours

  /** The forecast hours of the input-file map: `range(0, endhour + 1, filefreq)`. */
  function ForecastHours(endhour: int, filefreq: int): (r: Result<seq<int>>)
    ensures r.Failure? <==> filefreq == 0
    ensures r.Failure? ==> r.error.ValueError?
    ensures filefreq > 0 ==> forall i :: 0 <= i < |r.value| ==> 0 <= r.value[i] <= endhour
  {
    CheckedRange(0, endhour + 1, filefreq)
  }

  /** With a positive frequency the hours are exactly the multiples of the frequency
      from 0 to `endhour`, both ends included. */
  lemma {:induction false} ForecastHourMembers(endhour: int, filefreq: int, h: int)
    requires filefreq > 0
    ensures h in ForecastHours(endhour, filefreq).value <==>
              0 <= h <= endhour && exists k: nat :: h == Stride(0, filefreq, k)
  {
    assert ForecastHours(endhour, filefreq).value == Range(0, endhour + 1, filefreq);
    RangeMembers(0, endhour + 1, filefreq, h);
    if exists k: nat :: h == Stride(0, filefreq, k) {
      var k: nat :| h == Stride(0, filefreq, k);
      assert h == k * filefreq;
    }
  }

  /** With a positive frequency the hours increase, so the map has one entry per hour. */
  lemma {:induction false} ForecastHoursIncrease(endhour: int, filefreq: int)
    requires filefreq > 0
    ensures Increasing(ForecastHours(endhour, filefreq).value)
  {
    var r := ForecastHours(endhour, filefreq).value;
    forall i, j | 0 <= i < j < |r| ensures r[i] < r[j] {
      RangeIncreasing(0, endhour + 1, filefreq, i, j);
    }
  }

  /** The loop that builds the input-file map: each hour of the range becomes
      `timedelta(hours=fhr)` before its file path is rendered, so the first hour beyond
      `timedelta`'s range raises `OverflowError`. On success the hours are those of the
      range. */
  function InputFileHours(endhour: int, filefreq: int): (r: Result<seq<int>>)
    ensures r.Success? <==>
              && ForecastHours(endhour, filefreq).Success?
              && forall i :: 0 <= i < |ForecastHours(endhour, filefreq).value| ==>
                   Timedelta(ForecastHours(endhour, filefreq).value[i] * 3600).Success?
    ensures r.Success? ==> r.value == ForecastHours(endhour, filefreq).value
    ensures r.Failure? ==> r.error.ValueError? || r.error == OverflowError(TimedeltaRange)
  {
    var hours :- ForecastHours(endhour, filefreq);
    var leadTimes :- TimedeltasOfHours(hours);
    Success(hours)
  }

  /** `timedelta(hours=h)` for each hour in turn; the first that does not fit raises. */
  function TimedeltasOfHours(hours: seq<int>): (r: Result<seq<int>>)
    ensures r.Success? <==> forall i :: 0 <= i < |hours| ==> Timedelta(hours[i] * 3600).Success?
    ensures r.Failure? ==> r.error == OverflowError(TimedeltaRange)
  {
    if |hours| == 0 then Success([])
    else
      var first :- Timedelta(hours[0] * 3600);
      var rest :- TimedeltasOfHours(hours[1..]);
      Success([first] + rest)
  }

  /** With a positive frequency, the map is built exactly when no hour of the range
      reaches 24000000000, the first hour of 10^9 days. */
  lemma {:induction false} InputFileHoursBound(endhour: int, filefreq: int)
    requires filefreq > 0
    ensures InputFileHours(endhour, filefreq).Success? <==>
              var hours := ForecastHours(endhour, filefreq).value;
              forall i :: 0 <= i < |hours| ==> hours[i] < 24_000_000_000
  {
    var hours := ForecastHours(endhour, filefreq).value;
    forall i | 0 <= i < |hours|
      ensures Timedelta(hours[i] * 3600).Success? <==> hours[i] < 24_000_000_000
    {
      HoursTimedelta(hours[i]);
    }
  }

  predicate Increasing(hours: seq<int>)
  {
    forall i, j :: 0 <= i < j < |hours| ==> hours[i] < hours[j]
  }

  // ---------------------------------------------------------------------------
  // fort.15

  /** One line of `fort.15`: the 1-based position in four columns, a space, and the
      forecast minute in five columns. */
  function Fort15Line(n: int, fhr: int): string
  {
    RightAligned(n, 4) + " " + RightAligned(fhr * 60, 5)
  }

  function Fort15Lines(hours: seq<int>): (lines: seq<string>)
    ensures |lines| == |hours|
    ensures forall i :: 0 <= i < |hours| ==> lines[i] == Fort15Line(i + 1, hours[i])
  {
    seq(|hours|, i requires 0 <= i < |hours| => Fort15Line(i + 1, hours[i]))
  }

  /** The `fort.15` file: its lines joined by newlines, with no newline at the end. */
  function Fort15(hours: seq<int>): string
  {
    Join(Fort15Lines(hours), '\n')
  }

  /** How a reader of `fort.15` takes a line apart: two integers separated by spaces. */
  function ReadFort15Line(line: string): Option<(int, int)>
  {
    match ScanInt(line)
    case NoNumber => None
    case Number(n, end) =>
      match ScanInt(line[end..])
      case NoNumber => None
      case Number(minutes, _) => Some((n, minutes))
  }

  /** Each line reads back as its position and forecast minute. */
  lemma {:induction false} Fort15LineRoundTrip(n: int, fhr: int)
    ensures ReadFort15Line(Fort15Line(n, fhr)) == Some((n, fhr * 60))
  {
    FieldsRoundTrip(n, fhr * 60);
  }

  lemma {:induction false} FieldsRoundTrip(n: int, m: int)
    ensures ReadFort15Line(RightAligned(n, 4) + " " + RightAligned(m, 5)) == Some((n, m))
  {
    var a := RightAligned(n, 4);
    var b := RightAligned(m, 5);
    FirstField(n, b);
    SecondField(a, m);
    ReadFields(a + " " + b, n, |a|, m, 1 + |b|);
  }

  lemma {:induction false} ReadFields(line: string, n: int, end: nat, m: int, end2: nat)
    requires ScanInt(line) == Number(n, end) && ScanInt(line[end..]) == Number(m, end2)
    ensures ReadFort15Line(line) == Some((n, m))
  {
  }

  lemma {:induction false} FirstField(n: int, b: string)
    ensures ScanInt(RightAligned(n, 4) + " " + b) == Number(n, |RightAligned(n, 4)|)
  {
    assert RightAligned(n, 4) + " " + b == RightAligned(n, 4) + (" " + b);
    ScanRightAligned(n, 4, " " + b);
  }

  lemma {:induction false} SecondField(a: string, m: int)
    ensures var line := a + " " + RightAligned(m, 5);
            ScanInt(line[|a|..]) == Number(m, 1 + |RightAligned(m, 5)|)
  {
    var b := RightAligned(m, 5);
    assert (a + " " + b)[|a|..] == " " + b;
    ScanIntAfterSpace(b);
    assert b + "" == b;
    ScanRightAligned(m, 5, "");
  }

  lemma {:induction false} Fort15LineFree(n: int, fhr: int)
    ensures Free(Fort15Line(n, fhr), '\n')
  {
    RightAlignedFree(n, 4, '\n');
    RightAlignedFree(fhr * 60, 5, '\n');
  }

  /** Splitting `fort.15` at its newlines gives one line per forecast hour, in order, and
      line `i` reads back as `i + 1` and the minute of hour `hours[i]`; with no hours the
      file is empty. */
  lemma {:induction false} Fort15RoundTrip(hours: seq<int>)
    ensures |hours| == 0 ==> Fort15(hours) == ""
    ensures |hours| > 0 ==>
              var lines := Split(Fort15(hours), '\n');
              && |lines| == |hours|
              && forall i :: 0 <= i < |hours| ==> ReadFort15Line(lines[i]) == Some((i + 1, hours[i] * 60))
  {
    var lines := Fort15Lines(hours);
    if |hours| > 0 {
      forall i | 0 <= i < |hours| ensures Free(lines[i], '\n') {
        Fort15LineFree(i + 1, hours[i]);
      }
      SplitJoin(lines, '\n');
      forall i | 0 <= i < |hours| ensures ReadFort15Line(lines[i]) == Some((i + 1, hours[i] * 60)) {
        Fort15LineRoundTrip(i + 1, hours[i]);
      }
    }
  }

  // ---------------------------------------------------------------------------
  // combined files, links and index files

  const CombinedPrefix := "COMBINED.GrbF"

  /** The combined GRIB file of a forecast hour: the hour in at least two digits. */
  function CombinedFileName(fhr: int): string
  {
    CombinedPrefix + ZeroPadded(fhr, 2)
  }

  /** The hour can be read back from the name. */
  lemma {:induction false} CombinedFileHour(fhr: int)
    ensures var name := CombinedFileName(fhr);
            ScanInt(name[|CombinedPrefix|..]) == Number(fhr, |name| - |CombinedPrefix|)
  {
    var name := CombinedFileName(fhr);
    assert name[|CombinedPrefix|..] == ZeroPadded(fhr, 2) + "";
    ScanZeroPadded(fhr, 2, "");
  }

  /** Different hours have different combined files. */
  lemma {:induction false} CombinedFileNameInjective(a: int, b: int)
    requires CombinedFileName(a) == CombinedFileName(b)
    ensures a == b
  {
    CombinedFileHour(a);
    CombinedFileHour(b);
  }

  const LinkPrefix := "mpas.trak.all."

  /** The name the tracker reads a forecast hour under: the cycle and the forecast
      minute in at least five digits. */
  function LinkName(c: Cycle, fhr: int): string
  {
    LinkPrefix + CycleStamp(c) + ".f" + ZeroPadded(fhr * 60, 5)
  }

  /** Within one cycle, different hours have different link names. */
  lemma {:induction false} LinkNameInjective(c: Cycle, a: int, b: int)
    requires LinkName(c, a) == LinkName(c, b)
    ensures a == b
  {
    var p := LinkPrefix + CycleStamp(c) + ".f";
    assert LinkName(c, a)[|p|..] == ZeroPadded(a * 60, 5);
    assert LinkName(c, b)[|p|..] == ZeroPadded(b * 60, 5);
    ZeroPaddedInjective(a * 60, b * 60, 5);
  }

  /** `str(Path(dir) / name)` for a run directory as `str(Path(...))` prints it: an
      absolute name replaces the directory, and `.` adds nothing. */
  function PathJoin(dir: string, name: string): (p: string)
    ensures |name| > 0 && name[0] == '/' ==> p == name
    ensures |p| >= |name| && p[|p| - |name|..] == name
  {
    if |name| > 0 && name[0] == '/' then name
    else if dir == "" || dir == "." then name
    else if dir[|dir| - 1] == '/' then dir + name
    else dir + "/" + name
  }

  predicate Relative(name: string) { |name| > 0 && name[0] != '/' }

  /** A relative name joined onto an absolute directory gives an absolute path. */
  lemma {:induction false} PathJoinAbsolute(dir: string, name: string)
    requires |dir| > 0 && dir[0] == '/' && Relative(name)
    ensures |PathJoin(dir, name)| > 0 && PathJoin(dir, name)[0] == '/'
  {
    var p := PathJoin(dir, name);
    assert p[0] == dir[0];
  }

  /** Two relative names joined onto the same directory give the same path only when
      they are the same name. */
  lemma {:induction false} PathJoinInjective(dir: string, a: string, b: string)
    requires Relative(a) && Relative(b)
    requires PathJoin(dir, a) == PathJoin(dir, b)
    ensures a == b
  {
    var pa := PathJoin(dir, a);
    var pb := PathJoin(dir, b);
    var pre := pa[..|pa| - |a|];
    assert pb[..|pb| - |b|] == pre;
  }

  /** The links of the run directory: the combined file of each hour, as the target, and
      the path the tracker reads it under. */
  function Links(rundir: string, c: Cycle, hours: seq<int>): (links: seq<(string, string)>)
    ensures |links| == |hours|
  {
    seq(|hours|, i requires 0 <= i < |hours| =>
      (PathJoin(rundir, CombinedFileName(hours[i])), PathJoin(rundir, LinkName(c, hours[i]))))
  }

  /** For distinct hours, as the keys of the input-file map are, no two links share a
      target or a path, so the dict from target to link holds one entry per hour and no
      link replaces another. */
  lemma {:induction false} LinksDistinct(rundir: string, c: Cycle, hours: seq<int>)
    requires forall i, j :: 0 <= i < j < |hours| ==> hours[i] != hours[j]
    ensures var links := Links(rundir, c, hours);
            forall i, j :: 0 <= i < j < |links| ==> links[i].0 != links[j].0 && links[i].1 != links[j].1
  {
    var links := Links(rundir, c, hours);
    forall i, j | 0 <= i < j < |links| ensures links[i].0 != links[j].0 && links[i].1 != links[j].1 {
      if links[i].0 == links[j].0 {
        PathJoinInjective(rundir, CombinedFileName(hours[i]), CombinedFileName(hours[j]));
        CombinedFileNameInjective(hours[i], hours[j]);
      }
      if links[i].1 == links[j].1 {
        PathJoinInjective(rundir, LinkName(c, hours[i]), LinkName(c, hours[j]));
        LinkNameInjective(c, hours[i], hours[j]);
      }
    }
  }

  /** The GRIB input of each hour and its index file as the driver writes them: the input
      is the link under the run directory, and the index name, which already holds the
      run directory, is joined onto the run directory once more. */
  function IndexFilesAsWritten(rundir: string, c: Cycle, hours: seq<int>): (files: seq<(string, string)>)
    ensures |files| == |hours|
  {
    seq(|hours|, i requires 0 <= i < |hours| =>
      var infile := PathJoin(rundir, LinkName(c, hours[i]));
      (infile, PathJoin(rundir, infile + ".ix")))
  }

  /** The index file of each input sits next to it, named after it with `.ix` added. */
  function IndexFiles(rundir: string, c: Cycle, hours: seq<int>): (files: seq<(string, string)>)
    ensures |files| == |hours|
  {
    seq(|hours|, i requires 0 <= i < |hours| =>
      var infile := PathJoin(rundir, LinkName(c, hours[i]));
      (infile, infile + ".ix"))
  }

  /** Each index entry indexes the link of its hour, and its index file is that link's
      path with `.ix` added. */
  lemma {:induction false} IndexFilesBesideLinks(rundir: string, c: Cycle, hours: seq<int>)
    ensures var links := Links(rundir, c, hours);
            var files := IndexFiles(rundir, c, hours);
            forall i :: 0 <= i < |hours| ==> files[i].0 == links[i].1 && files[i].1 == links[i].1 + ".ix"
  {
  }

  /** Under an absolute run directory the second join changes nothing. */
  lemma {:induction false} IndexFilesAbsolute(rundir: string, c: Cycle, hours: seq<int>)
    requires |rundir| > 0 && rundir[0] == '/'
    ensures IndexFilesAsWritten(rundir, c, hours) == IndexFiles(rundir, c, hours)
  {
    var w := IndexFilesAsWritten(rundir, c, hours);
    var f := IndexFiles(rundir, c, hours);
    forall i | 0 <= i < |hours| ensures w[i] == f[i] {
      var infile := PathJoin(rundir, LinkName(c, hours[i]));
      assert LinkName(c, hours[i])[0] == 'm';
      PathJoinAbsolute(rundir, LinkName(c, hours[i]));
      assert (infile + ".ix")[0] == '/';
    }
  }

  /** Under a relative run directory such as `run` the index file named by the driver
      lies in a run directory inside the run directory, away from its input. */
  lemma {:induction false} IndexFilesRelativeDoubled(rundir: string, c: Cycle, hours: seq<int>, i: int)
    requires Relative(rundir) && rundir != "." && rundir[|rundir| - 1] != '/'
    requires 0 <= i < |hours|
    ensures IndexFilesAsWritten(rundir, c, hours)[i].1 == rundir + "/" + IndexFiles(rundir, c, hours)[i].1
    ensures IndexFilesAsWritten(rundir, c, hours)[i].1 != IndexFiles(rundir, c, hours)[i].1
  {
    var infile := PathJoin(rundir, LinkName(c, hours[i]));
    assert LinkName(c, hours[i])[0] == 'm';
    assert infile == rundir + "/" + LinkName(c, hours[i]);
    assert (infile + ".ix")[0] == rundir[0];
  }

  // ---------------------------------------------------------------------------
  // storm vitals

  /** The width of the key a vitals line is known by. */
  const KeyWidth := 19

  /** A vitals line is kept when it mentions the cycle and is long enough to hold a key. */
  predicate Kept(line: string, stamp: string)
  {
    Contains(line, stamp) && |line| >= KeyWidth
  }

  /** The kept lines in file order, each with its key. */
  function VitalsEntries(lines: seq<string>, stamp: string): (r: Pairs)
    ensures forall j :: 0 <= j < |r| ==>
              && r[j].1 in lines && Kept(r[j].1, stamp) && r[j].0 == r[j].1[..KeyWidth]
    decreases |lines|
  {
    if |lines| == 0 then []
    else
      var init := VitalsEntries(lines[..|lines| - 1], stamp);
      var line := lines[|lines| - 1];
      if Kept(line, stamp) then init + [(line[..KeyWidth], line)] else init
  }

  /** The last kept line with key `k`, read from the end. */
  function LastWith(lines: seq<string>, stamp: string, k: string): (r: Option<string>)
    ensures r.Some? ==> r.value in lines && Kept(r.value, stamp) && r.value[..KeyWidth] == k
    decreases |lines|
  {
    if |lines| == 0 then None
    else
      var line := lines[|lines| - 1];
      if Kept(line, stamp) && line[..KeyWidth] == k then Some(line)
      else LastWith(lines[..|lines| - 1], stamp, k)
  }

  /** Filling the dict from the kept lines leaves, under each key, the last kept line
      with that key. */
  lemma {:induction false} VitalsDataIsLast(lines: seq<string>, stamp: string, k: string)
    ensures var data := Update(map[], VitalsEntries(lines, stamp));
            (k in data <==> LastWith(lines, stamp, k).Some?)
            && (k in data ==> data[k] == LastWith(lines, stamp, k).value)
    decreases |lines|
  {
    if |lines| > 0 {
      var init := lines[..|lines| - 1];
      var line := lines[|lines| - 1];
      VitalsDataIsLast(init, stamp, k);
      if Kept(line, stamp) {
        var e := VitalsEntries(init, stamp);
        var p := (line[..KeyWidth], line);
        assert VitalsEntries(lines, stamp) == e + [p];
        assert (e + [p])[..|e|] == e;
        assert Update(map[], e + [p]) == Update(map[], e)[p.0 := p.1];
      }
    }
  }

  /** The distinct keys of a sequence of pairs, in order of first appearance: the order in
      which a dict filled from the pairs lists its keys. */
  function KeySeq(pairs: Pairs): (ks: seq<string>)
    ensures Distinct(ks)
    ensures forall k :: k in ks <==> k in KeysOf(pairs)
    decreases |pairs|
  {
    if |pairs| == 0 then []
    else
      var ks := KeySeq(pairs[..|pairs| - 1]);
      var k := pairs[|pairs| - 1].0;
      if k in ks then ks else ks + [k]
  }

  /** The vitals of the cycle: one line per key, the last kept line with that key, in
      key order. */
  function VitalsLines(content: string, c: Cycle): (out: seq<string>)
  {
    var entries := VitalsEntries(Split(content, '\n'), VitalsStamp(c));
    var data := Update(map[], entries);
    var keys := SortStrings(KeySeq(entries));
    seq(|keys|, i requires 0 <= i < |keys| => data[keys[i]])
  }

  /** The `allvit` file: the vitals lines joined by newlines. */
  function AllVit(content: string, c: Cycle): string
  {
    Join(VitalsLines(content, c), '\n')
  }

  /** Each output line is the last kept line of the input with its key, and the keys of
      the output lines strictly increase, so no key appears twice. */
  lemma {:induction false} VitalsLastPerKey(content: string, c: Cycle)
    ensures var lines := Split(content, '\n');
            var out := VitalsLines(content, c);
            && (forall i :: 0 <= i < |out| ==>
                  |out[i]| >= KeyWidth && LastWith(lines, VitalsStamp(c), out[i][..KeyWidth]) == Some(out[i]))
            && (forall i, j :: 0 <= i < j < |out| ==> Less(out[i][..KeyWidth], out[j][..KeyWidth]))
  {
    var lines := Split(content, '\n');
    var stamp := VitalsStamp(c);
    var entries := VitalsEntries(lines, stamp);
    var data := Update(map[], entries);
    var keys := SortStrings(KeySeq(entries));
    var out := VitalsLines(content, c);
    forall i | 0 <= i < |out|
      ensures |out[i]| >= KeyWidth && out[i][..KeyWidth] == keys[i]
      ensures LastWith(lines, stamp, out[i][..KeyWidth]) == Some(out[i])
    {
      VitalsDataIsLast(lines, stamp, keys[i]);
    }
  }

  /** Every kept line of the input has its key in the output. */
  lemma {:induction false} VitalsEveryKey(content: string, c: Cycle, line: string)
    requires line in Split(content, '\n') && Kept(line, VitalsStamp(c))
    ensures exists i :: 0 <= i < |VitalsLines(content, c)| && |VitalsLines(content, c)[i]| >= KeyWidth
                      && VitalsLines(content, c)[i][..KeyWidth] == line[..KeyWidth]
  {
    var lines := Split(content, '\n');
    var stamp := VitalsStamp(c);
    var entries := VitalsEntries(lines, stamp);
    var data := Update(map[], entries);
    var keys := SortStrings(KeySeq(entries));
    var out := VitalsLines(content, c);
    var k := line[..KeyWidth];
    assert k in keys by {
      LastWithFinds(lines, stamp, line);
      VitalsDataIsLast(lines, stamp, k);
      assert k in KeysOf(entries);
    }
    var i :| 0 <= i < |keys| && keys[i] == k;
    assert out[i] == data[k];
    assert data[k][..KeyWidth] == k by {
      VitalsDataIsLast(lines, stamp, k);
    }
  }

  /** A kept line leaves some line under its key. */
  lemma {:induction false} LastWithFinds(lines: seq<string>, stamp: string, line: string)
    requires line in lines && Kept(line, stamp)
    ensures LastWith(lines, stamp, line[..KeyWidth]).Some?
    decreases |lines|
  {
    var last := lines[|lines| - 1];
    if !(Kept(last, stamp) && last[..KeyWidth] == line[..KeyWidth]) {
      assert line in lines[..|lines| - 1] by {
        var j :| 0 <= j < |lines| && lines[j] == line;
        assert j != |lines| - 1;
        assert lines[..|lines| - 1][j] == line;
      }
      LastWithFinds(lines[..|lines| - 1], stamp, line);
    }
  }

  /** Splitting `allvit` at its newlines gives the vitals lines back. */
  lemma {:induction false} AllVitRoundTrip(content: string, c: Cycle)
    requires |VitalsLines(content, c)| > 0
    ensures Split(AllVit(content, c), '\n') == VitalsLines(content, c)
  {
    var lines := Split(content, '\n');
    var out := VitalsLines(content, c);
    assert forall i :: 0 <= i < |out| ==> out[i] in lines by {
      VitalsLastPerKey(content, c);
    }
    SplitPartsFree(content, '\n');
    forall i | 0 <= i < |out| ensures Free(out[i], '\n') {
      FreeMember(lines, out[i]);
    }
    SplitJoin(out, '\n');
  }

  lemma {:induction false} FreeMember(lines: seq<string>, line: string)
    requires forall i :: 0 <= i < |lines| ==> Free(lines[i], '\n')
    requires line in lines
    ensures Free(line, '\n')
  {
    var k :| 0 <= k < |lines| && lines[k] == line;
  }
}
