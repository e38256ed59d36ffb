/** The clean-up tool: given a time pattern and a directory, it removes the recordings in that
    directory that started before the time. The pattern is HHMM (today) or MMDDHHMM (this year);
    recordings are named "<YYYYMMDD>T<HHMM>-<title>.ts", so a file is old exactly when its name
    sorts at or before the time written the same way. The clock, the directory listing and the
    removal itself are parameters and results. */
module Trash {
  import opened Wrappers
  import opened GoStrings
  import opened GoTime
  import AutoBooking

  datatype TrashError =
    | MissingArguments                 // fewer than two arguments: log.Fatal
    | UnsupportedPattern(pattern: string) // a pattern of neither 4 nor 8 bytes: log.Fatalf
    | BadPattern(ParseError)           // time.Parse refused the pattern: log.Fatalf

  // ---------------------------------------------------------------------------
  // parseTimeOnlyPattern and parseDayTimePattern

  /** parseTimeOnlyPattern: the pattern read as "1504", on today's date. */
  function ParseTimeOnlyPattern(pattern: string, now: DateTime): (r: Result<DateTime, ParseError>)
    ensures r.Err? <==> ParseClock(pattern).Err?
    ensures r.Err? ==> r.error == ParseClock(pattern).error
    ensures r.Ok? && Valid(now) ==>
      var c := ParseClock(pattern).value;
      r.value == DateTime(now.year, now.month, now.day, c.hour, c.minute, 0)
  {
    var c :- ParseClock(pattern);
    var t := Date(now.year, now.month, now.day, c.hour, c.minute, c.second);
    if Valid(now) then
      DateOfValid(DateTime(now.year, now.month, now.day, c.hour, c.minute, 0));
      Ok(t)
    else Ok(t)
  }

  /** Four digits name a time today exactly when they are a valid hour and minute. */
  lemma TimeOnlyDigits(s: string, now: DateTime)
    requires |s| == 4 && AllDigits(s) && Valid(now)
    ensures var hh, mm := DigitsValue(s[..2]), DigitsValue(s[2..]);
      (ParseTimeOnlyPattern(s, now).Ok? <==> hh < 24 && mm < 60)
      && (ParseTimeOnlyPattern(s, now).Ok? ==>
            ParseTimeOnlyPattern(s, now).value == DateTime(now.year, now.month, now.day, hh, mm, 0))
  {
    ParseClockDigits(s);
  }

  /** parseDayTimePattern: the pattern read as "01021504" (where February has 29 days), moved to
      the current year; time.Date counts the day on linearly, so 29 February of a common year is
      1 March. */
  function ParseDayTimePattern(pattern: string, now: DateTime): (r: Result<DateTime, ParseError>)
    ensures r.Err? <==> ParseMonthDayClock(pattern).Err?
    ensures r.Err? ==> r.error == ParseMonthDayClock(pattern).error
    ensures r.Ok? ==> Valid(r.value)
    ensures r.Ok? ==>
      var p := ParseMonthDayClock(pattern).value;
      Seconds(r.value) == AbsSeconds(now.year, p.month, p.day, p.hour, p.minute, 0)
  {
    var p :- ParseMonthDayClock(pattern);
    Ok(Date(now.year, p.month, p.day, p.hour, p.minute, p.second))
  }

  /** A day that exists in the current year is taken as it is. */
  lemma DayTimeInYear(pattern: string, now: DateTime)
    requires ParseMonthDayClock(pattern).Ok?
    requires ParseMonthDayClock(pattern).value.day <= DaysIn(now.year, ParseMonthDayClock(pattern).value.month)
    ensures var p := ParseMonthDayClock(pattern).value;
      ParseDayTimePattern(pattern, now) == Ok(DateTime(now.year, p.month, p.day, p.hour, p.minute, 0))
  {
    var p := ParseMonthDayClock(pattern).value;
    DateOfValid(DateTime(now.year, p.month, p.day, p.hour, p.minute, 0));
  }

  /** Eight digits name a time this year when they are a month, a day of it in a leap year, an hour
      and a minute; otherwise the pattern is refused. */
  lemma DayTimeDigits(s: string, now: DateTime)
    requires |s| == 8 && AllDigits(s)
    ensures var mo, d, h, mi := DigitsValue(s[..2]), DigitsValue(s[2..4]), DigitsValue(s[4..6]), DigitsValue(s[6..]);
      ParseDayTimePattern(s, now).Ok? <==> 1 <= mo <= 12 && 1 <= d <= DaysIn(0, mo) && h < 24 && mi < 60
  {
    ParseMonthDayClockDigits(s);
  }

  /** 29 February names 1 March in a common year, at the same time of day. */
  lemma LeapDayInCommonYear(pattern: string, now: DateTime)
    requires ParseMonthDayClock(pattern).Ok? && !IsLeap(now.year)
    requires ParseMonthDayClock(pattern).value.month == 2 && ParseMonthDayClock(pattern).value.day == 29
    ensures var p := ParseMonthDayClock(pattern).value;
      ParseDayTimePattern(pattern, now) == Ok(DateTime(now.year, 3, 1, p.hour, p.minute, 0))
  {
    var p := ParseMonthDayClock(pattern).value;
    var r := ParseDayTimePattern(pattern, now).value;
    var m := DateTime(now.year, 3, 1, p.hour, p.minute, 0);
    LeapDaySeconds(now.year, p.hour, p.minute);
    SecondsInjective(r, m);
  }

  lemma LeapDaySeconds(year: int, hour: int, minute: int)
    requires !IsLeap(year)
    ensures AbsSeconds(year, 2, 29, hour, minute, 0) == AbsSeconds(year, 3, 1, hour, minute, 0)
  {
    assert DayNumber(year, 2, 29) == DayNumber(year, 3, 1);
  }

  // ---------------------------------------------------------------------------
  // main's pattern switch and the cut-off

  /** The time the pattern names: the switch on its length in bytes. */
  function PatternTime(pattern: string, now: DateTime): (r: Result<DateTime, TrashError>)
    ensures r == Err(UnsupportedPattern(pattern)) <==> Utf8Len(pattern) != 4 && Utf8Len(pattern) != 8
    ensures Utf8Len(pattern) == 4 ==>
      r == match ParseTimeOnlyPattern(pattern, now) { case Ok(t) => Ok(t) case Err(e) => Err(BadPattern(e)) }
    ensures Utf8Len(pattern) == 8 ==>
      r == match ParseDayTimePattern(pattern, now) { case Ok(t) => Ok(t) case Err(e) => Err(BadPattern(e)) }
    ensures r.Ok? ==> Valid(r.value)
  {
    var n := Utf8Len(pattern);
    if n != 4 && n != 8 then Err(UnsupportedPattern(pattern))
    else
      var p := if n == 4 then ParseTimeOnlyPattern(pattern, now) else ParseDayTimePattern(pattern, now);
      match p
      case Err(e) => Err(BadPattern(e))
      case Ok(t) => Ok(t)
  }

  /** Today's or this year's date: the time the pattern names stays in the current year. */
  lemma PatternTimeThisYear(pattern: string, now: DateTime)
    requires Valid(now) && PatternTime(pattern, now).Ok?
    ensures PatternTime(pattern, now).value.year == now.year
    ensures PatternTime(pattern, now).value.second == 0
  {
    if Utf8Len(pattern) == 8 {
      var p := ParseMonthDayClock(pattern).value;
      if p.day <= DaysIn(now.year, p.month) {
        DayTimeInYear(pattern, now);
      } else {
        LeapDayInCommonYear(pattern, now);
      }
    }
  }

  /** The cut-off main compares file names with: the pattern's time written as "20060102T1504". */
  function Cutoff(args: seq<string>, now: DateTime): (r: Result<string, TrashError>)
    ensures r == Err(MissingArguments) <==> |args| < 2
    ensures r.Ok? <==> |args| >= 2 && PatternTime(args[0], now).Ok?
    ensures r.Err? && |args| >= 2 ==> r.error == PatternTime(args[0], now).error
    ensures r.Ok? ==> r.value == FormatPrefix(PatternTime(args[0], now).value)
    ensures r.Ok? && Valid(now) && 0 <= now.year <= 9999 ==> |r.value| == 13
  {
    if |args| < 2 then Err(MissingArguments)
    else
      var t :- PatternTime(args[0], now);
      if Valid(now) && 0 <= now.year <= 9999 then
        PatternTimeThisYear(args[0], now);
        DatePart(t);
        ClockPart(t);
        Ok(FormatPrefix(t))
      else Ok(FormatPrefix(t))
  }

  // ---------------------------------------------------------------------------
  // removeMatchedFiles

  /** The names that sort at or before the cut-off, in the listing's order. */
  function Matched(names: seq<string>, format: string): seq<string>
  {
    if names == [] then []
    else
      var last := names[|names| - 1];
      Matched(names[..|names| - 1], format) + (if LessEq(last, format) then [last] else [])
  }

  /** removeMatchedFiles: every entry whose name strings.Compare puts at or before format is kept,
      in order. */
  method RemoveMatchedFiles(names: seq<string>, format: string) returns (matched: seq<string>)
    ensures matched == Matched(names, format)
  {
    matched := [];
    for i := 0 to |names|
      invariant matched == Matched(names[..i], format)
    {
      assert names[..i + 1][..i] == names[..i];
      if LessEq(names[i], format) {
        matched := matched + [names[i]];
      }
    }
    assert names[..|names|] == names;
  }

  /** A name is selected exactly when it is listed and sorts at or before the cut-off. */
  lemma {:induction false} MatchedMembers(names: seq<string>, format: string, x: string)
    ensures x in Matched(names, format) <==> x in names && LessEq(x, format)
  {
    if names != [] {
      MatchedMembers(names[..|names| - 1], format, x);
      assert names == names[..|names| - 1] + [names[|names| - 1]];
    }
  }

  /** Filtering a listing in two parts filters each part. */
  lemma {:induction false} MatchedAppend(a: seq<string>, b: seq<string>, format: string)
    ensures Matched(a + b, format) == Matched(a, format) + Matched(b, format)
    decreases |b|
  {
    if b == [] {
      assert a + b == a;
    } else {
      var b0 := b[..|b| - 1];
      assert (a + b)[..|a + b| - 1] == a + b0;
      MatchedAppend(a, b0, format);
    }
  }

  /** A listing whose every name is at or before the cut-off is selected whole. */
  lemma {:induction false} MatchedAll(names: seq<string>, format: string)
    requires forall k :: 0 <= k < |names| ==> LessEq(names[k], format)
    ensures Matched(names, format) == names
  {
    if names != [] {
      var init := names[..|names| - 1];
      forall k | 0 <= k < |init|
        ensures LessEq(init[k], format)
      {
        assert init[k] == names[k];
      }
      MatchedAll(init, format);
      assert LessEq(names[|names| - 1], format);
    }
  }

  lemma LessEqTransitive(a: string, b: string, c: string)
    requires LessEq(a, b) && LessEq(b, c)
    ensures LessEq(a, c)
  {
    if a != b && b != c {
      LessTransitive(a, b, c);
    }
  }

  predicate SortedNames(names: seq<string>)
  {
    forall p, q :: 0 <= p < q < |names| ==> LessEq(names[p], names[q])
  }

  /** ioutil.ReadDir lists a directory sorted by name, so the files removed are a prefix of the
      listing. */
  lemma {:induction false} MatchedOfSorted(names: seq<string>, format: string)
    requires SortedNames(names)
    ensures exists n :: 0 <= n <= |names| && Matched(names, format) == names[..n]
  {
    if names == [] {
      assert Matched(names, format) == names[..0];
    } else {
      var init, last := names[..|names| - 1], names[|names| - 1];
      assert SortedNames(init) by {
        assert forall k :: 0 <= k < |init| ==> init[k] == names[k];
      }
      MatchedOfSorted(init, format);
      var n :| 0 <= n <= |init| && Matched(init, format) == init[..n];
      if LessEq(last, format) {
        forall k | 0 <= k < |init|
          ensures LessEq(init[k], format)
        {
          assert init[k] == names[k];
          LessEqTransitive(init[k], last, format);
        }
        MatchedAll(init, format);
        assert names == init + [last];
        assert Matched(names, format) == names[..|names|];
      } else {
        assert init[..n] == names[..n];
      }
    }
  }

  // ---------------------------------------------------------------------------
  // Which recordings go

  /** A recording named after its start as both booking tools name it is removed exactly when it
      started in a minute before the cut-off's: one started in the cut-off minute itself stays. */
  lemma RecordingSelected(start: DateTime, cutoff: DateTime, title: string)
    requires Valid(start) && Valid(cutoff) && 0 <= start.year <= 9999 && 0 <= cutoff.year <= 9999
    ensures LessEq(FormatPrefix(start) + "-" + title + ".ts", FormatPrefix(cutoff))
      <==> Seconds(MinuteOf(start)) < Seconds(MinuteOf(cutoff))
  {
    var ps, pc := FormatPrefix(start), FormatPrefix(cutoff);
    var rest := "-" + title + ".ts";
    assert ps + "-" + title + ".ts" == ps + rest;
    DatePart(start);
    ClockPart(start);
    DatePart(cutoff);
    ClockPart(cutoff);
    assert pc + [] == pc;
    LessAppend(ps, rest, pc, []);
    assert !Less(rest, []);
    assert ps + rest != pc;
    FormatPrefixOrder(start, cutoff);
  }

  /** So a page auto-booking recorded is removed when it started in a minute before the cut-off. */
  lemma BookedRecordingSelected(p: AutoBooking.Page, cutoff: DateTime)
    requires Valid(p.start) && Valid(cutoff) && 0 <= p.start.year <= 9999 && 0 <= cutoff.year <= 9999
    ensures LessEq(AutoBooking.FileName(p), FormatPrefix(cutoff)) <==> Seconds(MinuteOf(p.start)) < Seconds(MinuteOf(cutoff))
  {
    RecordingSelected(p.start, cutoff, p.title);
  }

  // ---------------------------------------------------------------------------
  // The removal

  /** The path main hands to os.Remove for a listed entry: its bare name, which the process
      resolves against its own working directory rather than the directory it listed. */
  function RemovalTarget(dir: string, name: string): string
  {
    name
  }

  /** A file listed in "rec" is looked for outside it, in the working directory. */
  lemma RemovalTargetMissesDir()
    ensures !HasPrefix(RemovalTarget("rec", "x.ts"), "rec" + "/")
  {
    assert "x.ts"[0] != "rec/"[0];
  }

  /** The path of a listed entry: the directory, a slash and the entry's name. */
  function RemovalPath(dir: string, name: string): string
  {
    dir + "/" + name
  }

  /** The path removed lies in the listed directory and ends in the listed name. */
  lemma RemovalPathInDir(dir: string, name: string)
    requires name != [] && '/' !in name
    ensures HasPrefix(RemovalPath(dir, name), dir + "/")
    ensures Base(RemovalPath(dir, name)) == name
  {
    BaseOfPath(dir, name);
    assert RemovalPath(dir, name)[..|dir + "/"|] == dir + "/";
  }

  function RemovalPaths(dir: string, names: seq<string>): (r: seq<string>)
    ensures |r| == |names|
  {
    seq(|names|, k requires 0 <= k < |names| => RemovalPath(dir, names[k]))
  }

  lemma RemovalPathsSnoc(dir: string, names: seq<string>, x: string)
    ensures RemovalPaths(dir, names + [x]) == RemovalPaths(dir, names) + [RemovalPath(dir, x)]
  {
  }

  /** Each listed name gives its own path. */
  lemma RemovalPathsMembers(dir: string, names: seq<string>, x: string)
    ensures RemovalPath(dir, x) in RemovalPaths(dir, names) <==> x in names
  {
    if RemovalPath(dir, x) in RemovalPaths(dir, names) {
      var k :| 0 <= k < |names| && RemovalPaths(dir, names)[k] == RemovalPath(dir, x);
      assert RemovalPath(dir, x)[|dir| + 1..] == x;
      assert RemovalPath(dir, names[k])[|dir| + 1..] == names[k];
    }
    if x in names {
      var k :| 0 <= k < |names| && names[k] == x;
      assert RemovalPaths(dir, names)[k] == RemovalPath(dir, x);
    }
  }

  /** What main removes, stated on time: with a valid clock, a recording named after its start is
      removed exactly when it is listed and started in a minute before the minute the pattern
      names. */
  lemma RecordingRemoved(args: seq<string>, now: DateTime, listing: seq<string>, start: DateTime, title: string)
    requires Valid(now) && 0 <= now.year <= 9999 && Cutoff(args, now).Ok?
    requires Valid(start) && 0 <= start.year <= 9999
    ensures var name := FormatPrefix(start) + "-" + title + ".ts";
      RemovalPath(args[1], name) in RemovalPaths(args[1], Matched(listing, Cutoff(args, now).value))
      <==> name in listing && Seconds(MinuteOf(start)) < Seconds(MinuteOf(PatternTime(args[0], now).value))
  {
    var name := FormatPrefix(start) + "-" + title + ".ts";
    var cut := PatternTime(args[0], now).value;
    PatternTimeThisYear(args[0], now);
    RemovalPathsMembers(args[1], Matched(listing, Cutoff(args, now).value), name);
    MatchedMembers(listing, FormatPrefix(cut), name);
    RecordingSelected(start, cut, title);
  }

  /** main: the cut-off from the pattern, the listing of the directory filtered by it, and one
      os.Remove per selected entry; the result is the paths removed. */
  method RemoveOldRecordings(args: seq<string>, now: DateTime, listing: seq<string>)
    returns (r: Result<seq<string>, TrashError>)
    ensures r.Err? <==> Cutoff(args, now).Err?
    ensures r.Err? ==> r.error == Cutoff(args, now).error
    ensures r.Ok? ==> |args| >= 2 && r.value == RemovalPaths(args[1], Matched(listing, Cutoff(args, now).value))
  {
    var format := Cutoff(args, now);
    if format.Err? {
      return Err(format.error);
    }
    var matched := RemoveMatchedFiles(listing, format.value);
    var removed := RemoveAll(args[1], matched);
    return Ok(removed);
  }

  /** main's last loop: one os.Remove per selected entry, in order. */
  method RemoveAll(dir: string, matched: seq<string>) returns (removed: seq<string>)
    ensures removed == RemovalPaths(dir, matched)
  {
    removed := [];
    for i := 0 to |matched|
      invariant removed == RemovalPaths(dir, matched[..i])
    {
      RemovalPathsSnoc(dir, matched[..i], matched[i]);
      assert matched[..i + 1] == matched[..i] + [matched[i]];
      removed := removed + [RemovalPath(dir, matched[i])];
    }
    assert matched[..|matched|] == matched;
  }
}
