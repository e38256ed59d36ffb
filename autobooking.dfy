/** The booking registry and the command and time handling of the auto-booking tool: the pages of
    the TV listing it has booked, how a listing's broadcast time is read, and the `recpt1 … | at`
    command line that books a recording. */
module AutoBooking {
  import opened Wrappers
  import opened GoStrings
  import opened GoTime
  import opened Scan

  /** A channel code understood by recpt1 ("27" for NHK, "BS15_0" for NHK BS1, …). */
  type Provider = string

  /** The metadata of one programme and the id of the `at` job that records it. */
  datatype Page = Page(id: string, url: string, title: string, provider: Provider,
                       start: DateTime, end: DateTime, atId: int)

  /** Pages whose programme ended more than four days ago are dropped (pergeTargetLine). */
  const PurgeAge: int := 4 * 24 * 3600

  // ---------------------------------------------------------------------------
  // The registry

  predicate Registered(ps: seq<Page>, id: string) { exists k :: 0 <= k < |ps| && ps[k].id == id }

  /** The pages of ps whose end is strictly after deadline, in their order. */
  function Recent(ps: seq<Page>, deadline: DateTime): seq<Page>
  {
    if ps == [] then []
    else Recent(ps[..|ps| - 1], deadline) + (if After(ps[|ps| - 1].end, deadline) then [ps[|ps| - 1]] else [])
  }

  /** Keeping the recent pages of a concatenation keeps the recent pages of each part, in order. */
  lemma {:induction false} RecentAppend(a: seq<Page>, b: seq<Page>, deadline: DateTime)
    ensures Recent(a + b, deadline) == Recent(a, deadline) + Recent(b, deadline)
    decreases |b|
  {
    if b == [] {
      assert a + b == a;
    } else {
      assert (a + b)[..|a + b| - 1] == a + b[..|b| - 1];
      RecentAppend(a, b[..|b| - 1], deadline);
    }
  }

  /** A page is kept exactly when it is in the list and ends after the deadline. */
  lemma {:induction false} RecentMembers(ps: seq<Page>, deadline: DateTime, p: Page)
    ensures p in Recent(ps, deadline) <==> p in ps && After(p.end, deadline)
  {
    if ps != [] {
      RecentMembers(ps[..|ps| - 1], deadline, p);
      assert ps == ps[..|ps| - 1] + [ps[|ps| - 1]];
    }
  }

  /** Keeping the recent pages keeps no more than there were, and keeping them twice changes nothing. */
  lemma {:induction false} RecentIdempotent(ps: seq<Page>, deadline: DateTime)
    ensures |Recent(ps, deadline)| <= |ps|
    ensures Recent(Recent(ps, deadline), deadline) == Recent(ps, deadline)
  {
    if ps != [] {
      var init, last := ps[..|ps| - 1], ps[|ps| - 1];
      RecentIdempotent(init, deadline);
      var kept := if After(last.end, deadline) then [last] else [];
      RecentAppend(Recent(init, deadline), kept, deadline);
      assert Recent(kept, deadline) == kept by {
        if kept != [] {
          assert kept[..0] == [];
        }
      }
    }
  }

  /** The in-memory list of booked pages. */
  class Manager {
    var programs: seq<Page>

    /** NewManager: an empty registry. */
    constructor ()
      ensures programs == []
    {
      programs := [];
    }

    /** Whether a page with this id is booked; the registry is not changed. */
    method IsRegistered(id: string) returns (found: bool)
      ensures found <==> Registered(programs, id)
    {
      var i := 0;
      while i < |programs|
        invariant 0 <= i <= |programs|
        invariant forall k :: 0 <= k < i ==> programs[k].id != id
      {
        if programs[i].id == id {
          return true;
        }
        i := i + 1;
      }
      return false;
    }

    /** Appends a page. */
    method Add(p: Page)
      modifies this
      ensures programs == old(programs) + [p]
    {
      programs := programs + [p];
    }

    /** Drops the pages whose end is not after now minus four days; the others stay in order. */
    method Purge(now: DateTime)
      modifies this
      ensures programs == Recent(old(programs), GoTime.Add(now, -PurgeAge))
    {
      var deadline := GoTime.Add(now, -PurgeAge);
      var purged: seq<Page> := [];
      var i := 0;
      while i < |programs|
        invariant 0 <= i <= |programs|
        invariant purged == Recent(programs[..i], deadline)
      {
        assert programs[..i + 1][..i] == programs[..i];
        if After(programs[i].end, deadline) {
          purged := purged + [programs[i]];
        }
        i := i + 1;
      }
      assert programs[..i] == programs;
      programs := purged;
    }
  }

  /** After Add(p) the page is registered and every page registered before still is. */
  lemma {:induction false} AddRegisters(ps: seq<Page>, p: Page, id: string)
    ensures Registered(ps + [p], p.id)
    ensures Registered(ps + [p], id) <==> Registered(ps, id) || id == p.id
  {
    assert (ps + [p])[|ps|] == p;
    if Registered(ps, id) {
      var k :| 0 <= k < |ps| && ps[k].id == id;
      assert (ps + [p])[k] == ps[k];
    }
  }

  /** Purge keeps exactly the pages that end less than four days before now. */
  lemma {:induction false} PurgeKeeps(ps: seq<Page>, now: DateTime, p: Page)
    ensures p in Recent(ps, GoTime.Add(now, -PurgeAge)) <==> p in ps && Seconds(p.end) > Seconds(now) - PurgeAge
  {
    RecentMembers(ps, GoTime.Add(now, -PurgeAge), p);
  }

  // ---------------------------------------------------------------------------
  // parseTime

  /** The numbers the listing's time pattern captures: the date and two clock readings. */
  datatype BroadcastTime = BroadcastTime(year: int, month: int, day: int, startHour: int, startMinute: int,
                                         endHour: int, endMinute: int)

  const Weekdays: seq<string> := ["日", "月", "火", "水", "木", "金", "土"]

  /** The date part of the broadcast-time pattern, `([0-9]{4})年([0-9]{1,2})月([0-9]{1,2})日（(日|月|火|水|木|金|土)）`,
      at the start of t: the rest of t, with the year, month and day. */
  function MatchDay(t: string): (r: Option<(string, int, int, int)>)
    ensures r.Some? ==> |r.value.0| < |t|
  {
    var (y, t1) :- Digits(t, 4, 4);
    var t2 :- Lit(t1, "年");
    var (mo, t3) :- Digits(t2, 1, 2);
    var t4 :- Lit(t3, "月");
    var (d, t8) :- MatchDayOfMonth(t4);
    Some((t8, y as int, mo as int, d as int))
  }

  /** `([0-9]{1,2})日（(日|月|火|水|木|金|土)）` at the start of t: the day and the rest of t. */
  function MatchDayOfMonth(t: string): (r: Option<(nat, string)>)
    ensures r.Some? ==> |r.value.1| < |t|
  {
    var (d, t5) :- Digits(t, 1, 2);
    var t6 :- Lit(t5, "日（");
    var t7 :- OneOf(t6, Weekdays);
    var t8 :- Lit(t7, "）");
    Some((d, t8))
  }

  /** A clock reading of the pattern, `([0-9]{1,2})時([0-9]{1,2})` followed by the literal tail, at the
      start of t: the rest of t, with the hour and the minute. */
  function MatchClock(t: string, tail: string): (r: Option<(string, int, int)>)
    ensures r.Some? ==> 0 <= r.value.1 < 100 && 0 <= r.value.2 < 100
  {
    var (h, t1) :- Digits(t, 1, 2);
    var t2 :- Lit(t1, "時");
    var (m, t3) :- Digits(t2, 1, 2);
    var t4 :- Lit(t3, tail);
    DigitsValueBound(t[..|t| - |t1|]);
    DigitsValueBound(t2[..|t2| - |t3|]);
    assert Pow10(1) == 10 && Pow10(2) == 100;
    Some((t4, h as int, m as int))
  }

  /** The whole pattern `<day>\s+<clock>分～<clock>分` at the start of t. */
  function MatchBroadcastTime(t: string): (r: Option<BroadcastTime>)
    ensures r.Some? ==> 0 <= r.value.startHour < 100 && 0 <= r.value.startMinute < 100
    ensures r.Some? ==> 0 <= r.value.endHour < 100 && 0 <= r.value.endMinute < 100
  {
    var (t1, y, mo, d) :- MatchDay(t);
    var t2 :- Spaces(t1);
    var (t3, sh, sm) :- MatchClock(t2, "分～");
    var (_, eh, em) :- MatchClock(t3, "分");
    Some(BroadcastTime(y, mo, d, sh, sm, eh, em))
  }

  /** re.FindStringSubmatch(t): the leftmost match. */
  function FindBroadcastTime(t: string): Option<(nat, BroadcastTime)>
  {
    Leftmost(MatchBroadcastTime, t, 0)
  }

  /** "number of submatch is invalid": the text holds no broadcast time. */
  datatype TimeError = NoBroadcastTime

  /** An hour of 24 or more on the listed day is that hour less 24 on the next day: time.Date does it. */
  lemma {:induction false} NextDayShift(y: int, mo: int, d: int, h: int, mi: int)
    ensures Date(y, mo, d + 1, h - 24, mi, 0) == Date(y, mo, d, h, mi, 0)
  {
    SecondsInjective(Date(y, mo, d + 1, h - 24, mi, 0), Date(y, mo, d, h, mi, 0));
  }

  /** The instant at hour h and minute mi of the listed day, where roll says that the hour has been
      moved to the next day by hand (hour h - 24 of day + 1): either way the instant time.Date gives
      for hour h of the listed day. */
  function Rolled(y: int, mo: int, d: int, h: int, mi: int, roll: bool): (r: DateTime)
    ensures r == Date(y, mo, d, h, mi, 0)
  {
    if roll then
      NextDayShift(y, mo, d, h, mi);
      Date(y, mo, d + 1, h - 24, mi, 0)
    else Date(y, mo, d, h, mi, 0)
  }

  /** The start of the broadcast: a start hour from 24 on is moved to the next day. */
  function StartOf(f: BroadcastTime): DateTime
  {
    Rolled(f.year, f.month, f.day, f.startHour, f.startMinute, f.startHour >= 24)
  }

  /** The end of the broadcast: an end hour above 24 is moved to the next day, and an end hour of
      exactly 24 is left to time.Date, which carries it to 0 on the next day all the same. */
  function EndOf(f: BroadcastTime): DateTime
  {
    Rolled(f.year, f.month, f.day, f.endHour, f.endMinute, f.endHour > 24)
  }

  /** parseTime: the start and end instants of the broadcast time found in t, read on the date the
      listing gives. */
  function ParseTime(t: string): (r: Result<(DateTime, DateTime), TimeError>)
    ensures r.Err? <==> FindBroadcastTime(t).None?
    ensures r.Ok? ==> var f := FindBroadcastTime(t).value.1;
      r.value.0 == Date(f.year, f.month, f.day, f.startHour, f.startMinute, 0)
      && r.value.1 == Date(f.year, f.month, f.day, f.endHour, f.endMinute, 0)
  {
    match FindBroadcastTime(t)
    case None => Err(NoBroadcastTime)
    case Some((_, f)) => Ok((StartOf(f), EndOf(f)))
  }

  /** A listed hour h from 24 on is hour h - 24 of the day after: the reading the rollover branches
      rely on, stated with time.AddDate on the valid instant at hour h - 24. */
  lemma {:induction false} HourRollover(y: int, mo: int, d: int, h: int, mi: int)
    requires 24 <= h < 48 && Valid(DateTime(y, mo, d, h - 24, mi, 0))
    ensures Date(y, mo, d, h, mi, 0) == AddDate(DateTime(y, mo, d, h - 24, mi, 0), 0, 0, 1)
  {
    AddOneDay(DateTime(y, mo, d, h - 24, mi, 0));
    SecondsInjective(Date(y, mo, d, h, mi, 0), AddDate(DateTime(y, mo, d, h - 24, mi, 0), 0, 0, 1));
  }

  /** The recorded length is the difference of the two clock readings, with no day added when the
      end reading is the smaller: such a listing gives a negative duration. */
  lemma {:induction false} ParseTimeDuration(t: string, i: nat, f: BroadcastTime)
    requires FindBroadcastTime(t) == Some((i, f))
    ensures ParseTime(t) == Ok((StartOf(f), EndOf(f)))
    ensures SubSeconds(EndOf(f), StartOf(f)) == ((f.endHour - f.startHour) * 60 + f.endMinute - f.startMinute) * 60
  {
    SameDayDistance(f.year, f.month, f.day, f.startHour, f.startMinute, f.endHour, f.endMinute);
  }

  /** The date as the listing writes it, with the weekday w (0 for Sunday), followed by q. */
  function DayText(y: string, mo: string, d: string, w: nat, q: string): string
    requires w < 7
  {
    y + ("年" + (mo + ("月" + (d + ("日（" + (Weekdays[w] + ("）" + q)))))))
  }

  /** A clock reading as the listing writes it, with what follows its minutes, followed by q. */
  function ClockText(h: string, m: string, tail: string, q: string): string
  {
    h + ("時" + (m + (tail + q)))
  }

  /** The broadcast time as the listing writes it. */
  function ListingText(y: string, mo: string, d: string, w: nat, sp: string,
                       sh: string, sm: string, eh: string, em: string): string
    requires w < 7
  {
    DayText(y, mo, d, w, sp + ClockText(sh, sm, "分～", ClockText(eh, em, "分", [])))
  }

  lemma WeekdayLengths()
    ensures forall j :: 0 <= j < 7 ==> |Weekdays[j]| == 1
  {
  }

  lemma {:induction false} MatchDayText(y: string, mo: string, d: string, w: nat, q: string)
    requires w < 7 && |y| == 4 && 1 <= |mo| <= 2 && 1 <= |d| <= 2
    requires AllDigits(y) && AllDigits(mo) && AllDigits(d)
    ensures MatchDay(DayText(y, mo, d, w, q)) == Some((q, DigitsValue(y) as int, DigitsValue(mo) as int, DigitsValue(d) as int))
  {
    var t4 := d + ("日（" + (Weekdays[w] + ("）" + q)));
    DigitsOf(y, "年" + (mo + ("月" + t4)), 4, 4);
    LitOf("年", mo + ("月" + t4));
    DigitsOf(mo, "月" + t4, 1, 2);
    LitOf("月", t4);
    MatchDayOfMonthText(d, w, q);
  }

  lemma {:induction false} MatchDayOfMonthText(d: string, w: nat, q: string)
    requires w < 7 && 1 <= |d| <= 2 && AllDigits(d)
    ensures MatchDayOfMonth(d + ("日（" + (Weekdays[w] + ("）" + q)))) == Some((DigitsValue(d), q))
  {
    var t7 := "）" + q;
    var t6 := Weekdays[w] + t7;
    DigitsOf(d, "日（" + t6, 1, 2);
    LitOf("日（", t6);
    assert OneOf(t6, Weekdays) == Some(t7) by {
      WeekdayLengths();
      OneOfSameLength(Weekdays, w, t7);
    }
    LitOf("）", q);
  }

  lemma {:induction false} MatchClockText(h: string, m: string, tail: string, q: string)
    requires 1 <= |h| <= 2 && 1 <= |m| <= 2 && AllDigits(h) && AllDigits(m)
    requires tail != [] && !IsDigit(tail[0])
    ensures MatchClock(ClockText(h, m, tail, q), tail) == Some((q, DigitsValue(h) as int, DigitsValue(m) as int))
  {
    DigitsOf(h, "時" + (m + (tail + q)), 1, 2);
    LitOf("時", m + (tail + q));
    DigitsOf(m, tail + q, 1, 2);
    LitOf(tail, q);
  }

  /** Reading a broadcast time written as the listing writes it gives back its numbers. */
  lemma {:induction false} MatchListingText(y: string, mo: string, d: string, w: nat, sp: string,
                                            sh: string, sm: string, eh: string, em: string)
    requires w < 7 && |y| == 4 && 1 <= |mo| <= 2 && 1 <= |d| <= 2
    requires 1 <= |sh| <= 2 && 1 <= |sm| <= 2 && 1 <= |eh| <= 2 && 1 <= |em| <= 2
    requires AllDigits(y) && AllDigits(mo) && AllDigits(d)
    requires AllDigits(sh) && AllDigits(sm) && AllDigits(eh) && AllDigits(em)
    requires sp != [] && forall k :: 0 <= k < |sp| ==> IsRegexSpace(sp[k])
    ensures FindBroadcastTime(ListingText(y, mo, d, w, sp, sh, sm, eh, em))
         == Some((0, BroadcastTime(DigitsValue(y) as int, DigitsValue(mo) as int, DigitsValue(d) as int,
                                   DigitsValue(sh) as int, DigitsValue(sm) as int,
                                   DigitsValue(eh) as int, DigitsValue(em) as int)))
  {
    var c2 := ClockText(eh, em, "分", []);
    var c1 := ClockText(sh, sm, "分～", c2);
    var t := ListingText(y, mo, d, w, sp, sh, sm, eh, em);
    MatchDayText(y, mo, d, w, sp + c1);
    assert c1[0] == sh[0];
    SpacesOf(sp, c1);
    MatchClockText(sh, sm, "分～", c2);
    MatchClockText(eh, em, "分", []);
    LeftmostAtStart(MatchBroadcastTime, t);
  }

  /** A broadcast time written as the listing writes it is read as the two instants time.Date gives
      for its numbers. */
  lemma ParseTimeOfListing(y: string, mo: string, d: string, w: nat, sp: string,
                           sh: string, sm: string, eh: string, em: string)
    requires w < 7 && |y| == 4 && 1 <= |mo| <= 2 && 1 <= |d| <= 2
    requires 1 <= |sh| <= 2 && 1 <= |sm| <= 2 && 1 <= |eh| <= 2 && 1 <= |em| <= 2
    requires AllDigits(y) && AllDigits(mo) && AllDigits(d)
    requires AllDigits(sh) && AllDigits(sm) && AllDigits(eh) && AllDigits(em)
    requires sp != [] && forall k :: 0 <= k < |sp| ==> IsRegexSpace(sp[k])
    ensures var yv, mv, dv := DigitsValue(y) as int, DigitsValue(mo) as int, DigitsValue(d) as int;
      ParseTime(ListingText(y, mo, d, w, sp, sh, sm, eh, em))
      == Ok((Date(yv, mv, dv, DigitsValue(sh) as int, DigitsValue(sm) as int, 0),
             Date(yv, mv, dv, DigitsValue(eh) as int, DigitsValue(em) as int, 0)))
  {
    MatchListingText(y, mo, d, w, sp, sh, sm, eh, em);
  }

  /** A listed hour h below 48 of a valid day, read as time.Date reads it: an hour from 24 on is
      hour h - 24 of the next calendar day. */
  lemma ListedHour(y: int, mo: int, d: int, h: int, mi: int)
    requires Valid(DateTime(y, mo, d, 0, mi, 0)) && 0 <= h < 48
    ensures Date(y, mo, d, h, mi, 0)
         == if h < 24 then DateTime(y, mo, d, h, mi, 0)
            else var n := NextDay(y, mo, d); DateTime(n.0, n.1, n.2, h - 24, mi, 0)
  {
    if h < 24 {
      DateOfValid(DateTime(y, mo, d, h, mi, 0));
    } else {
      var n := NextDay(y, mo, d);
      var u := DateTime(n.0, n.1, n.2, h - 24, mi, 0);
      SecondsOfValid(u);
      SecondsOfValid(DateTime(y, mo, d, 0, mi, 0));
      assert Seconds(Date(y, mo, d, h, mi, 0)) == Seconds(DateTime(y, mo, d, 0, mi, 0)) + h * 3600;
      SecondsInjective(Date(y, mo, d, h, mi, 0), u);
    }
  }

  /** The numbers written in the unit tests' listings. */
  lemma ExampleDigits()
    ensures DigitsValue("2017") == 2017 && DigitsValue("8") == 8 && DigitsValue("9") == 9
    ensures DigitsValue("00") == 0 && DigitsValue("05") == 5 && DigitsValue("10") == 10
    ensures DigitsValue("11") == 11 && DigitsValue("15") == 15 && DigitsValue("18") == 18
    ensures DigitsValue("19") == 19 && DigitsValue("20") == 20 && DigitsValue("23") == 23
    ensures DigitsValue("24") == 24 && DigitsValue("25") == 25 && DigitsValue("26") == 26
  {
    assert "00"[..1] == "0" && "05"[..1] == "0" && "10"[..1] == "1" && "11"[..1] == "1";
    assert "15"[..1] == "1" && "18"[..1] == "1" && "19"[..1] == "1" && "20"[..1] == "2";
    assert "23"[..1] == "2" && "24"[..1] == "2" && "25"[..1] == "2" && "26"[..1] == "2";
    assert DigitsValue("201") == 201 by { assert "201"[..2] == "20"; }
    assert "2017"[..3] == "201";
  }

  lemma LateListingRead()
    ensures ParseTime(ListingText("2017", "11", "18", 6, "  ", "25", "20", "26", "10"))
         == Ok((Date(2017, 11, 18, 25, 20, 0), Date(2017, 11, 18, 26, 10, 0)))
  {
    ExampleDigits();
    ParseTimeOfListing("2017", "11", "18", 6, "  ", "25", "20", "26", "10");
  }

  /** "2017年11月18日（土）  25時20分～26時10分" of the unit tests: both hours lie past midnight and
      are read on 19 November. */
  lemma ParseTimeExampleLate()
    ensures ParseTime(ListingText("2017", "11", "18", 6, "  ", "25", "20", "26", "10"))
         == Ok((DateTime(2017, 11, 19, 1, 20, 0), DateTime(2017, 11, 19, 2, 10, 0)))
  {
    LateListingRead();
    ListedHour(2017, 11, 18, 25, 20);
    ListedHour(2017, 11, 18, 26, 10);
  }

  lemma MidnightListingRead()
    ensures ParseTime(ListingText("2017", "11", "19", 0, "  ", "23", "10", "24", "05"))
         == Ok((Date(2017, 11, 19, 23, 10, 0), Date(2017, 11, 19, 24, 5, 0)))
  {
    ExampleDigits();
    ParseTimeOfListing("2017", "11", "19", 0, "  ", "23", "10", "24", "05");
  }

  /** "2017年11月19日（日）  23時10分～24時05分" of the unit tests: the end at hour 24 is midnight
      opening 20 November. */
  lemma ParseTimeExampleMidnight()
    ensures ParseTime(ListingText("2017", "11", "19", 0, "  ", "23", "10", "24", "05"))
         == Ok((DateTime(2017, 11, 19, 23, 10, 0), DateTime(2017, 11, 20, 0, 5, 0)))
  {
    MidnightListingRead();
    ListedHour(2017, 11, 19, 23, 10);
    ListedHour(2017, 11, 19, 24, 5);
  }

  lemma MorningListingRead()
    ensures ParseTime(ListingText("2017", "11", "19", 0, "  ", "8", "15", "9", "00"))
         == Ok((Date(2017, 11, 19, 8, 15, 0), Date(2017, 11, 19, 9, 0, 0)))
  {
    ExampleDigits();
    ParseTimeOfListing("2017", "11", "19", 0, "  ", "8", "15", "9", "00");
  }

  /** "2017年11月19日（日）  8時15分～9時00分" of the unit tests: single-digit hours, same day. */
  lemma ParseTimeExampleMorning()
    ensures ParseTime(ListingText("2017", "11", "19", 0, "  ", "8", "15", "9", "00"))
         == Ok((DateTime(2017, 11, 19, 8, 15, 0), DateTime(2017, 11, 19, 9, 0, 0)))
  {
    MorningListingRead();
    ListedHour(2017, 11, 19, 8, 15);
    ListedHour(2017, 11, 19, 9, 0);
  }

  // ---------------------------------------------------------------------------
  // NewPage, Duration and Dump

  /** NewPage: the id is the last element of the page's URL and no `at` job is known yet. */
  function NewPage(url: string, title: string, provider: Provider, timeStr: string): (r: Result<Page, TimeError>)
    ensures r.Err? <==> ParseTime(timeStr).Err?
    ensures r.Ok? ==> r.value.id == Base(url) && r.value.atId == 0
    ensures r.Ok? ==> r.value.url == url && r.value.title == title && r.value.provider == provider
    ensures r.Ok? ==> (r.value.start, r.value.end) == ParseTime(timeStr).value
  {
    var (s, e) :- ParseTime(timeStr);
    Ok(Page(Base(url), url, title, provider, s, e, 0))
  }

  /** Page.Duration: End - Start in whole seconds. */
  function Duration(p: Page): (r: int)
    ensures -MaxDurationSeconds <= r <= MaxDurationSeconds
  {
    SubSeconds(p.end, p.start)
  }

  /** The name of the recording: "<20060102T1504 of the start>-<title>.ts". */
  function FileName(p: Page): string
  {
    FormatPrefix(p.start) + "-" + p.title + ".ts"
  }

  /** The recpt1 invocation that records the page: the words Page.Book hands to echo, and those
      Dump writes after "echo". */
  function Recpt1Args(p: Page): seq<string>
  {
    ["recpt1", "--b25", "--sid", "hd", "--strip", p.provider, Itoa(Duration(p)), FileName(p)]
  }

  /** Page.Dump: the booking command, its words joined by single spaces, the last word a newline. */
  function Dump(p: Page): string
  {
    Join(["echo"] + Recpt1Args(p) + ["|", "at", "-t", FormatAt(p.start), "\n"], " ")
  }

  /** The `at` tail of the command, joined with spaces. */
  lemma {:induction false} AtTailText(stamp: string)
    ensures Join(["|", "at", "-t", stamp, "\n"], " ") == "| at -t " + stamp + " \n"
  {
    var b3 := [stamp, "\n"];
    var b2 := ["-t"] + b3;
    var b1 := ["at"] + b2;
    JoinCons(stamp, ["\n"], " ");
    JoinCons("-t", b3, " ");
    JoinCons("at", b2, " ");
    JoinCons("|", b1, " ");
    assert ["|", "at", "-t", stamp, "\n"] == ["|"] + b1;
  }

  /** Joining "echo", the words and the `at` tail with spaces. */
  lemma {:induction false} EchoAtShape(args: seq<string>, stamp: string)
    requires args != []
    ensures Join(["echo"] + args + ["|", "at", "-t", stamp, "\n"], " ")
         == "echo " + Join(args, " ") + " | at -t " + stamp + " \n"
  {
    var b := ["|", "at", "-t", stamp, "\n"];
    AtTailText(stamp);
    JoinCons("echo", args, " ");
    JoinAppend(["echo"] + args, b, " ");
  }

  /** Dump reads "echo <recpt1 words> | at -t <start> " followed by the newline. */
  lemma {:induction false} DumpLayout(p: Page)
    ensures Dump(p) == "echo " + Join(Recpt1Args(p), " ") + " | at -t " + FormatAt(p.start) + " \n"
  {
    EchoAtShape(Recpt1Args(p), FormatAt(p.start));
  }

  // ---------------------------------------------------------------------------
  // parseAtID

  const DayNames: seq<string> := ["Sun", "Mon", "Tue", "Wed", "Thu", "Fri", "Sat"]

  /** The pattern `job ([0-9]+) at (Sun|…|Sat) (Jan|…|Dec) \d{1,2} \d{1,2}:\d{1,2}:\d{1,2} \d{4}`
      at the start of t: the digits of the job number. */
  function MatchAtJob(t: string): (r: Option<string>)
    ensures r.Some? ==> r.value != [] && AllDigits(r.value)
  {
    var t1 :- Lit(t, "job ");
    var (_, t2) :- Digits(t1, 1, |t1|);
    var t3 :- Lit(t2, " at ");
    var _ :- MatchAtDate(t3);
    Some(t1[..|t1| - |t2|])
  }

  /** `(Sun|…|Sat) (Jan|…|Dec) \d{1,2} ` at the start of t, then the clock and the year: the rest of t. */
  function MatchAtDate(t: string): Option<string>
  {
    var t1 :- OneOf(t, DayNames);
    var t2 :- Lit(t1, " ");
    var t3 :- OneOf(t2, MonthNames);
    var t4 :- Lit(t3, " ");
    var (_, t5) :- Digits(t4, 1, 2);
    var t6 :- Lit(t5, " ");
    MatchAtClock(t6)
  }

  /** `\d{1,2}:\d{1,2}:\d{1,2} \d{4}` at the start of t: the rest of t. */
  function MatchAtClock(t: string): Option<string>
  {
    var (_, t1) :- Digits(t, 1, 2);
    var t2 :- Lit(t1, ":");
    var (_, t3) :- Digits(t2, 1, 2);
    var t4 :- Lit(t3, ":");
    var (_, t5) :- Digits(t4, 1, 2);
    var t6 :- Lit(t5, " ");
    var (_, t7) :- Digits(t6, 4, 4);
    Some(t7)
  }

  /** parseAtID: the job number of the first `at` acknowledgement in s, 0 when there is none; a
      number beyond int64 ends the process (log.Fatalln), here an error. */
  function ParseAtId(s: string): (r: Result<int, NumError>)
    ensures Leftmost(MatchAtJob, s, 0).None? ==> r == Ok(0)
    ensures Leftmost(MatchAtJob, s, 0).Some? ==> var id := Leftmost(MatchAtJob, s, 0).value.1;
      (DigitsValue(id) <= MaxInt64 ==> r == Ok(DigitsValue(id)))
      && (DigitsValue(id) > MaxInt64 ==> r == Err(ErrRange))
    ensures r.Ok? ==> r.value >= 0
  {
    match Leftmost(MatchAtJob, s, 0)
    case None => Ok(0)
    case Some((_, id)) => Atoi(id)
  }

  /** A text in which "job " never occurs holds no acknowledgement: its job number is 0. */
  lemma ParseAtIdWithoutJob(s: string)
    requires forall k :: 0 <= k <= |s| ==> !HasPrefix(s[k..], "job ")
    ensures ParseAtId(s) == Ok(0)
  {
  }

  /** The acknowledgement `at` writes, "job <id> at <Dow> <Mon> <d> <h>:<m>:<s> <year>", followed by q. */
  function AckText(id: string, w: nat, mon: nat, d: string, h: string, m: string, sec: string, y: string,
                   q: string): string
    requires w < 7 && 1 <= mon <= 12
  {
    "job " + (id + (" at " + (DayNames[w] + (" " + (MonthNames[mon - 1] + (" " + (d + (" " +
      ClockLine(h, m, sec, y, q)))))))))
  }

  /** "<h>:<m>:<s> <year>" followed by q. */
  function ClockLine(h: string, m: string, sec: string, y: string, q: string): string
  {
    h + (":" + (m + (":" + (sec + (" " + (y + q))))))
  }

  lemma NameLengths()
    ensures forall j :: 0 <= j < 7 ==> |DayNames[j]| == 3
    ensures forall j :: 0 <= j < 12 ==> |MonthNames[j]| == 3
  {
  }

  lemma {:induction false} MatchAtClockText(h: string, m: string, sec: string, y: string, q: string)
    requires 1 <= |h| <= 2 && 1 <= |m| <= 2 && 1 <= |sec| <= 2 && |y| == 4
    requires AllDigits(h) && AllDigits(m) && AllDigits(sec) && AllDigits(y)
    ensures MatchAtClock(ClockLine(h, m, sec, y, q)) == Some(q)
  {
    var t5 := " " + (y + q);
    var t3 := ":" + (sec + t5);
    DigitsOf(h, ":" + (m + t3), 1, 2);
    LitOf(":", m + t3);
    DigitsOf(m, t3, 1, 2);
    LitOf(":", sec + t5);
    DigitsOf(sec, t5, 1, 2);
    LitOf(" ", y + q);
    DigitsOf(y, q, 4, 4);
  }

  lemma {:induction false} MatchAtDateText(w: nat, mon: nat, d: string, c: string)
    requires w < 7 && 1 <= mon <= 12 && 1 <= |d| <= 2 && AllDigits(d)
    requires MatchAtClock(c).Some?
    ensures MatchAtDate(DayNames[w] + (" " + (MonthNames[mon - 1] + (" " + (d + (" " + c)))))) == MatchAtClock(c)
  {
    var t3 := " " + (d + (" " + c));
    var t1 := " " + (MonthNames[mon - 1] + t3);
    assert OneOf(DayNames[w] + t1, DayNames) == Some(t1) by {
      NameLengths();
      OneOfSameLength(DayNames, w, t1);
    }
    LitOf(" ", MonthNames[mon - 1] + t3);
    assert OneOf(MonthNames[mon - 1] + t3, MonthNames) == Some(t3) by {
      NameLengths();
      OneOfSameLength(MonthNames, mon - 1, t3);
    }
    LitOf(" ", d + (" " + c));
    DigitsOf(d, " " + c, 1, 2);
    LitOf(" ", c);
  }

  /** The job number of a well-formed acknowledgement is the number it names. */
  lemma {:induction false} ParseAtIdOfAck(id: string, w: nat, mon: nat, d: string, h: string, m: string,
                                          sec: string, y: string, q: string)
    requires w < 7 && 1 <= mon <= 12 && id != [] && AllDigits(id) && DigitsValue(id) <= MaxInt64
    requires 1 <= |d| <= 2 && 1 <= |h| <= 2 && 1 <= |m| <= 2 && 1 <= |sec| <= 2 && |y| == 4
    requires AllDigits(d) && AllDigits(h) && AllDigits(m) && AllDigits(sec) && AllDigits(y)
    ensures ParseAtId(AckText(id, w, mon, d, h, m, sec, y, q)) == Ok(DigitsValue(id) as int)
  {
    var c := ClockLine(h, m, sec, y, q);
    var t3 := DayNames[w] + (" " + (MonthNames[mon - 1] + (" " + (d + (" " + c)))));
    var t1 := id + (" at " + t3);
    MatchAtClockText(h, m, sec, y, q);
    MatchAtDateText(w, mon, d, c);
    LitOf("job ", t1);
    DigitsOf(id, " at " + t3, 1, |t1|);
    LitOf(" at ", t3);
    assert t1[..|t1| - |" at " + t3|] == id;
    LeftmostAtStart(MatchAtJob, "job " + t1);
  }

  /** The acknowledgement "job 1 at Sun Nov 19 14:25:00 2017" of the unit tests gives job 1. */
  lemma AckExampleOne()
    ensures ParseAtId(AckText("1", 0, 11, "19", "14", "25", "00", "2017", [])) == Ok(1)
  {
    assert DigitsValue("1") == 1;
    ParseAtIdOfAck("1", 0, 11, "19", "14", "25", "00", "2017", []);
  }

  /** The acknowledgement "job 24 at Sun Nov 19 21:06:00 2017" of the unit tests gives job 24. */
  lemma AckExampleTwentyFour()
    ensures ParseAtId(AckText("24", 0, 11, "19", "21", "06", "00", "2017", [])) == Ok(24)
  {
    assert DigitsValue("24") == 24 by { assert "24"[..1] == "2"; }
    ParseAtIdOfAck("24", 0, 11, "19", "21", "06", "00", "2017", []);
  }

  /** The acknowledgement "job 10773 at Fri Nov 24 14:20:00 2017" of the unit tests gives job 10773. */
  lemma AckExampleLarge()
    ensures ParseAtId(AckText("10773", 5, 11, "24", "14", "20", "00", "2017", [])) == Ok(10773)
  {
    assert DigitsValue("10") == 10 by { assert "10"[..1] == "1"; }
    assert DigitsValue("107") == 107 by { assert "107"[..2] == "10"; }
    assert DigitsValue("1077") == 1077 by { assert "1077"[..3] == "107"; }
    assert DigitsValue("10773") == 10773 by { assert "10773"[..4] == "1077"; }
    ParseAtIdOfAck("10773", 5, 11, "24", "14", "20", "00", "2017", []);
  }
}
