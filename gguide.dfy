/** The booking tool for the G-guide listing site: which programmes it books by their titles, how
    it reads a programme page's title, broadcast time and channel, and the `recpt1 … | at` command
    line that books a recording. The title patterns and the current time are parameters. */
module GGuide {
  import opened Wrappers
  import opened GoStrings
  import opened GoTime
  import opened Scan

  // ---------------------------------------------------------------------------
  // filterProgramWithTitle

  /** The title pattern `.*x.*` matches s: x occurs in s (`.*` may match nothing). */
  predicate Contains(s: string, x: string)
    decreases |s|
  {
    HasPrefix(s, x) || (s != [] && Contains(s[1..], x))
  }

  /** Contains reads as "x starts at some position of s". */
  lemma {:induction false} ContainsAt(s: string, x: string)
    ensures Contains(s, x) <==> exists i :: 0 <= i <= |s| && HasPrefix(s[i..], x)
    decreases |s|
  {
    assert s[0..] == s;
    if s != [] {
      ContainsAt(s[1..], x);
      if Contains(s, x) && !HasPrefix(s, x) {
        var i :| 0 <= i <= |s| - 1 && HasPrefix(s[1..][i..], x);
        assert s[1..][i..] == s[i + 1..];
      }
      if exists i :: 0 <= i <= |s| && HasPrefix(s[i..], x) {
        var i :| 0 <= i <= |s| && HasPrefix(s[i..], x);
        if i > 0 {
          assert s[i..] == s[1..][i - 1..];
        }
      }
    }
  }

  /** One of the compiled patterns matches the title: the early-return search loop. */
  function AnyMatch(patterns: seq<string>, title: string): (r: bool)
    ensures r <==> exists k :: 0 <= k < |patterns| && Contains(title, patterns[k])
  {
    if patterns == [] then false
    else
      var rest := AnyMatch(patterns[1..], title);
      assert forall k :: 1 <= k < |patterns| ==> patterns[1..][k - 1] == patterns[k];
      Contains(title, patterns[0]) || rest
  }

  /** filterProgramWithTitle: a title is booked when no excludes pattern matches it and some includes
      pattern does; an excludes pattern wins over every includes pattern. */
  function FilterProgramWithTitle(title: string, includes: seq<string>, excludes: seq<string>): (r: bool)
    ensures r <==> ((forall k :: 0 <= k < |excludes| ==> !Contains(title, excludes[k]))
                    && (exists k :: 0 <= k < |includes| && Contains(title, includes[k])))
  {
    if AnyMatch(excludes, title) then false else AnyMatch(includes, title)
  }

  // ---------------------------------------------------------------------------
  // escapeTitle

  /** ReplaceCharMap: the characters a shell treats specially, each with the full-width stand-in
      that replaces it. Every key and every value is a single code point. */
  const ReplaceCharMap: map<char, char> := map[
    '/' := '／', ' ' := '_', '<' := '＜', '>' := '＞', '?' := '？', '(' := '（', ')' := '）',
    '#' := '＃', '*' := '＊', '$' := '＄', '&' := '＆', '^' := '＾', '!' := '！', '@' := '＠',
    '%' := '％', '+' := '＋', '[' := '【', ']' := '】'
  ]

  function EscapeChar(c: char): char { if c in ReplaceCharMap then ReplaceCharMap[c] else c }

  /** No stand-in is itself replaced, and none is white space. */
  lemma ReplacementsSafe(c: char)
    requires c in ReplaceCharMap
    ensures ReplaceCharMap[c] !in ReplaceCharMap && !IsSpace(ReplaceCharMap[c])
  {
    KeysAscii(c);
    var v := ReplaceCharMap[c];
    StandInsWide(c);
    if v == '_' {
      GraphicNotSpace(v);
    } else {
      WideNotSpace(v);
    }
    if v in ReplaceCharMap {
      KeysAscii(v);
    }
  }

  /** The keys are ASCII punctuation up to '^'. */
  lemma KeysAscii(c: char)
    requires c in ReplaceCharMap
    ensures ' ' <= c <= '^'
  {
  }

  /** The stand-ins are '_' and characters from U+3010 on. */
  lemma StandInsWide(c: char)
    requires c in ReplaceCharMap
    ensures ReplaceCharMap[c] == '_' || ReplaceCharMap[c] >= '\U{3010}'
  {
  }

  /** The title with every character of ReplaceCharMap's keys replaced by its stand-in. */
  function Escaped(t: string): string
  {
    seq(|t|, k requires 0 <= k < |t| => EscapeChar(t[k]))
  }

  /** escapeTitle: strings.Replace(t, k, v, -1) for each entry of ReplaceCharMap, the keys taken in
      the given order, which stands for Go's unspecified map iteration order. Since no stand-in is a
      key, every order gives the same title. */
  method EscapeTitle(t: string, order: seq<char>) returns (r: string)
    requires forall c :: c in order <==> c in ReplaceCharMap
    ensures r == Escaped(t)
  {
    r := t;
    var i := 0;
    while i < |order|
      invariant 0 <= i <= |order|
      invariant |r| == |t|
      invariant forall k :: 0 <= k < |t| ==> r[k] == if t[k] in order[..i] then EscapeChar(t[k]) else t[k]
    {
      var key := order[i];
      var next := ReplaceAll(r, [key], [ReplaceCharMap[key]]);
      ReplaceAllCodePoint(r, key, ReplaceCharMap[key]);
      assert order[..i + 1] == order[..i] + [key];
      forall k | 0 <= k < |t|
        ensures next[k] == if t[k] in order[..i + 1] then EscapeChar(t[k]) else t[k]
      {
        if t[k] in order[..i] {
          ReplacementsSafe(t[k]);
        }
      }
      r := next;
      i := i + 1;
    }
    assert order[..i] == order;
  }

  /** An escaped title holds no key of ReplaceCharMap, and its other characters are as they were. */
  lemma EscapedSafe(t: string)
    ensures |Escaped(t)| == |t|
    ensures forall k :: 0 <= k < |t| ==> Escaped(t)[k] !in ReplaceCharMap
    ensures forall k :: 0 <= k < |t| && t[k] !in ReplaceCharMap ==> Escaped(t)[k] == t[k]
  {
    forall k | 0 <= k < |t|
      ensures Escaped(t)[k] !in ReplaceCharMap
    {
      if t[k] in ReplaceCharMap {
        ReplacementsSafe(t[k]);
      }
    }
  }

  /** Escaping an escaped title changes nothing. */
  lemma EscapedIdempotent(t: string)
    ensures Escaped(Escaped(t)) == Escaped(t)
  {
    EscapedSafe(t);
  }

  /** Escaping keeps a trimmed title trimmed, and leaves no space in it. */
  lemma EscapedTrimmed(t: string)
    requires Trimmed(t)
    ensures Trimmed(Escaped(t)) && ' ' !in Escaped(t)
  {
    EscapedSafe(t);
    var e := Escaped(t);
    if t != [] {
      if t[0] in ReplaceCharMap { ReplacementsSafe(t[0]); }
      if t[|t| - 1] in ReplaceCharMap { ReplacementsSafe(t[|t| - 1]); }
    }
    assert ' ' in ReplaceCharMap;
  }

  // ---------------------------------------------------------------------------
  // extractStartEndTime

  /** The numbers GGuideTimePattern captures: month, day and the two clock readings. */
  datatype GuideTime = GuideTime(month: int, day: int, startHour: int, startMinute: int,
                                 endHour: int, endMinute: int)

  /** `(\d{1,2})\:(\d{1,2})` at the start of t: the hour, the minute and the rest of t. */
  function MatchHourMinute(t: string): Option<(int, int, string)>
  {
    var (h, t1) :- Digits(t, 1, 2);
    var t2 :- Lit(t1, ":");
    var (m, t3) :- Digits(t2, 1, 2);
    Some((h as int, m as int, t3))
  }

  /** `(\d{1,2})\:(\d{1,2}) ～ (\d{1,2})\:(\d{1,2})` at the start of t: the four numbers. */
  function MatchClocks(t: string): Option<(int, int, int, int)>
  {
    var (sh, sm, t1) :- MatchHourMinute(t);
    var t2 :- Lit(t1, " ～ ");
    var (eh, em, _) :- MatchHourMinute(t2);
    Some((sh, sm, eh, em))
  }

  /** `\) ` followed by the clocks, at the start of t. */
  function MatchCloseParen(t: string): Option<(int, int, int, int)>
  {
    var t1 :- Lit(t, ") ");
    MatchClocks(t1)
  }

  /** Where the first line of u ends: `.` does not match a newline. */
  function LineEnd(u: string): (n: nat)
    ensures n <= |u| && '\n' !in u[..n]
  {
    var i := IndexOf(u, '\n');
    if i < 0 then |u| else i
  }

  /** GGuideTimePattern at the start of t. */
  function MatchGuideTime(t: string): Option<GuideTime>
  {
    var (mo, t1) :- Digits(t, 1, 2);
    var t2 :- Lit(t1, "/");
    var (d, t3) :- Digits(t2, 1, 2);
    var u :- Lit(t3, " (");
    var (_, (sh, sm, eh, em)) :- Rightmost(MatchCloseParen, u, LineEnd(u));
    Some(GuideTime(mo as int, d as int, sh, sm, eh, em))
  }

  /** GGuideTimePattern.FindStringSubmatch(t): the leftmost match. */
  function FindGuideTime(t: string): Option<(nat, GuideTime)>
  {
    Leftmost(MatchGuideTime, t, 0)
  }

  datatype GuideError = NoTimeFound | MonthOutOfRange(month: int)

  /** The year of a listing: next year when its month is already past in this one. */
  function ListingYear(month: int, now: DateTime): int
  {
    if month < now.month then now.year + 1 else now.year
  }

  /** The instants of the listed numbers: a start after the end moves the end on by one day. */
  function GuideSpan(g: GuideTime, now: DateTime): (r: (DateTime, DateTime))
    requires 1 <= g.month <= 12
  {
    var year := ListingYear(g.month, now);
    var start := Date(year, g.month, g.day, g.startHour, g.startMinute, 0);
    var end := Date(year, g.month, g.day, g.endHour, g.endMinute, 0);
    (start, if After(start, end) then AddDate(end, 0, 0, 1) else end)
  }

  /** extractStartEndTime: the broadcast of the listing text t, read in the year the rule picks. The
      captured groups are one or two digits, so strconv.Atoi cannot fail on them. */
  function ExtractStartEndTime(t: string, now: DateTime): (r: Result<(DateTime, DateTime), GuideError>)
    ensures r == Err(NoTimeFound) <==> FindGuideTime(t).None?
    ensures r.Err? && r.error.MonthOutOfRange? <==>
              FindGuideTime(t).Some? && !(1 <= FindGuideTime(t).value.1.month <= 12)
    ensures r.Ok? ==> 1 <= FindGuideTime(t).value.1.month <= 12
                      && r.value == GuideSpan(FindGuideTime(t).value.1, now)
  {
    match FindGuideTime(t)
    case None => Err(NoTimeFound)
    case Some((_, g)) =>
      if g.month < 1 || g.month > 12 then Err(MonthOutOfRange(g.month))
      else Ok(GuideSpan(g, now))
  }

  /** The end is moved on by a day exactly when the start clock is past the end clock; the
      programme then runs across midnight. */
  lemma GuideSpanLength(g: GuideTime, now: DateTime)
    requires 1 <= g.month <= 12
    ensures var (s, e) := GuideSpan(g, now); var raw := ((g.endHour - g.startHour) * 60 + g.endMinute - g.startMinute) * 60;
      Seconds(e) - Seconds(s) == (if raw < 0 then raw + 86400 else raw)
  {
    var year := ListingYear(g.month, now);
    var start := Date(year, g.month, g.day, g.startHour, g.startMinute, 0);
    var end := Date(year, g.month, g.day, g.endHour, g.endMinute, 0);
    SameDayDistance(year, g.month, g.day, g.startHour, g.startMinute, g.endHour, g.endMinute);
    AddOneDay(end);
  }

  /** The start is not after the end exactly when the start clock is at most a day past the end
      clock: with hours up to 99 a listing such as "99:00 ～ 0:00" keeps a start after its end. */
  lemma GuideSpanOrdered(g: GuideTime, now: DateTime)
    requires 1 <= g.month <= 12
    ensures var (s, e) := GuideSpan(g, now);
      !After(s, e) <==> (g.startHour - g.endHour) * 60 + g.startMinute - g.endMinute <= 1440
  {
    GuideSpanLength(g, now);
  }

  /** A listing is never placed in a month that has already begun before now's: its date is read in
      now's year from now's month on, and in the next year before it. */
  lemma ListingNotInPastMonth(g: GuideTime, now: DateTime)
    requires Valid(now) && 1 <= g.month <= 12
    requires 1 <= g.day <= DaysIn(ListingYear(g.month, now), g.month)
    requires 0 <= g.startHour < 24 && 0 <= g.startMinute < 60
    ensures var s := GuideSpan(g, now).0;
      s == DateTime(ListingYear(g.month, now), g.month, g.day, g.startHour, g.startMinute, 0)
      && !Before(s, DateTime(now.year, now.month, 1, 0, 0, 0))
  {
    var year := ListingYear(g.month, now);
    var s := DateTime(year, g.month, g.day, g.startHour, g.startMinute, 0);
    DateOfValid(s);
    SecondsOrder(s, DateTime(now.year, now.month, 1, 0, 0, 0));
  }

  // ---------------------------------------------------------------------------
  // Reading back the text of a listing

  /** The time text as G-guide writes it: "<mo>/<d> (<w>) <sh>:<sm> ～ <eh>:<em>", then q. */
  function GuideText(mo: string, d: string, w: string, sh: string, sm: string, eh: string, em: string): string
  {
    mo + ("/" + (d + (" (" + (w + (") " + ClocksText(sh, sm, eh, em))))))
  }

  function ClocksText(sh: string, sm: string, eh: string, em: string): string
  {
    sh + (":" + (sm + (" ～ " + (eh + (":" + em)))))
  }

  predicate ClockDigits2(x: string) { 1 <= |x| <= 2 && AllDigits(x) }

  lemma MatchHourMinuteText(h: string, m: string, q: string)
    requires ClockDigits2(h) && ClockDigits2(m) && (q == [] || !IsDigit(q[0]))
    ensures MatchHourMinute(h + (":" + (m + q))) == Some((DigitsValue(h) as int, DigitsValue(m) as int, q))
  {
    DigitsOf(h, ":" + (m + q), 1, 2);
    LitOf(":", m + q);
    DigitsOf(m, q, 1, 2);
  }

  lemma MatchClocksText(sh: string, sm: string, eh: string, em: string)
    requires ClockDigits2(sh) && ClockDigits2(sm) && ClockDigits2(eh) && ClockDigits2(em)
    ensures MatchClocks(ClocksText(sh, sm, eh, em))
         == Some((DigitsValue(sh) as int, DigitsValue(sm) as int, DigitsValue(eh) as int, DigitsValue(em) as int))
  {
    MatchHourMinuteText(sh, sm, " ～ " + (eh + (":" + em)));
    LitOf(" ～ ", eh + (":" + em));
    MatchHourMinuteText(eh, em, []);
    assert em + [] == em;
  }

  /** The clock text holds neither a closing parenthesis nor a newline. */
  lemma ClocksTextPlain(sh: string, sm: string, eh: string, em: string)
    requires ClockDigits2(sh) && ClockDigits2(sm) && ClockDigits2(eh) && ClockDigits2(em)
    ensures var c := ClocksText(sh, sm, eh, em); c != [] && ')' !in c && '\n' !in c
  {
    assert ')' !in sh && ')' !in sm && ')' !in eh && ')' !in em;
    assert '\n' !in sh && '\n' !in sm && '\n' !in eh && '\n' !in em;
  }

  /** No position after the weekday's closing parenthesis opens with ") ". */
  lemma NoCloseParenAfter(w: string, c: string)
    requires ')' !in c
    ensures var u := w + (") " + c); forall i :: |w| < i <= |u| ==> MatchCloseParen(u[i..]).None?
  {
    var u := w + (") " + c);
    forall i | |w| < i <= |u|
      ensures MatchCloseParen(u[i..]).None?
    {
      if i < |u| {
        if i == |w| + 1 {
          assert u[i] == ' ';
        } else {
          assert u[i] == c[i - |w| - 2];
        }
        assert u[i..][0] == u[i];
      }
      CloseParenFirst(u[i..]);
    }
  }

  lemma CloseParenFirst(t: string)
    requires t == [] || t[0] != ')'
    ensures MatchCloseParen(t).None?
  {
    assert !HasPrefix(t, ") ");
  }

  /** After the weekday, the search settles on the parenthesis that closes it. */
  lemma MatchAfterWeekday(w: string, c: string, r: (int, int, int, int))
    requires '\n' !in w && '\n' !in c && ')' !in c
    requires MatchClocks(c) == Some(r)
    ensures var u := w + (") " + c); Rightmost(MatchCloseParen, u, LineEnd(u)) == Some((|w|, r))
  {
    var u := w + (") " + c);
    assert LineEnd(u) == |u| by {
      assert '\n' !in u;
    }
    NoCloseParenAfter(w, c);
    RightmostSkip(MatchCloseParen, u, |w|, |u|);
    assert MatchCloseParen(u[|w|..]) == Some(r) by {
      LitOf(") ", c);
      assert u[|w|..] == ") " + c;
    }
  }

  /** Reading a time text written as G-guide writes it gives back its numbers, whatever the
      weekday between the parentheses says, as long as it stays on one line. */
  lemma FindGuideTimeOfText(mo: string, d: string, w: string, sh: string, sm: string, eh: string, em: string)
    requires ClockDigits2(mo) && ClockDigits2(d) && '\n' !in w
    requires ClockDigits2(sh) && ClockDigits2(sm) && ClockDigits2(eh) && ClockDigits2(em)
    ensures FindGuideTime(GuideText(mo, d, w, sh, sm, eh, em))
         == Some((0, GuideTime(DigitsValue(mo) as int, DigitsValue(d) as int, DigitsValue(sh) as int,
                               DigitsValue(sm) as int, DigitsValue(eh) as int, DigitsValue(em) as int)))
  {
    var c := ClocksText(sh, sm, eh, em);
    var u := w + (") " + c);
    MatchClocksText(sh, sm, eh, em);
    ClocksTextPlain(sh, sm, eh, em);
    MatchAfterWeekday(w, c, (DigitsValue(sh) as int, DigitsValue(sm) as int, DigitsValue(eh) as int, DigitsValue(em) as int));
    DigitsOf(mo, "/" + (d + (" (" + u)), 1, 2);
    LitOf("/", d + (" (" + u));
    DigitsOf(d, " (" + u, 1, 2);
    LitOf(" (", u);
    LeftmostAtStart(MatchGuideTime, GuideText(mo, d, w, sh, sm, eh, em));
  }

  // ---------------------------------------------------------------------------
  // Programmes and the booking command

  /** The metadata extractProgramData reads from a programme page. */
  datatype Program = Program(url: string, title: string, start: DateTime, end: DateTime, channel: string,
                             provider: string, summary: string, description: string)

  /** ProviderMap: the channel names of the listing and the recpt1 channel codes. The name of
      TOKYO MX holds an ideographic space. */
  const ProviderMap: map<string, string> := map[
    "ＮＨＫ総合１・東京(Ch.1)" := "27",
    "ＮＨＫＥテレ１・東京(Ch.2)" := "26",
    "日テレ(Ch.4)" := "25",
    "テレビ朝日(Ch.5)" := "24",
    "ＴＢＳ(Ch.6)" := "22",
    "テレビ東京(Ch.7)" := "23",
    "フジテレビ(Ch.8)" := "21",
    "ＴＯＫＹＯ\U{3000}ＭＸ１(Ch.9)" := "16",
    "放送大学１(Ch.12)" := "28",
    "ＮＨＫ ＢＳ１(Ch.1)" := "BS15_0",
    "ＮＨＫ ＢＳプレミアム(Ch.3)" := "BS03_1",
    "ＢＳ日テレ(Ch.4)" := "BS13_0",
    "ＢＳ朝日(Ch.5)" := "BS01_0",
    "ＢＳ-ＴＢＳ(Ch.6)" := "BS01_1",
    "ＢＳテレ東(Ch.7)" := "BS01_2",
    "ＢＳフジ(Ch.8)" := "BS13_1",
    "BS11イレブン(Ch.11)" := "BS09_0",
    "BS12 トゥエルビ(Ch.12)" := "BS09_2"
  ]

  /** ProviderMap[name]: an unknown channel gives Go's zero value, the empty code, not an error. */
  function ProviderOf(name: string): (r: string)
    ensures name !in ProviderMap ==> r == []
    ensures name in ProviderMap ==> r == ProviderMap[name] && r != []
    ensures ' ' !in r
  {
    if name in ProviderMap then ProviderMap[name] else []
  }

  /** The name of the recording: "<20060102T1504 of the start>-<title>.ts". */
  function ProgramFileName(p: Program): string
  {
    FormatPrefix(p.start) + "-" + p.title + ".ts"
  }

  /** The words of the recpt1 invocation. */
  function ProgramRecpt1Args(p: Program): seq<string>
  {
    ["recpt1", "--b25", "--sid", "hd", "--strip", p.provider, Itoa(SubSeconds(p.end, p.start)), ProgramFileName(p)]
  }

  /** Program.Recpt1AtCmd: echo, the recpt1 words and `| at -t <start>`, joined by single spaces. */
  function Recpt1AtCmd(p: Program): string
  {
    Join(["echo"] + ProgramRecpt1Args(p) + ["|", "at", "-t", FormatAt(p.start)], " ")
  }

  /** The `at` tail of the command, joined with spaces. */
  lemma {:induction false} AtCmdTail(stamp: string)
    ensures Join(["|", "at", "-t", stamp], " ") == "| at -t " + stamp
  {
    var b2 := ["-t", stamp];
    var b1 := ["at"] + b2;
    JoinCons("-t", [stamp], " ");
    JoinCons("at", b2, " ");
    JoinCons("|", b1, " ");
    assert ["|", "at", "-t", stamp] == ["|"] + b1;
  }

  /** Joining "echo", the words and the `at` tail with spaces. */
  lemma {:induction false} EchoAtCmdShape(args: seq<string>, stamp: string)
    requires args != []
    ensures Join(["echo"] + args + ["|", "at", "-t", stamp], " ") == "echo " + Join(args, " ") + " | at -t " + stamp
  {
    AtCmdTail(stamp);
    JoinCons("echo", args, " ");
    JoinAppend(["echo"] + args, ["|", "at", "-t", stamp], " ");
  }

  /** The command reads "echo <recpt1 words> | at -t <start>" with nothing after the stamp. */
  lemma {:induction false} Recpt1AtCmdLayout(p: Program)
    ensures Recpt1AtCmd(p) == "echo " + Join(ProgramRecpt1Args(p), " ") + " | at -t " + FormatAt(p.start)
  {
    EchoAtCmdShape(ProgramRecpt1Args(p), FormatAt(p.start));
  }

  // ---------------------------------------------------------------------------
  // extractProgramData

  /** The title of a programme page: "ウェブ検索" removed, white space trimmed, shell characters
      escaped. What is left holds no space and no key of ReplaceCharMap. */
  function CleanTitle(text: string): (r: string)
    ensures Trimmed(r) && ' ' !in r
    ensures forall k :: 0 <= k < |r| ==> r[k] !in ReplaceCharMap
  {
    var t := TrimSpace(ReplaceAll(text, "ウェブ検索", ""));
    EscapedTrimmed(t);
    EscapedSafe(t);
    Escaped(t)
  }

  /** The time text of a programme page: "この時間帯の番組表" removed, white space trimmed. */
  function CleanTimeText(text: string): (r: string)
    ensures Trimmed(r)
  {
    TrimSpace(ReplaceAll(text, "この時間帯の番組表", ""))
  }

  /** extractProgramData, given the texts of the page's elements: the title, time and channel
      texts are cleaned, the channel is looked up, and a time that cannot be read is an error. */
  method ExtractProgramData(url: string, titleText: string, timeText: string, chanText: string,
                            summaryText: string, descText: string, now: DateTime, order: seq<char>)
    returns (r: Result<Program, GuideError>)
    requires forall c :: c in order <==> c in ReplaceCharMap
    ensures r.Err? <==> ExtractStartEndTime(CleanTimeText(timeText), now).Err?
    ensures r.Err? ==> r.error == ExtractStartEndTime(CleanTimeText(timeText), now).error
    ensures r.Ok? ==> var (s, e) := ExtractStartEndTime(CleanTimeText(timeText), now).value;
      r.value == Program(url, CleanTitle(titleText), s, e, TrimSpace(chanText), ProviderOf(TrimSpace(chanText)),
                         TrimSpace(summaryText), descText)
  {
    var title := ReplaceAll(titleText, "ウェブ検索", "");
    title := TrimSpace(title);
    title := EscapeTitle(title, order);
    var times := ExtractStartEndTime(CleanTimeText(timeText), now);
    if times.Err? {
      return Err(times.error);
    }
    var chan := TrimSpace(chanText);
    r := Ok(Program(url, title, times.value.0, times.value.1, chan, ProviderOf(chan),
                    TrimSpace(summaryText), descText));
  }
}
