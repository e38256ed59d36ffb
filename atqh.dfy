/** The `atq` helper: it lists the recordings booked with `at`. Each job's id and time come from
    its line of `atq`, the recording's file name from the `recpt1` line of `at -c <id>`; the list
    is sorted by time (or by id) and may be narrowed to one day of the month. The outputs of `atq`
    and `at -c` are parameters: a job is its `atq` line with the body `at -c` prints for it. */
module Atqh {
  import opened Wrappers
  import opened GoStrings
  import opened GoTime
  import AutoBooking
  import GGuide

  /** A booked recording: the `at` job id, its start and the file it records to. */
  datatype Booking = Booking(id: string, datetime: DateTime, filename: string)

  /** The capacity of the channel the `atq` lines are sent on. */
  const MaxAtCommand := 1000

  datatype AtqhError =
    | AtqBlocked              // more `atq` lines than the channel holds: main blocks, a deadlock
    | EmptyAtqLine            // fields[0] of an empty `atq` line: an index panic
    | ShortAtqLine            // fields[5] of an `atq` line with fewer than six fields: an index panic
    | BadTime(ParseError)     // time.Parse failed: log.Fatalf
    | BadDay(NumError)        // the day argument is not a number: log.Fatalf
    | DayNotInMonth(day: int) // the day argument is outside 0..31: log.Fatalf

  // ---------------------------------------------------------------------------
  // The recpt1 line of a job

  /** The file name a line of `at -c` gives: only a line that starts with "recpt1" and splits into
      eight parts at single spaces counts, and its eighth part, trimmed, is the file name. */
  function Recpt1FileName(l: string): (r: Option<string>)
    ensures r.Some? <==> HasPrefix(l, "recpt1") && Count(l, ' ') >= 7
    ensures r.Some? ==> Trimmed(r.value)
  {
    if !HasPrefix(l, "recpt1") then None
    else
      var parts := SplitN(l, ' ', 8);
      if |parts| < 8 then None else Some(TrimSpace(parts[7]))
  }

  /** A recpt1 command whose first seven words hold no space, written out by echo, gives back its
      last word as the file name, whatever spaces that word holds. */
  lemma Recpt1LineOf(args: seq<string>)
    requires |args| == 8 && args[0] == "recpt1"
    requires forall k :: 0 <= k < 7 ==> ' ' !in args[k]
    requires Trimmed(args[7])
    ensures Recpt1FileName(Join(args, " ") + "\n") == Some(args[7])
  {
    var line := Join(args, " ") + "\n";
    var parts := args[..7] + [args[7] + "\n"];
    assert SplitN(line, ' ', 8) == parts by {
      NewlineOnLastWord(args);
      assert forall k :: 0 <= k < 7 ==> parts[k] == args[k];
      SplitNOfJoin(parts, ' ');
    }
    assert TrimSpace(parts[7]) == args[7] by {
      assert [] + args[7] + "\n" == args[7] + "\n";
      TrimSpaceOfPadded([], args[7], "\n");
    }
    JoinStartsWithFirst(args);
  }

  /** A newline after the joined words is a newline after the last word. */
  lemma NewlineOnLastWord(args: seq<string>)
    requires |args| == 8
    ensures Join(args[..7] + [args[7] + "\n"], " ") == Join(args, " ") + "\n"
  {
    assert args == args[..7] + [args[7]];
    JoinAppend(args[..7], [args[7]], " ");
    JoinAppend(args[..7], [args[7] + "\n"], " ");
  }

  lemma JoinStartsWithFirst(args: seq<string>)
    requires |args| == 8 && args[0] == "recpt1"
    ensures HasPrefix(Join(args, " ") + "\n", "recpt1")
  {
    assert Join(args, " ") == args[0] + " " + Join(args[1..], " ");
    assert (Join(args, " ") + "\n")[..6] == args[0];
  }

  /** A file name "<prefix>-<title>.ts" with a prefix free of white space is trimmed. */
  lemma FileNameTrimmed(prefix: string, title: string)
    requires prefix != [] && NoSpace(prefix)
    ensures Trimmed(prefix + "-" + title + ".ts")
  {
    var f := prefix + "-" + title + ".ts";
    assert f[0] == prefix[0];
    assert f[|f| - 1] == 's';
    GraphicNotSpace('s');
  }

  lemma NoSpaceNoBlank(s: string)
    requires NoSpace(s)
    ensures ' ' !in s && '\n' !in s
  {
  }

  /** The words both booking tools give recpt1, with a provider and a duration free of spaces and a
      trimmed file name, come back as that file name. */
  lemma Recpt1WordsOf(provider: string, duration: string, file: string)
    requires ' ' !in provider && NoSpace(duration) && Trimmed(file)
    ensures Recpt1FileName(Join(["recpt1", "--b25", "--sid", "hd", "--strip", provider, duration, file], " ") + "\n")
      == Some(file)
  {
    NoSpaceNoBlank(duration);
    var args := ["recpt1", "--b25", "--sid", "hd", "--strip", provider, duration, file];
    assert ' ' !in args[1] && ' ' !in args[2] && ' ' !in args[3] && ' ' !in args[4];
    Recpt1LineOf(args);
  }

  // ---------------------------------------------------------------------------
  // The time of a job

  /** The text atReader hands to time.Parse("2006Jan2 15:04:05", …): fields 5, 2, 3 and 4 of the
      `atq` line, the year, the month, the day and the clock. */
  function AtqTimeText(fields: seq<string>): string
    requires |fields| >= 6
  {
    fields[5] + (fields[2] + (fields[3] + (" " + fields[4])))
  }

  /** An `atq` line that shows a time as `atq` writes it is read back as that time. */
  lemma AtqTimeOfFields(fields: seq<string>, t: DateTime)
    requires Valid(t) && 0 <= t.year <= 9999 && |fields| >= 6
    requires fields[2] == MonthNames[t.month - 1] && fields[3] == Itoa(t.day)
    requires fields[4] == HmsText(t) && fields[5] == AppendInt(t.year, 4)
    ensures ParseYearMonthDayClock(AtqTimeText(fields)) == Ok(t)
  {
    ParseYearMonthDayClockOfText(t);
  }

  // ---------------------------------------------------------------------------
  // atReader

  /** What one line of `at -c` adds: nothing, one booking, or a fatal error when the `atq` line
      has no time fields or its time cannot be parsed. */
  function LineEntry(fields: seq<string>, l: string): (r: Result<Option<Booking>, AtqhError>)
    requires fields != []
    ensures Recpt1FileName(l).None? ==> r == Ok(None)
    ensures Recpt1FileName(l).Some? && |fields| < 6 ==> r == Err(ShortAtqLine)
    ensures Recpt1FileName(l).Some? && |fields| >= 6 ==>
      (r.Ok? <==> ParseYearMonthDayClock(AtqTimeText(fields)).Ok?)
      && (r.Err? ==> r.error == BadTime(ParseYearMonthDayClock(AtqTimeText(fields)).error))
      && (r.Ok? ==> r.value.Some?)
    ensures r.Ok? && r.value.Some? ==>
      r.value.value.id == fields[0] && Recpt1FileName(l) == Some(r.value.value.filename)
      && |fields| >= 6 && ParseYearMonthDayClock(AtqTimeText(fields)) == Ok(r.value.value.datetime)
  {
    match Recpt1FileName(l)
    case None => Ok(None)
    case Some(name) =>
      if |fields| < 6 then Err(ShortAtqLine)
      else
        match ParseYearMonthDayClock(AtqTimeText(fields))
        case Err(e) => Err(BadTime(e))
        case Ok(dt) => Ok(Some(Booking(fields[0], dt, name)))
  }

  /** The bookings the lines ls give, in order, all with the job's id; the first fatal error ends
      the run. */
  function LinesBookings(fields: seq<string>, ls: seq<string>): (r: Result<seq<Booking>, AtqhError>)
    requires fields != []
    ensures r.Ok? ==> |r.value| <= |ls| && forall k :: 0 <= k < |r.value| ==> r.value[k].id == fields[0]
  {
    if ls == [] then Ok([])
    else
      var e :- LineEntry(fields, ls[0]);
      var rest :- LinesBookings(fields, ls[1..]);
      Ok((if e.Some? then [e.value] else []) + rest)
  }

  /** A line as ReadString('\n') hands it out: one newline, at its end. */
  predicate WholeLine(l: string)
  {
    l != [] && l[|l| - 1] == '\n' && '\n' !in l[..|l| - 1]
  }

  predicate WholeLines(ls: seq<string>)
  {
    forall k :: 0 <= k < |ls| ==> WholeLine(ls[k])
  }

  /** The lines bufio.Reader.ReadString('\n') hands out, each with its newline; text after the last
      newline comes with io.EOF and is dropped. */
  function BodyLines(body: string): (ls: seq<string>)
    ensures WholeLines(ls)
    ensures HasPrefix(body, Concat(ls)) && '\n' !in body[|Concat(ls)|..]
    decreases |body|
  {
    var i := IndexOf(body, '\n');
    if i < 0 then
      assert body[0..] == body;
      []
    else
      var rest := BodyLines(body[i + 1..]);
      BodyLinesStep(body, i, rest);
      [body[..i + 1]] + rest
  }

  lemma BodyLinesStep(body: string, i: nat, rest: seq<string>)
    requires i < |body| && body[i] == '\n' && '\n' !in body[..i]
    requires WholeLines(rest)
    requires HasPrefix(body[i + 1..], Concat(rest)) && '\n' !in body[i + 1..][|Concat(rest)|..]
    ensures var ls := [body[..i + 1]] + rest;
      WholeLines(ls) && HasPrefix(body, Concat(ls)) && '\n' !in body[|Concat(ls)|..]
  {
    var ls := [body[..i + 1]] + rest;
    assert ls[1..] == rest;
    assert body[..i + 1][..i] == body[..i];
    assert forall k :: 1 <= k < |ls| ==> ls[k] == rest[k - 1];
    assert Concat(ls) == body[..i + 1] + Concat(rest);
    var n := |Concat(rest)|;
    assert body[i + 1..][..n] == body[i + 1..i + 1 + n];
    assert body[..i + 1 + n] == body[..i + 1] + body[i + 1..i + 1 + n];
    assert body[i + 1..][n..] == body[i + 1 + n..];
  }

  /** acc followed by the bookings of r, or r's error. */
  function Prefixed(acc: seq<Booking>, r: Result<seq<Booking>, AtqhError>): Result<seq<Booking>, AtqhError>
  {
    match r
    case Ok(bs) => Ok(acc + bs)
    case Err(e) => Err(e)
  }

  lemma PrefixedNothing(r: Result<seq<Booking>, AtqhError>)
    ensures Prefixed([], r) == r
  {
    if r.Ok? {
      assert [] + r.value == r.value;
    }
  }

  /** One turn of atReader's loop: the first complete line's booking, or its error, and then the
      rest of the body. */
  lemma ReadLineStep(fields: seq<string>, acc: seq<Booking>, rest: string, i: int)
    requires fields != [] && i == IndexOf(rest, '\n') && 0 <= i
    ensures var e := LineEntry(fields, rest[..i + 1]);
      Prefixed(acc, LinesBookings(fields, BodyLines(rest)))
      == if e.Err? then Err(e.error)
         else Prefixed(acc + (if e.value.Some? then [e.value.value] else []), LinesBookings(fields, BodyLines(rest[i + 1..])))
  {
    BodyLinesUnfold(rest, i);
    LinesBookingsUnfold(fields, acc, rest[..i + 1], BodyLines(rest[i + 1..]));
  }

  lemma BodyLinesUnfold(rest: string, i: int)
    requires i == IndexOf(rest, '\n') && 0 <= i
    ensures BodyLines(rest) == [rest[..i + 1]] + BodyLines(rest[i + 1..])
  {
  }

  lemma LinesBookingsUnfold(fields: seq<string>, acc: seq<Booking>, l: string, ls: seq<string>)
    requires fields != []
    ensures var e := LineEntry(fields, l);
      Prefixed(acc, LinesBookings(fields, [l] + ls))
      == if e.Err? then Err(e.error)
         else Prefixed(acc + (if e.value.Some? then [e.value.value] else []), LinesBookings(fields, ls))
  {
    assert ([l] + ls)[1..] == ls;
    var e := LineEntry(fields, l);
    if e.Ok? {
      var x := if e.value.Some? then [e.value.value] else [];
      var tail := LinesBookings(fields, ls);
      if tail.Ok? {
        assert acc + (x + tail.value) == (acc + x) + tail.value;
      }
    }
  }

  /** The bookings of one job: none when its `atq` line is empty, else those of its body's lines. */
  function JobBookings(line: string, body: string): Result<seq<Booking>, AtqhError>
  {
    var fields := Fields(line);
    if fields == [] then Err(EmptyAtqLine) else LinesBookings(fields, BodyLines(body))
  }

  // ---------------------------------------------------------------------------
  // A whole job body

  /** A complete line in front of a body is read first, as it is. */
  lemma BodyLinesOfLine(l: string, q: string)
    requires WholeLine(l)
    ensures BodyLines(l + q) == [l] + BodyLines(q)
  {
    var body := l + q;
    assert body == l[..|l| - 1] + ['\n'] + q by {
      assert l == l[..|l| - 1] + ['\n'];
    }
    JoinHead(l[..|l| - 1], q, '\n');
    BodyLinesUnfold(body, |l| - 1);
    assert body[..|l|] == l;
  }

  /** Complete lines in front of a body are read first, one by one, as they are. */
  lemma {:induction false} BodyLinesOfLines(pre: seq<string>, x: string)
    requires WholeLines(pre)
    ensures BodyLines(Concat(pre) + x) == pre + BodyLines(x)
  {
    if pre == [] {
      assert Concat(pre) + x == x;
    } else {
      WholeLinesTail(pre);
      BodyLinesOfLines(pre[1..], x);
      BodyLinesOfLinesCons(pre, x);
    }
  }

  /** One more complete line in front of lines already read in front of x. */
  lemma BodyLinesOfLinesCons(pre: seq<string>, x: string)
    requires pre != [] && WholeLine(pre[0])
    requires BodyLines(Concat(pre[1..]) + x) == pre[1..] + BodyLines(x)
    ensures BodyLines(Concat(pre) + x) == pre + BodyLines(x)
  {
    ConcatFirst(pre, x);
    BodyLinesOfLine(pre[0], Concat(pre[1..]) + x);
    ConsAppend(pre, BodyLines(x));
  }

  lemma WholeLinesTail(ls: seq<string>)
    requires ls != [] && WholeLines(ls)
    ensures WholeLines(ls[1..])
  {
    assert forall k :: 0 <= k < |ls| - 1 ==> ls[1..][k] == ls[k + 1];
  }

  lemma ConcatFirst(parts: seq<string>, x: string)
    requires parts != []
    ensures Concat(parts) + x == parts[0] + (Concat(parts[1..]) + x)
  {
  }

  lemma ConsAppend<T>(s: seq<T>, r: seq<T>)
    requires s != []
    ensures [s[0]] + (s[1..] + r) == s + r
  {
    assert [s[0]] + s[1..] == s;
  }

  /** Lines that are not recpt1 commands add no booking. */
  lemma {:induction false} LinesBookingsSkip(fields: seq<string>, pre: seq<string>, ls: seq<string>)
    requires fields != []
    requires forall k :: 0 <= k < |pre| ==> !HasPrefix(pre[k], "recpt1")
    ensures LinesBookings(fields, pre + ls) == LinesBookings(fields, ls)
  {
    if pre != [] {
      var none: seq<Booking> := [];
      var rest := pre[1..] + ls;
      assert pre + ls == [pre[0]] + rest;
      assert LineEntry(fields, pre[0]) == Ok(None);
      LinesBookingsUnfold(fields, none, pre[0], rest);
      assert none + none == none;
      assert Prefixed(none, LinesBookings(fields, pre + ls)) == Prefixed(none, LinesBookings(fields, rest));
      PrefixedNothing(LinesBookings(fields, pre + ls));
      PrefixedNothing(LinesBookings(fields, rest));
      assert forall k :: 0 <= k < |pre| - 1 ==> pre[1..][k] == pre[k + 1];
      LinesBookingsSkip(fields, pre[1..], ls);
    } else {
      assert pre + ls == ls;
    }
  }

  /** Text after the last newline, which ReadString hands out with io.EOF, gives no line. */
  lemma BodyOfUnfinished(tail: string)
    requires '\n' !in tail
    ensures BodyLines(tail) == []
  {
  }

  /** Lines that are complete and are not recpt1 commands, such as those `at -c` prints around a
      job's command. */
  predicate OtherLines(ls: seq<string>)
  {
    WholeLines(ls) && forall k :: 0 <= k < |ls| ==> !HasPrefix(ls[k], "recpt1")
  }

  /** A recpt1 line of a job whose `atq` line shows a readable time, followed by lines that are
      not recpt1 commands, gives exactly one booking. */
  lemma LinesBookingsOne(fields: seq<string>, l: string, post: seq<string>, name: string, t: DateTime)
    requires |fields| >= 6 && Recpt1FileName(l) == Some(name)
    requires ParseYearMonthDayClock(AtqTimeText(fields)) == Ok(t)
    requires forall k :: 0 <= k < |post| ==> !HasPrefix(post[k], "recpt1")
    ensures LinesBookings(fields, [l] + post) == Ok([Booking(fields[0], t, name)])
  {
    var b := Booking(fields[0], t, name);
    LineEntryOfRecpt1(fields, l, name, t);
    LinesBookingsNone(fields, post);
    LinesBookingsCons(fields, l, post, b, []);
    assert [b] + [] == [b];
  }

  /** Lines that are not recpt1 commands give no booking at all. */
  lemma LinesBookingsNone(fields: seq<string>, ls: seq<string>)
    requires fields != [] && forall k :: 0 <= k < |ls| ==> !HasPrefix(ls[k], "recpt1")
    ensures LinesBookings(fields, ls) == Ok([])
  {
    var noLines: seq<string> := [];
    assert ls + noLines == ls;
    LinesBookingsSkip(fields, ls, noLines);
  }

  /** A line giving a booking puts it in front of the bookings of the lines after it. */
  lemma LinesBookingsCons(fields: seq<string>, l: string, ls: seq<string>, b: Booking, bs: seq<Booking>)
    requires fields != [] && LineEntry(fields, l) == Ok(Some(b)) && LinesBookings(fields, ls) == Ok(bs)
    ensures LinesBookings(fields, [l] + ls) == Ok([b] + bs)
  {
    assert ([l] + ls)[0] == l;
    assert ([l] + ls)[1..] == ls;
  }

  /** The booking a full recpt1 line gives when the `atq` time is readable. */
  lemma LineEntryOfRecpt1(fields: seq<string>, l: string, name: string, t: DateTime)
    requires |fields| >= 6 && Recpt1FileName(l) == Some(name)
    requires ParseYearMonthDayClock(AtqTimeText(fields)) == Ok(t)
    ensures LineEntry(fields, l) == Ok(Some(Booking(fields[0], t, name)))
  {
  }

  /** Words free of a character, joined by a separator free of it, are free of it. */
  lemma {:induction false} JoinWithout(parts: seq<string>, sep: string, c: char)
    requires c !in sep && forall k :: 0 <= k < |parts| ==> c !in parts[k]
    ensures c !in Join(parts, sep)
  {
    if |parts| > 1 {
      JoinWithout(parts[1..], sep, c);
    }
  }

  /** Complete lines and then an unfinished tail are read as those lines. */
  lemma BodyLinesOfLinesThenTail(ls: seq<string>, tail: string)
    requires WholeLines(ls) && '\n' !in tail
    ensures BodyLines(Concat(ls) + tail) == ls
  {
    BodyOfUnfinished(tail);
    BodyLinesOfLines(ls, tail);
    assert ls + [] == ls;
  }

  lemma AppendFour<T>(a: seq<T>, b: seq<T>, c: seq<T>, d: seq<T>)
    ensures a + b + c + d == a + (b + (c + d))
  {
  }

  /** The lines of a body made of complete lines and an unfinished tail are those lines. */
  lemma JobBodyLines(pre: seq<string>, l: string, post: seq<string>, tail: string)
    requires WholeLines(pre) && WholeLine(l) && WholeLines(post) && '\n' !in tail
    ensures BodyLines(Concat(pre) + l + Concat(post) + tail) == pre + ([l] + post)
  {
    var after := Concat(post) + tail;
    BodyLinesOfLinesThenTail(post, tail);
    BodyLinesOfLine(l, after);
    BodyLinesOfLines(pre, l + after);
    AppendFour(Concat(pre), l, Concat(post), tail);
  }

  /** A job whose body is other complete lines, one recpt1 line, other complete lines and an
      unfinished tail gives exactly one booking: the job's id, the time its `atq` line shows and
      the line's file name. */
  lemma JobOfRecpt1Line(line: string, pre: seq<string>, j: string, post: seq<string>, tail: string,
                        file: string, t: DateTime)
    requires '\n' !in j && Recpt1FileName(j + "\n") == Some(file)
    requires OtherLines(pre) && OtherLines(post) && '\n' !in tail
    requires |Fields(line)| >= 6 && ParseYearMonthDayClock(AtqTimeText(Fields(line))) == Ok(t)
    ensures JobBookings(line, Concat(pre) + (j + "\n") + Concat(post) + tail)
         == Ok([Booking(Fields(line)[0], t, file)])
  {
    var l := j + "\n";
    assert WholeLine(l) by {
      assert l[..|l| - 1] == j;
    }
    JobBodyLines(pre, l, post, tail);
    LinesBookingsSkip(Fields(line), pre, [l] + post);
    LinesBookingsOne(Fields(line), l, post, file, t);
  }

  /** The booking tools' recpt1 words hold a newline only where their variable parts do. */
  lemma Recpt1WordsOneLine(provider: string, duration: string, file: string)
    requires '\n' !in provider && '\n' !in duration && '\n' !in file
    ensures '\n' !in Join(["recpt1", "--b25", "--sid", "hd", "--strip", provider, duration, file], " ")
  {
    var words := ["recpt1", "--b25", "--sid", "hd", "--strip", provider, duration, file];
    forall k | 0 <= k < 8
      ensures '\n' !in words[k]
    {
      if k < 5 {
        var w := words[k];
        forall i | 0 <= i < |w|
          ensures w[i] != '\n'
        {
          assert '-' <= w[i] <= 't';
        }
      }
    }
    JoinWithout(words, " ", '\n');
  }

  /** The same when the recpt1 line is the one echo writes for the booking tools' words. */
  lemma JobOfRecpt1Words(line: string, pre: seq<string>, post: seq<string>, tail: string,
                         provider: string, duration: string, file: string, t: DateTime)
    requires ' ' !in provider && '\n' !in provider && NoSpace(duration) && Trimmed(file) && '\n' !in file
    requires OtherLines(pre) && OtherLines(post) && '\n' !in tail
    requires |Fields(line)| >= 6 && ParseYearMonthDayClock(AtqTimeText(Fields(line))) == Ok(t)
    ensures JobBookings(line, Concat(pre) + (Join(["recpt1", "--b25", "--sid", "hd", "--strip", provider, duration, file], " ") + "\n")
                              + Concat(post) + tail)
         == Ok([Booking(Fields(line)[0], t, file)])
  {
    var words := ["recpt1", "--b25", "--sid", "hd", "--strip", provider, duration, file];
    Recpt1WordsOf(provider, duration, file);
    NoSpaceNoBlank(duration);
    Recpt1WordsOneLine(provider, duration, file);
    JobOfRecpt1Line(line, pre, Join(words, " "), post, tail, file, t);
  }

  /** A file name "<prefix>-<title>.ts" holds a newline only where its prefix or title does. */
  lemma FileNameOneLine(prefix: string, title: string)
    requires '\n' !in prefix && '\n' !in title
    ensures '\n' !in prefix + "-" + title + ".ts"
  {
    var f := prefix + "-" + title + ".ts";
    forall i | 0 <= i < |f|
      ensures f[i] != '\n'
    {
      if i >= |prefix + "-" + title| {
        assert f[i] == ".ts"[i - |prefix + "-" + title|];
      } else if i >= |prefix| {
        assert f[i] == ("-" + title)[i - |prefix|];
      }
    }
  }

  /** The job auto-booking's Page.Book sets up, read back by atqh: Book runs echo on the recpt1
      words without a shell, so `at` is handed exactly the words joined by spaces and a newline.
      Whatever complete lines `at -c` prints around that command, atqh reads one booking, with the
      recording's file name. A title holding a newline would reach atqh as two lines. */
  lemma BookJobRoundTrip(p: AutoBooking.Page, line: string, pre: seq<string>, post: seq<string>,
                         tail: string, t: DateTime)
    requires ' ' !in p.provider && '\n' !in p.provider && '\n' !in p.title
    requires OtherLines(pre) && OtherLines(post) && '\n' !in tail
    requires |Fields(line)| >= 6 && ParseYearMonthDayClock(AtqTimeText(Fields(line))) == Ok(t)
    ensures JobBookings(line, Concat(pre) + (Join(AutoBooking.Recpt1Args(p), " ") + "\n") + Concat(post) + tail)
         == Ok([Booking(Fields(line)[0], t, AutoBooking.FileName(p))])
  {
    FileNameTrimmed(FormatPrefix(p.start), p.title);
    NoSpaceNoBlank(FormatPrefix(p.start));
    FileNameOneLine(FormatPrefix(p.start), p.title);
    JobOfRecpt1Words(line, pre, post, tail, p.provider, Itoa(AutoBooking.Duration(p)), AutoBooking.FileName(p), t);
  }

  /** The same for the job G-guide's Recpt1AtCmd sets up. */
  lemma Recpt1AtCmdJobRoundTrip(p: GGuide.Program, line: string, pre: seq<string>, post: seq<string>,
                                tail: string, t: DateTime)
    requires ' ' !in p.provider && '\n' !in p.provider && '\n' !in p.title
    requires OtherLines(pre) && OtherLines(post) && '\n' !in tail
    requires |Fields(line)| >= 6 && ParseYearMonthDayClock(AtqTimeText(Fields(line))) == Ok(t)
    ensures JobBookings(line, Concat(pre) + (Join(GGuide.ProgramRecpt1Args(p), " ") + "\n") + Concat(post) + tail)
         == Ok([Booking(Fields(line)[0], t, GGuide.ProgramFileName(p))])
  {
    FileNameTrimmed(FormatPrefix(p.start), p.title);
    NoSpaceNoBlank(FormatPrefix(p.start));
    FileNameOneLine(FormatPrefix(p.start), p.title);
    JobOfRecpt1Words(line, pre, post, tail, p.provider, Itoa(SubSeconds(p.end, p.start)), GGuide.ProgramFileName(p), t);
  }

  /** atReader: the id is the first field of the `atq` line; the body of `at -c <id>` is read line
      by line, each recpt1 line giving a booking. */
  method AtReader(line: string, body: string) returns (r: Result<seq<Booking>, AtqhError>)
    ensures r == JobBookings(line, body)
  {
    var fields := Fields(line);
    if |fields| == 0 {
      return Err(EmptyAtqLine);
    }
    var acc: seq<Booking> := [];
    var rest := body;
    ghost var whole := LinesBookings(fields, BodyLines(body));
    PrefixedNothing(whole);
    while true
      invariant whole == Prefixed(acc, LinesBookings(fields, BodyLines(rest)))
      decreases |rest|
    {
      var i := IndexOf(rest, '\n');
      if i < 0 {
        break;
      }
      ReadLineStep(fields, acc, rest, i);
      var e := LineEntry(fields, rest[..i + 1]);
      if e.Err? {
        return Err(e.error);
      }
      var found := if e.value.Some? then [e.value.value] else [];
      acc := acc + found;
      rest := rest[i + 1..];
    }
    assert BodyLines(rest) == [];
    assert acc + [] == acc;
    return Ok(acc);
  }

  /** The bookings of all jobs, job by job in `atq`'s order; the first fatal error ends the run. */
  function AllBookings(jobs: seq<(string, string)>): Result<seq<Booking>, AtqhError>
  {
    if jobs == [] then Ok([])
    else
      var b :- JobBookings(jobs[0].0, jobs[0].1);
      var rest :- AllBookings(jobs[1..]);
      Ok(b + rest)
  }

  /** One turn of main's collecting loop. */
  lemma CollectStep(jobs: seq<(string, string)>, acc: seq<Booking>, i: nat)
    requires i < |jobs|
    ensures var b := JobBookings(jobs[i].0, jobs[i].1);
      Prefixed(acc, AllBookings(jobs[i..]))
      == if b.Err? then Err(b.error) else Prefixed(acc + b.value, AllBookings(jobs[i + 1..]))
  {
    assert jobs[i..][1..] == jobs[i + 1..];
    var b := JobBookings(jobs[i].0, jobs[i].1);
    var tail := AllBookings(jobs[i + 1..]);
    if b.Ok? && tail.Ok? {
      assert acc + (b.value + tail.value) == (acc + b.value) + tail.value;
    }
  }

  /** main's collecting loop: atReader on every `atq` line, the bookings appended in order. */
  method CollectBookings(jobs: seq<(string, string)>) returns (r: Result<seq<Booking>, AtqhError>)
    ensures r == AllBookings(jobs)
  {
    var acc: seq<Booking> := [];
    var i := 0;
    assert jobs[0..] == jobs;
    PrefixedNothing(AllBookings(jobs));
    while i < |jobs|
      invariant 0 <= i <= |jobs|
      invariant AllBookings(jobs) == Prefixed(acc, AllBookings(jobs[i..]))
    {
      CollectStep(jobs, acc, i);
      var b := AtReader(jobs[i].0, jobs[i].1);
      if b.Err? {
        return Err(b.error);
      }
      acc := acc + b.value;
      i := i + 1;
    }
    assert acc + [] == acc;
    return Ok(acc);
  }

  // ---------------------------------------------------------------------------
  // byDatetime and byID

  /** Less of the sort.Interface in use: byDatetime compares the times with Before, byID the ids
      as strings. */
  predicate Precedes(a: Booking, b: Booking, byId: bool)
  {
    if byId then Less(a.id, b.id) else Seconds(a.datetime) < Seconds(b.datetime)
  }

  predicate SortedBy(s: seq<Booking>, byId: bool)
  {
    forall p, q :: 0 <= p < q < |s| ==> !Precedes(s[q], s[p], byId)
  }

  lemma PrecedesAsymmetric(a: Booking, b: Booking, byId: bool)
    requires Precedes(a, b, byId)
    ensures !Precedes(b, a, byId)
  {
    if byId {
      LessAsymmetric(a.id, b.id);
    }
  }

  /** "Not after" is transitive: the orders are strict weak orders, as sort.Sort needs. */
  lemma NotPrecedesTransitive(a: Booking, b: Booking, c: Booking, byId: bool)
    requires !Precedes(b, a, byId) && !Precedes(c, b, byId)
    ensures !Precedes(c, a, byId)
  {
    if byId {
      LessTotal(a.id, b.id);
      LessTotal(b.id, c.id);
      if Less(c.id, a.id) {
        if Less(a.id, b.id) {
          LessTransitive(c.id, a.id, b.id);
        }
        if Less(b.id, c.id) {
          LessTransitive(b.id, c.id, a.id);
        }
        LessIrreflexive(a.id);
      }
    }
  }

  /** Ids are compared as text: job "10" comes before job "9". */
  lemma IdOrderIsTextual(t: DateTime, f: string)
    ensures Precedes(Booking("10", t, f), Booking("9", t, f), true)
  {
    assert "10"[0] < "9"[0];
  }

  /** The first n bookings are in order. */
  predicate SortedPrefix(s: seq<Booking>, n: int, byId: bool)
    requires 0 <= n <= |s|
  {
    forall p, q :: 0 <= p < q < n ==> !Precedes(s[q], s[p], byId)
  }

  /** Midway through inserting s[j] into the sorted s[..i+1]: without position j the prefix is
      sorted, and nothing after j comes before s[j]. */
  predicate Inserting(s: seq<Booking>, i: int, j: int, byId: bool)
  {
    0 <= j <= i < |s|
    && (forall p, q :: 0 <= p < q <= i && p != j && q != j ==> !Precedes(s[q], s[p], byId))
    && (forall q :: j < q <= i ==> !Precedes(s[q], s[j], byId))
  }

  lemma InsertingStart(s: seq<Booking>, i: int, byId: bool)
    requires 0 <= i < |s| && SortedPrefix(s, i, byId)
    ensures Inserting(s, i, i, byId)
  {
  }

  /** Swapping s[j] with the element before it, which s[j] precedes, moves the gap one down. */
  lemma SwapStep(s: seq<Booking>, i: int, j: int, byId: bool)
    requires Inserting(s, i, j, byId) && 0 < j && Precedes(s[j], s[j - 1], byId)
    ensures Inserting(s[j - 1 := s[j]][j := s[j - 1]], i, j - 1, byId)
  {
    PrecedesAsymmetric(s[j], s[j - 1], byId);
  }

  /** Once s[j] no longer precedes the element before it, the prefix through i is sorted. */
  lemma InsertingDone(s: seq<Booking>, i: int, j: int, byId: bool)
    requires Inserting(s, i, j, byId) && (j == 0 || !Precedes(s[j], s[j - 1], byId))
    ensures SortedPrefix(s, i + 1, byId)
  {
    forall p, q | 0 <= p < q <= i
      ensures !Precedes(s[q], s[p], byId)
    {
      if q == j && p < j - 1 {
        NotPrecedesTransitive(s[p], s[j - 1], s[j], byId);
      }
    }
  }

  /** One pass of the sort: a[i] is swapped down past every element it precedes, so the first
      i + 1 bookings end up in order. */
  method InsertNext(a: array<Booking>, i: int, byId: bool)
    requires 0 <= i < a.Length && SortedPrefix(a[..], i, byId)
    modifies a
    ensures SortedPrefix(a[..], i + 1, byId)
    ensures multiset(a[..]) == multiset(old(a[..]))
  {
    InsertingStart(a[..], i, byId);
    var j := i;
    while j > 0 && Precedes(a[j], a[j - 1], byId)
      invariant Inserting(a[..], i, j, byId)
      invariant multiset(a[..]) == multiset(old(a[..]))
    {
      SwapStep(a[..], i, j, byId);
      a[j - 1], a[j] := a[j], a[j - 1];
      j := j - 1;
    }
    InsertingDone(a[..], i, j, byId);
  }

  /** sort.Sort(byDatetime(list)) or sort.Sort(byID(list)): the bookings are rearranged in place,
      by swaps, into an order no Less call contradicts. */
  method Sort(a: array<Booking>, byId: bool)
    modifies a
    ensures SortedBy(a[..], byId)
    ensures multiset(a[..]) == multiset(old(a[..]))
  {
    var i := 0;
    while i < a.Length
      invariant 0 <= i <= a.Length
      invariant SortedPrefix(a[..], i, byId)
      invariant multiset(a[..]) == multiset(old(a[..]))
    {
      InsertNext(a, i, byId);
      i := i + 1;
    }
  }

  // ---------------------------------------------------------------------------
  // The day filter

  /** The bookings on day d of the month, in their order. */
  function OnDay(bs: seq<Booking>, d: int): seq<Booking>
  {
    if bs == [] then []
    else OnDay(bs[..|bs| - 1], d) + (if bs[|bs| - 1].datetime.day == d then [bs[|bs| - 1]] else [])
  }

  /** A booking is listed exactly when it is one of the bookings and falls on the day. */
  lemma {:induction false} OnDayMembers(bs: seq<Booking>, d: int, b: Booking)
    ensures b in OnDay(bs, d) <==> b in bs && b.datetime.day == d
  {
    if bs != [] {
      OnDayMembers(bs[..|bs| - 1], d, b);
      assert bs == bs[..|bs| - 1] + [bs[|bs| - 1]];
    }
  }

  /** Picking one day out of a sorted list leaves it sorted. */
  lemma {:induction false} OnDaySorted(bs: seq<Booking>, d: int, byId: bool)
    requires SortedBy(bs, byId)
    ensures SortedBy(OnDay(bs, d), byId)
  {
    if bs != [] {
      var init, last := bs[..|bs| - 1], bs[|bs| - 1];
      assert SortedBy(init, byId) by {
        assert forall k :: 0 <= k < |init| ==> init[k] == bs[k];
      }
      OnDaySorted(init, d, byId);
      var s := OnDay(init, d);
      if last.datetime.day == d {
        var t := s + [last];
        forall p, q | 0 <= p < q < |t|
          ensures !Precedes(t[q], t[p], byId)
        {
          if q == |s| {
            OnDayMembers(init, d, t[p]);
            var k :| 0 <= k < |init| && init[k] == t[p];
            assert bs[k] == t[p] && bs[|bs| - 1] == last;
          }
        }
      }
    }
  }

  /** How often a booking is listed: as often as it is among the bookings, if it falls on the day. */
  lemma {:induction false} OnDayCount(bs: seq<Booking>, d: int, b: Booking)
    ensures multiset(OnDay(bs, d))[b] == if b.datetime.day == d then multiset(bs)[b] else 0
  {
    if bs != [] {
      OnDayCount(bs[..|bs| - 1], d, b);
      assert bs == bs[..|bs| - 1] + [bs[|bs| - 1]];
    }
  }

  /** The bookings of a day depend on the bookings only as a multiset: sorting first and then
      picking the day lists the same bookings, each as often, as picking the day alone. */
  lemma OnDayPermutation(s: seq<Booking>, t: seq<Booking>, d: int)
    requires multiset(s) == multiset(t)
    ensures multiset(OnDay(s, d)) == multiset(OnDay(t, d))
  {
    forall b
      ensures multiset(OnDay(s, d))[b] == multiset(OnDay(t, d))[b]
    {
      OnDayCount(s, d, b);
      OnDayCount(t, d, b);
    }
  }

  /** The day argument: a number from 0 to 31. */
  function ParseDay(arg: string): (r: Result<int, AtqhError>)
    ensures r.Ok? <==> Atoi(arg).Ok? && 0 <= Atoi(arg).value <= 31
    ensures r.Ok? ==> r.value == Atoi(arg).value
  {
    match Atoi(arg)
    case Err(e) => Err(BadDay(e))
    case Ok(d) => if d < 0 || d > 31 then Err(DayNotInMonth(d)) else Ok(d)
  }

  /** main's printing loop with a day given: the bookings of that day, in the list's order. */
  method SelectDay(bs: seq<Booking>, d: int) returns (out: seq<Booking>)
    ensures out == OnDay(bs, d)
  {
    out := [];
    var i := 0;
    while i < |bs|
      invariant 0 <= i <= |bs|
      invariant out == OnDay(bs[..i], d)
    {
      assert bs[..i + 1][..i] == bs[..i];
      if bs[i].datetime.day == d {
        out := out + [bs[i]];
      }
      i := i + 1;
    }
    assert bs[..i] == bs;
  }

  /** main: every job's bookings, sorted in place by time (by id with -id), then all of them, or
      those of the day of the month the first argument names. `atq` lines are all sent on a
      channel of MaxAtCommand slots before anything reads it, so one line more blocks main. */
  method Listing(jobs: seq<(string, string)>, byId: bool, args: seq<string>) returns (r: Result<seq<Booking>, AtqhError>)
    ensures |jobs| > MaxAtCommand ==> r == Err(AtqBlocked)
    ensures r.Err? <==>
      |jobs| > MaxAtCommand || AllBookings(jobs).Err? || (args != [] && ParseDay(args[0]).Err?)
    ensures r.Err? && |jobs| <= MaxAtCommand && AllBookings(jobs).Err? ==> r.error == AllBookings(jobs).error
    ensures r.Err? && |jobs| <= MaxAtCommand && AllBookings(jobs).Ok? ==> args != [] && r.error == ParseDay(args[0]).error
    ensures r.Ok? ==> SortedBy(r.value, byId)
    ensures r.Ok? && args == [] ==> multiset(r.value) == multiset(AllBookings(jobs).value)
    ensures r.Ok? && args != [] ==>
      multiset(r.value) == multiset(OnDay(AllBookings(jobs).value, ParseDay(args[0]).value))
    ensures r.Ok? ==> forall b :: b in r.value <==>
      b in AllBookings(jobs).value && (args != [] ==> b.datetime.day == ParseDay(args[0]).value)
  {
    if |jobs| > MaxAtCommand {
      return Err(AtqBlocked);
    }
    var all := CollectBookings(jobs);
    if all.Err? {
      return Err(all.error);
    }
    var a := new Booking[|all.value|](i requires 0 <= i < |all.value| => all.value[i]);
    assert a[..] == all.value;
    Sort(a, byId);
    var sorted := a[..];
    assert forall b :: b in sorted <==> b in all.value by {
      assert forall b :: b in sorted <==> b in multiset(sorted);
      assert forall b :: b in all.value <==> b in multiset(all.value);
    }
    if args == [] {
      return Ok(sorted);
    }
    var day := ParseDay(args[0]);
    if day.Err? {
      return Err(day.error);
    }
    var out := SelectDay(sorted, day.value);
    OnDaySorted(sorted, day.value, byId);
    OnDayPermutation(sorted, all.value, day.value);
    forall b
      ensures b in out <==> b in all.value && b.datetime.day == day.value
    {
      OnDayMembers(sorted, day.value, b);
    }
    return Ok(out);
  }
}
