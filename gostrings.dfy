/** The parts of Go's `strings`, `strconv`, `unicode` and `path/filepath` packages that the
    booking tools use.
    A Go string is a sequence of UTF-8 bytes; here a string is a sequence of Unicode code points.
    Comparing code points in order gives the same answer as Go's byte-wise comparison of the
    UTF-8 encodings, so `Less` below is Go's `<` on strings. */
module GoStrings {
  import opened Wrappers

  const MaxInt64: int := 0x7FFF_FFFF_FFFF_FFFF
  const MinInt64: int := -0x8000_0000_0000_0000

  // ---------------------------------------------------------------------------
  // Character classes

  /** The code points with the White_Space property, which unicode.IsSpace accepts. */
  const WhiteSpace: set<char> := {
    '\t', '\n', '\U{000B}', '\U{000C}', '\r', ' ', '\U{0085}', '\U{00A0}', '\U{1680}',
    '\U{2000}', '\U{2001}', '\U{2002}', '\U{2003}', '\U{2004}', '\U{2005}', '\U{2006}',
    '\U{2007}', '\U{2008}', '\U{2009}', '\U{200A}',
    '\U{2028}', '\U{2029}', '\U{202F}', '\U{205F}', '\U{3000}'
  }

  /** unicode.IsSpace */
  predicate IsSpace(c: char) { c in WhiteSpace }

  /** The printable ASCII characters other than the space are not white space. */
  lemma GraphicNotSpace(c: char)
    requires '!' <= c <= '~'
    ensures !IsSpace(c)
  {
  }

  /** Nothing from U+3010 on is white space. */
  lemma WideNotSpace(c: char)
    requires c >= '\U{3010}'
    ensures !IsSpace(c)
  {
  }

  predicate IsDigit(c: char) { '0' <= c <= '9' }

  predicate AllDigits(s: string) { forall k :: 0 <= k < |s| ==> IsDigit(s[k]) }

  predicate AllSpace(s: string) { forall k :: 0 <= k < |s| ==> IsSpace(s[k]) }

  predicate NoSpace(s: string) { forall k :: 0 <= k < |s| ==> !IsSpace(s[k]) }

  lemma NoSpaceConcat(a: string, b: string)
    requires NoSpace(a) && NoSpace(b)
    ensures NoSpace(a + b)
  {
    assert forall k :: 0 <= k < |a + b| ==> (a + b)[k] == if k < |a| then a[k] else b[k - |a|];
  }

  /** strings.HasPrefix */
  predicate HasPrefix(s: string, prefix: string) { |prefix| <= |s| && s[..|prefix|] == prefix }

  // ---------------------------------------------------------------------------
  // strings.TrimSpace

  /** The number of white-space code points that open s. */
  function LeadingSpaces(s: string): (n: nat)
    ensures n <= |s|
    ensures forall k :: 0 <= k < n ==> IsSpace(s[k])
    ensures n < |s| ==> !IsSpace(s[n])
  {
    if |s| > 0 && IsSpace(s[0]) then 1 + LeadingSpaces(s[1..]) else 0
  }

  /** The number of white-space code points that close s. */
  function TrailingSpaces(s: string): (n: nat)
    ensures n <= |s|
    ensures forall k :: |s| - n <= k < |s| ==> IsSpace(s[k])
    ensures n < |s| ==> !IsSpace(s[|s| - n - 1])
  {
    if |s| > 0 && IsSpace(s[|s| - 1]) then 1 + TrailingSpaces(s[..|s| - 1]) else 0
  }

  /** A string that neither starts nor ends with white space. */
  predicate Trimmed(s: string) { s == [] || (!IsSpace(s[0]) && !IsSpace(s[|s| - 1])) }

  /** strings.TrimSpace: s without its leading and trailing white space. */
  function TrimSpace(s: string): (r: string)
    ensures Trimmed(r)
    ensures r == [] <==> AllSpace(s)
    ensures LeadingSpaces(s) + |r| <= |s|
    ensures s[LeadingSpaces(s)..LeadingSpaces(s) + |r|] == r
    ensures AllSpace(s[LeadingSpaces(s) + |r|..])
  {
    TrimParts(s);
    var t := s[LeadingSpaces(s)..];
    t[..|t| - TrailingSpaces(t)]
  }

  lemma TrimParts(s: string)
    ensures var i := LeadingSpaces(s); var t := s[i..]; var r := t[..|t| - TrailingSpaces(t)];
      Trimmed(r) && (r == [] <==> AllSpace(s)) && i + |r| <= |s| && s[i..i + |r|] == r && AllSpace(s[i + |r|..])
  {
    TrimSlices(s);
    TrimEnds(s);
    TrimEmpty(s);
  }

  lemma TrimSlices(s: string)
    ensures var i := LeadingSpaces(s); var t := s[i..]; var r := t[..|t| - TrailingSpaces(t)];
      i + |r| <= |s| && s[i..i + |r|] == r && AllSpace(s[i + |r|..])
  {
    var i := LeadingSpaces(s);
    var t := s[i..];
    var j := TrailingSpaces(t);
    var r := t[..|t| - j];
    assert |t| == |s| - i && |r| == |t| - j;
    assert s[i..i + |r|] == r;
    var u := s[i + |r|..];
    assert u == t[|t| - j..];
    forall k | 0 <= k < |u| ensures IsSpace(u[k]) {
      assert u[k] == t[|t| - j + k];
    }
  }

  lemma TrimEnds(s: string)
    ensures var i := LeadingSpaces(s); var t := s[i..]; var r := t[..|t| - TrailingSpaces(t)];
      Trimmed(r)
  {
    var i := LeadingSpaces(s);
    var t := s[i..];
    var j := TrailingSpaces(t);
    var r := t[..|t| - j];
    assert |t| == |s| - i && |r| == |t| - j;
    if r != [] {
      assert i < |s| && j < |t|;
      assert !IsSpace(s[i]) && !IsSpace(t[|t| - j - 1]);
      assert r[0] == s[i] && r[|r| - 1] == t[|t| - j - 1];
    }
  }

  lemma TrimEmpty(s: string)
    ensures var i := LeadingSpaces(s); var t := s[i..]; var r := t[..|t| - TrailingSpaces(t)];
      r == [] <==> AllSpace(s)
  {
    var i := LeadingSpaces(s);
    var t := s[i..];
    var j := TrailingSpaces(t);
    if j < |t| {
      assert t[0] == s[i] && !IsSpace(s[i]);
    } else {
      assert s == s[..i] + t;
      assert AllSpace(s[..i]) && AllSpace(t);
      AllSpaceConcat(s[..i], t);
    }
  }

  lemma AllSpaceConcat(a: string, b: string)
    requires AllSpace(a) && AllSpace(b)
    ensures AllSpace(a + b)
  {
    assert forall k :: 0 <= k < |a + b| ==> (a + b)[k] == if k < |a| then a[k] else b[k - |a|];
  }

  lemma {:induction false} LeadingSpacesPadded(left: string, s: string)
    requires AllSpace(left) && (s == [] || !IsSpace(s[0]))
    ensures LeadingSpaces(left + s) == |left|
  {
    if left != [] {
      assert (left + s)[0] == left[0];
      assert (left + s)[1..] == left[1..] + s;
      LeadingSpacesPadded(left[1..], s);
    } else {
      assert left + s == s;
    }
  }

  lemma {:induction false} TrailingSpacesPadded(s: string, right: string)
    requires AllSpace(right) && (s == [] || !IsSpace(s[|s| - 1]))
    ensures TrailingSpaces(s + right) == |right|
  {
    if right != [] {
      var x := s + right;
      assert x[|x| - 1] == right[|right| - 1];
      assert x[..|x| - 1] == s + right[..|right| - 1];
      TrailingSpacesPadded(s, right[..|right| - 1]);
    } else {
      assert s + right == s;
    }
  }

  /** TrimSpace gives back a trimmed string whatever white space surrounds it: the partner of TrimSpace. */
  lemma TrimSpaceOfPadded(left: string, s: string, right: string)
    requires AllSpace(left) && AllSpace(right) && Trimmed(s)
    ensures TrimSpace(left + s + right) == s
  {
    var x := left + s + right;
    if s == [] {
      assert x == left + right;
      assert AllSpace(x);
    } else {
      assert x == left + (s + right);
      LeadingSpacesPadded(left, s + right);
      assert x[|left|..] == s + right;
      TrailingSpacesPadded(s, right);
    }
  }

  // ---------------------------------------------------------------------------
  // strings.Fields

  /** The length of the run of non-space code points that opens s. */
  function WordLength(s: string): (n: nat)
    ensures n <= |s| && NoSpace(s[..n])
    ensures n < |s| ==> IsSpace(s[n])
  {
    if |s| > 0 && !IsSpace(s[0]) then 1 + WordLength(s[1..]) else 0
  }

  /** s with every white-space code point removed. */
  function Unspaced(s: string): string
  {
    if s == [] then [] else (if IsSpace(s[0]) then [] else [s[0]]) + Unspaced(s[1..])
  }

  lemma {:induction false} UnspacedAppend(a: string, b: string)
    ensures Unspaced(a + b) == Unspaced(a) + Unspaced(b)
  {
    if a != [] {
      assert (a + b)[0] == a[0];
      assert (a + b)[1..] == a[1..] + b;
      UnspacedAppend(a[1..], b);
    } else {
      assert a + b == b;
    }
  }

  lemma {:induction false} UnspacedAllSpace(s: string)
    requires AllSpace(s)
    ensures Unspaced(s) == []
  {
    if s != [] { UnspacedAllSpace(s[1..]); }
  }

  lemma {:induction false} UnspacedNoSpace(s: string)
    requires NoSpace(s)
    ensures Unspaced(s) == s
  {
    if s != [] { UnspacedNoSpace(s[1..]); }
  }

  function Concat(parts: seq<string>): string
  {
    if parts == [] then [] else parts[0] + Concat(parts[1..])
  }

  /** strings.Fields: the maximal runs of non-space code points, in order. */
  function Fields(s: string): (r: seq<string>)
    ensures forall k :: 0 <= k < |r| ==> r[k] != [] && NoSpace(r[k])
    decreases |s|
  {
    var t := s[LeadingSpaces(s)..];
    if t == [] then [] else [t[..WordLength(t)]] + Fields(t[WordLength(t)..])
  }

  /** Fields loses only the white space of s: the fields, concatenated, are s without its spaces. */
  lemma {:induction false} FieldsCover(s: string)
    ensures Concat(Fields(s)) == Unspaced(s)
    decreases |s|
  {
    var t := s[LeadingSpaces(s)..];
    UnspacedDropSpaces(s);
    if t != [] {
      var w := WordLength(t);
      UnspacedWord(t);
      FieldsCover(t[w..]);
      var r := Fields(s);
      assert r == [t[..w]] + Fields(t[w..]);
      assert r[1..] == Fields(t[w..]);
    }
  }

  lemma UnspacedDropSpaces(s: string)
    ensures Unspaced(s) == Unspaced(s[LeadingSpaces(s)..])
  {
    var i := LeadingSpaces(s);
    assert s == s[..i] + s[i..];
    UnspacedAppend(s[..i], s[i..]);
    UnspacedAllSpace(s[..i]);
  }

  lemma UnspacedWord(t: string)
    ensures Unspaced(t) == t[..WordLength(t)] + Unspaced(t[WordLength(t)..])
  {
    var w := WordLength(t);
    assert t == t[..w] + t[w..];
    UnspacedAppend(t[..w], t[w..]);
    UnspacedNoSpace(t[..w]);
  }

  // ---------------------------------------------------------------------------
  // strings.Join and strings.SplitN

  /** strings.Join */
  function Join(parts: seq<string>, sep: string): string
  {
    if |parts| == 0 then [] else if |parts| == 1 then parts[0] else parts[0] + sep + Join(parts[1..], sep)
  }

  lemma {:induction false} JoinAppend(a: seq<string>, b: seq<string>, sep: string)
    requires a != [] && b != []
    ensures Join(a + b, sep) == Join(a, sep) + sep + Join(b, sep)
  {
    if |a| == 1 {
      assert (a + b)[1..] == b;
    } else {
      assert (a + b)[1..] == a[1..] + b;
      JoinAppend(a[1..], b, sep);
    }
  }

  /** Joining a first part to the rest puts one separator between them. */
  lemma {:induction false} JoinCons(x: string, rest: seq<string>, sep: string)
    requires rest != []
    ensures Join([x] + rest, sep) == x + sep + Join(rest, sep)
  {
    assert ([x] + rest)[1..] == rest;
  }

  /** The number of occurrences of c in s. */
  function Count(s: string, c: char): nat
  {
    if s == [] then 0 else (if s[0] == c then 1 else 0) + Count(s[1..], c)
  }

  lemma {:induction false} CountAppend(a: string, b: string, c: char)
    ensures Count(a + b, c) == Count(a, c) + Count(b, c)
  {
    if a != [] {
      assert (a + b)[0] == a[0];
      assert (a + b)[1..] == a[1..] + b;
      CountAppend(a[1..], b, c);
    } else {
      assert a + b == b;
    }
  }

  lemma {:induction false} CountAbsent(s: string, c: char)
    requires c !in s
    ensures Count(s, c) == 0
  {
    if s != [] { CountAbsent(s[1..], c); }
  }

  /** strings.IndexByte: the first position of c in s, or -1. */
  function IndexOf(s: string, c: char): (i: int)
    ensures -1 <= i < |s|
    ensures i == -1 <==> c !in s
    ensures 0 <= i ==> s[i] == c && c !in s[..i]
  {
    if s == [] then -1
    else if s[0] == c then 0
    else
      var j := IndexOf(s[1..], c);
      if j < 0 then -1
      else
        assert s[..j + 1] == [s[0]] + s[1..][..j];
        j + 1
  }

  /** strings.SplitN(s, sep, n) for a one-character separator and n >= 0: at most n parts, the
      last of which holds the rest of s. */
  function SplitN(s: string, sep: char, n: nat): (r: seq<string>)
    ensures n == 0 ==> r == []
    ensures n > 0 ==> |r| == (if Count(s, sep) + 1 < n then Count(s, sep) + 1 else n)
    ensures n > 0 ==> Join(r, [sep]) == s
    ensures forall k :: 0 <= k < |r| - 1 ==> sep !in r[k]
    decreases n
  {
    if n == 0 then []
    else if n == 1 then [s]
    else
      var i := IndexOf(s, sep);
      if i < 0 then
        CountAbsent(s, sep);
        [s]
      else
        var rest := SplitN(s[i + 1..], sep, n - 1);
        SplitNCons(s, sep, n, i, rest);
        [s[..i]] + rest
  }

  /** The step of SplitN: the text before the first separator, then the split of the rest. */
  lemma SplitNCons(s: string, sep: char, n: nat, i: nat, rest: seq<string>)
    requires n >= 2 && i < |s| && s[i] == sep && sep !in s[..i]
    requires |rest| == (if Count(s[i + 1..], sep) + 1 < n - 1 then Count(s[i + 1..], sep) + 1 else n - 1)
    requires Join(rest, [sep]) == s[i + 1..]
    requires forall k :: 0 <= k < |rest| - 1 ==> sep !in rest[k]
    ensures var r := [s[..i]] + rest;
      |r| == (if Count(s, sep) + 1 < n then Count(s, sep) + 1 else n) && Join(r, [sep]) == s
      && forall k :: 0 <= k < |r| - 1 ==> sep !in r[k]
  {
    assert s == s[..i] + [sep] + s[i + 1..];
    CountAppend(s[..i] + [sep], s[i + 1..], sep);
    CountAppend(s[..i], [sep], sep);
    CountAbsent(s[..i], sep);
    assert Count([sep], sep) == 1;
    var r := [s[..i]] + rest;
    assert r[1..] == rest;
    assert forall k :: 1 <= k < |r| ==> r[k] == rest[k - 1];
  }

  /** Splitting a joined list back at the first |parts| - 1 separators returns the list, provided
      only the last part may contain the separator: the partner of SplitN. */
  lemma {:induction false} SplitNOfJoin(parts: seq<string>, sep: char)
    requires |parts| >= 1
    requires forall k :: 0 <= k < |parts| - 1 ==> sep !in parts[k]
    ensures SplitN(Join(parts, [sep]), sep, |parts|) == parts
  {
    if |parts| == 1 {
      assert Join(parts, [sep]) == parts[0];
    } else {
      var q := Join(parts[1..], [sep]);
      assert Join(parts, [sep]) == parts[0] + [sep] + q;
      assert forall k :: 0 <= k < |parts[1..]| - 1 ==> parts[1..][k] == parts[k + 1];
      SplitNOfJoin(parts[1..], sep);
      SplitNHead(parts[0], q, sep, |parts|, parts[1..]);
      assert [parts[0]] + parts[1..] == parts;
    }
  }

  /** Splitting p + [sep] + q, with no sep in p, gives p and then the split of q. */
  lemma SplitNHead(p: string, q: string, sep: char, n: nat, tail: seq<string>)
    requires sep !in p && n >= 2 && SplitN(q, sep, n - 1) == tail
    ensures SplitN(p + [sep] + q, sep, n) == [p] + tail
  {
    var s := p + [sep] + q;
    JoinHead(p, q, sep);
    SplitNUnfold(s, sep, n);
  }

  lemma SplitNUnfold(s: string, sep: char, n: nat)
    requires n >= 2 && IndexOf(s, sep) >= 0
    ensures var i := IndexOf(s, sep); SplitN(s, sep, n) == [s[..i]] + SplitN(s[i + 1..], sep, n - 1)
  {
  }

  /** In p + [sep] + q with no sep in p, the first separator is the one after p. */
  lemma JoinHead(p: string, q: string, sep: char)
    requires sep !in p
    ensures var s := p + [sep] + q; IndexOf(s, sep) == |p| && s[..|p|] == p && s[|p| + 1..] == q
  {
    var s := p + [sep] + q;
    assert s[|p|] == sep;
    assert s[..|p|] == p;
    assert s[|p| + 1..] == q;
  }

  // ---------------------------------------------------------------------------
  // strings.Replace(s, old, new, -1)

  /** strings.Replace with n < 0: every non-overlapping occurrence of pattern, from left to right,
      is replaced by replacement; an empty pattern matches before every code point and at the end. */
  function ReplaceAll(s: string, pattern: string, replacement: string): string
    decreases |s|
  {
    if |pattern| == 0 then
      (if s == [] then replacement else replacement + [s[0]] + ReplaceAll(s[1..], pattern, replacement))
    else if s == [] then []
    else if HasPrefix(s, pattern) then replacement + ReplaceAll(s[|pattern|..], pattern, replacement)
    else [s[0]] + ReplaceAll(s[1..], pattern, replacement)
  }

  /** Replacing one code point by another is a code-point-wise substitution. */
  lemma {:induction false} ReplaceAllCodePoint(s: string, a: char, b: char)
    ensures |ReplaceAll(s, [a], [b])| == |s|
    ensures forall k :: 0 <= k < |s| ==> ReplaceAll(s, [a], [b])[k] == (if s[k] == a then b else s[k])
  {
    if s != [] {
      ReplaceAllCodePoint(s[1..], a, b);
      var r := ReplaceAll(s, [a], [b]);
      var tail := ReplaceAll(s[1..], [a], [b]);
      assert HasPrefix(s, [a]) <==> s[0] == a;
      assert r == [if s[0] == a then b else s[0]] + tail;
      forall k | 0 <= k < |s| ensures r[k] == (if s[k] == a then b else s[k]) {
        if k > 0 { assert r[k] == tail[k - 1]; assert s[1..][k - 1] == s[k]; }
      }
    }
  }

  // ---------------------------------------------------------------------------
  // Decimal numbers: strconv.Itoa, strconv.Atoi and zero-padded fields

  function DigitChar(d: nat): (c: char)
    requires d < 10
    ensures IsDigit(c)
  {
    ['0', '1', '2', '3', '4', '5', '6', '7', '8', '9'][d]
  }

  function DigitValue(c: char): nat
    requires IsDigit(c)
  {
    (c as int - '0' as int) as nat
  }

  /** The value of a string of decimal digits, most significant first; the empty string is 0. */
  function DigitsValue(s: string): nat
    requires AllDigits(s)
  {
    if s == [] then 0 else DigitsValue(s[..|s| - 1]) * 10 + DigitValue(s[|s| - 1])
  }

  /** The decimal digits of n without leading zeros ("0" for zero). */
  function NatDigits(n: nat): (r: string)
    ensures |r| >= 1 && AllDigits(r) && DigitsValue(r) == n
    ensures |r| > 1 ==> r[0] != '0'
  {
    if n < 10 then
      var r := [DigitChar(n)];
      assert r[..0] == [];
      r
    else
      var h := NatDigits(n / 10);
      var r := h + [DigitChar(n % 10)];
      assert r[..|r| - 1] == h;
      r
  }

  function Zeros(n: nat): (r: string)
    ensures |r| == n && AllDigits(r)
  {
    if n == 0 then [] else "0" + Zeros(n - 1)
  }

  lemma ShiftDigit(va: int, p: int, vb: int, d: int)
    ensures (va * p + vb) * 10 + d == va * (10 * p) + (vb * 10 + d)
  {
    calc {
      (va * p + vb) * 10 + d;
      va * p * 10 + vb * 10 + d;
      va * (10 * p) + (vb * 10 + d);
    }
  }

  lemma {:induction false} DigitsValueAppend(a: string, b: string)
    requires AllDigits(a) && AllDigits(b)
    ensures AllDigits(a + b)
    ensures DigitsValue(a + b) == DigitsValue(a) * Pow10(|b|) + DigitsValue(b)
  {
    if b != [] {
      var ab := a + b;
      var b' := b[..|b| - 1];
      var d := DigitValue(b[|b| - 1]);
      assert ab[..|ab| - 1] == a + b';
      assert ab[|ab| - 1] == b[|b| - 1];
      assert DigitsValue(ab) == DigitsValue(a + b') * 10 + d;
      assert DigitsValue(b) == DigitsValue(b') * 10 + d;
      assert Pow10(|b|) == 10 * Pow10(|b'|);
      DigitsValueAppend(a, b');
      ShiftDigit(DigitsValue(a), Pow10(|b'|), DigitsValue(b'), d);
    } else {
      assert a + b == a;
    }
  }

  lemma {:induction false} ZerosValue(n: nat)
    ensures DigitsValue(Zeros(n)) == 0
  {
    if n > 0 {
      var z := Zeros(n);
      assert z == Zeros(n - 1) + "0" by { ZerosShift(n); }
      DigitsValueAppend(Zeros(n - 1), "0");
      ZerosValue(n - 1);
    }
  }

  lemma {:induction false} ZerosShift(n: nat)
    requires n > 0
    ensures Zeros(n) == Zeros(n - 1) + "0"
  {
    if n > 1 { ZerosShift(n - 1); }
  }

  function Pow10(n: nat): (p: nat)
    ensures p >= 1
  {
    if n == 0 then 1 else 10 * Pow10(n - 1)
  }

  /** Left-pads a digit string with zeros to at least width code points. */
  function PadLeft(s: string, width: nat): (r: string)
    requires AllDigits(s)
    ensures AllDigits(r) && DigitsValue(r) == DigitsValue(s)
    ensures |r| == (if |s| >= width then |s| else width)
  {
    if |s| >= width then s
    else
      DigitsValueAppend(Zeros(width - |s|), s);
      ZerosValue(width - |s|);
      Zeros(width - |s|) + s
  }

  /** The formatting used by Go's time.Format for numeric fields (appendInt): an optional minus
      sign and the magnitude zero-padded to width digits. */
  function AppendInt(x: int, width: nat): (r: string)
    ensures r != [] && NoSpace(r)
    ensures x >= 0 ==> AllDigits(r)
  {
    var digits := PadLeft(NatDigits(if x < 0 then -x else x), width);
    AllDigitsNoSpace(digits);
    if x < 0 then
      NoSpaceConcat("-", digits);
      "-" + digits
    else digits
  }

  lemma AllDigitsNoSpace(s: string)
    requires AllDigits(s)
    ensures NoSpace(s)
  {
    forall k | 0 <= k < |s| ensures !IsSpace(s[k]) {
      DigitNotSpace(s[k]);
    }
  }

  lemma DigitNotSpace(c: char)
    requires IsDigit(c)
    ensures !IsSpace(c)
  {
    GraphicNotSpace(c);
  }

  lemma {:induction false} NatDigitsLength(x: nat, w: nat)
    requires 1 <= w && x < Pow10(w)
    ensures |NatDigits(x)| <= w
  {
    if x >= 10 {
      assert w >= 2;
      NatDigitsLength(x / 10, w - 1);
    }
  }

  /** A non-negative field below 10^width is written as exactly width decimal digits. */
  lemma AppendIntFixed(x: int, width: nat)
    requires 1 <= width && 0 <= x < Pow10(width)
    ensures AllDigits(AppendInt(x, width)) && |AppendInt(x, width)| == width
    ensures DigitsValue(AppendInt(x, width)) == x
  {
    NatDigitsLength(x, width);
    assert AppendInt(x, width) == PadLeft(NatDigits(x), width);
  }

  /** strconv.Itoa */
  function Itoa(x: int): (r: string)
    ensures r != [] && NoSpace(r)
    ensures x >= 0 ==> AllDigits(r)
  {
    AppendInt(x, 0)
  }

  datatype NumError = ErrSyntax | ErrRange

  /** strconv.Atoi for a 64-bit int: an optional sign followed by one or more decimal digits,
      whose value must fit in int64. */
  function Atoi(s: string): (r: Result<int, NumError>)
    ensures r.Ok? ==> MinInt64 <= r.value <= MaxInt64
    ensures AllDigits(s) && s != [] && DigitsValue(s) <= MaxInt64 ==> r == Ok(DigitsValue(s))
    ensures AllDigits(s) && s != [] && DigitsValue(s) > MaxInt64 ==> r == Err(ErrRange)
    ensures s == [] ==> r == Err(ErrSyntax)
  {
    var signed := |s| > 0 && (s[0] == '-' || s[0] == '+');
    var body := if signed then s[1..] else s;
    if body == [] || !AllDigits(body) then Err(ErrSyntax)
    else
      var v: int := if signed && s[0] == '-' then -(DigitsValue(body) as int) else DigitsValue(body);
      if v < MinInt64 || v > MaxInt64 then Err(ErrRange) else Ok(v)
  }

  /** strconv.Atoi reads back what strconv.Itoa writes, for every int64. */
  lemma AtoiOfItoa(x: int)
    requires MinInt64 <= x <= MaxInt64
    ensures Atoi(Itoa(x)) == Ok(x)
  {
    var d := NatDigits(if x < 0 then -x else x);
    assert PadLeft(d, 0) == d;
    if x < 0 {
      assert Itoa(x) == "-" + d;
      assert Itoa(x)[1..] == d;
    } else {
      assert Itoa(x) == d;
      assert IsDigit(d[0]);
    }
  }

  // ---------------------------------------------------------------------------
  // Go's < on strings (strings.Compare)

  /** Lexicographic order by code point: Go's a < b. */
  predicate Less(a: string, b: string)
    decreases |a|
  {
    if a == [] then b != []
    else b != [] && (a[0] < b[0] || (a[0] == b[0] && Less(a[1..], b[1..])))
  }

  /** strings.Compare(a, b) <= 0 */
  predicate LessEq(a: string, b: string) { a == b || Less(a, b) }

  lemma {:induction false} LessIrreflexive(a: string)
    ensures !Less(a, a)
  {
    if a != [] { LessIrreflexive(a[1..]); }
  }

  lemma {:induction false} LessTransitive(a: string, b: string, c: string)
    requires Less(a, b) && Less(b, c)
    ensures Less(a, c)
    decreases |a|
  {
    if a != [] && a[0] == b[0] && b[0] == c[0] {
      LessTransitive(a[1..], b[1..], c[1..]);
    }
  }

  lemma {:induction false} LessTotal(a: string, b: string)
    ensures a == b || Less(a, b) || Less(b, a)
    decreases |a|
  {
    if a != [] && b != [] && a[0] == b[0] {
      LessTotal(a[1..], b[1..]);
      if a[1..] == b[1..] { assert a == [a[0]] + a[1..]; assert b == [b[0]] + b[1..]; }
    }
  }

  lemma LessAsymmetric(a: string, b: string)
    requires Less(a, b)
    ensures !Less(b, a)
  {
    if Less(b, a) { LessTransitive(a, b, a); LessIrreflexive(a); }
  }

  /** A string is smaller than every longer string that extends it. */
  lemma {:induction false} LessProperPrefix(a: string, t: string)
    ensures Less(a, a + t) <==> t != []
    ensures !Less(a + t, a)
  {
    if a != [] {
      assert (a + t)[0] == a[0];
      assert (a + t)[1..] == a[1..] + t;
      LessProperPrefix(a[1..], t);
    }
  }

  /** Comparing two strings that start with equally long heads compares the heads first. */
  lemma {:induction false} LessAppend(p: string, x: string, q: string, y: string)
    requires |p| == |q|
    ensures Less(p + x, q + y) <==> Less(p, q) || (p == q && Less(x, y))
  {
    if p != [] {
      assert (p + x)[0] == p[0] && (q + y)[0] == q[0];
      assert (p + x)[1..] == p[1..] + x;
      assert (q + y)[1..] == q[1..] + y;
      LessAppend(p[1..], x, q[1..], y);
      if p[0] == q[0] && p[1..] == q[1..] { assert p == q; }
      if p == q { assert p[1..] == q[1..]; }
    } else {
      assert p + x == x && q + y == y;
    }
  }

  /** For zero-padded numerals of one width, string order is numeric order. */
  lemma {:induction false} LessFixedWidth(a: string, b: string)
    requires |a| == |b| && AllDigits(a) && AllDigits(b)
    ensures Less(a, b) <==> DigitsValue(a) < DigitsValue(b)
    decreases |a|
  {
    if a != [] {
      var n := |a| - 1;
      DigitsValueAppend([a[0]], a[1..]);
      DigitsValueAppend([b[0]], b[1..]);
      assert [a[0]] + a[1..] == a && [b[0]] + b[1..] == b;
      assert [a[0]][..0] == [] && [b[0]][..0] == [];
      DigitsValueBound(a[1..]);
      DigitsValueBound(b[1..]);
      LessFixedWidth(a[1..], b[1..]);
      LeadingPlace(DigitValue(a[0]), DigitValue(b[0]), DigitsValue(a[1..]), DigitsValue(b[1..]), Pow10(n));
      assert a[0] < b[0] <==> DigitValue(a[0]) < DigitValue(b[0]);
    }
  }

  /** Numbers of the same width compare by their leading digit first. */
  lemma LeadingPlace(x: nat, y: nat, ra: nat, rb: nat, p: nat)
    requires ra < p && rb < p
    ensures x * p + ra < y * p + rb <==> x < y || (x == y && ra < rb)
  {
    if x < y {
      MulLess(x, y, p);
    } else if y < x {
      MulLess(y, x, p);
    }
  }

  lemma MulLess(x: nat, y: nat, p: nat)
    requires x < y
    ensures x * p + p <= y * p
  {
    var k := y - x - 1;
    assert y * p == (x + 1 + k) * p == x * p + p + k * p;
  }

  lemma {:induction false} DigitsValueBound(s: string)
    requires AllDigits(s)
    ensures DigitsValue(s) < Pow10(|s|)
  {
    if s != [] {
      DigitsValueBound(s[..|s| - 1]);
    }
  }

  // ---------------------------------------------------------------------------
  // len() of a Go string

  /** The number of bytes of the UTF-8 encoding of one code point. */
  function Utf8Width(c: char): nat
  {
    if c < '\U{0080}' then 1 else if c < '\U{0800}' then 2 else if c < '\U{10000}' then 3 else 4
  }

  /** Go's len(s): the length in bytes of the UTF-8 encoding. */
  function Utf8Len(s: string): (n: nat)
    ensures |s| <= n <= 4 * |s|
    ensures n == |s| <==> forall k :: 0 <= k < |s| ==> s[k] < '\U{0080}'
  {
    if s == [] then 0
    else
      var n := Utf8Width(s[0]) + Utf8Len(s[1..]);
      assert forall k :: 1 <= k < |s| ==> s[1..][k - 1] == s[k];
      n
  }

  // ---------------------------------------------------------------------------
  // filepath.Base on a slash-separated path

  /** The path without its trailing slashes. */
  function TrimTrailingSlashes(p: string): (r: string)
    ensures |r| <= |p| && r == p[..|r|] && (r == [] || r[|r| - 1] != '/')
    ensures forall k :: |r| <= k < |p| ==> p[k] == '/'
  {
    if p != [] && p[|p| - 1] == '/' then TrimTrailingSlashes(p[..|p| - 1]) else p
  }

  /** The index of the last slash of p, or -1. */
  function LastSlash(p: string): (i: int)
    ensures -1 <= i < |p| && (i >= 0 ==> p[i] == '/')
    ensures forall k :: i < k < |p| ==> p[k] != '/'
  {
    if p == [] then -1
    else if p[|p| - 1] == '/' then |p| - 1
    else LastSlash(p[..|p| - 1])
  }

  /** filepath.Base: the last element of the path; "." for the empty path and "/" for a path of
      slashes only. */
  function Base(path: string): (r: string)
    ensures r != []
    ensures r == "/" || r == "." || '/' !in r
    ensures path == [] ==> r == "."
    ensures path != [] && (forall k :: 0 <= k < |path| ==> path[k] == '/') ==> r == "/"
  {
    if path == [] then "."
    else
      var p := TrimTrailingSlashes(path);
      if p == [] then "/" else p[LastSlash(p) + 1..]
  }

  /** The last element of dir/name is name. */
  lemma BaseOfPath(dir: string, name: string)
    requires name != [] && '/' !in name
    ensures Base(dir + "/" + name) == name
  {
    var path := dir + "/" + name;
    assert path[|path| - 1] == name[|name| - 1];
    assert TrimTrailingSlashes(path) == path;
    var i := LastSlash(path);
    assert path[|path| - |name| - 1] == '/';
    assert path[|dir| + 1..] == name;
    assert forall k :: |dir| < k < |path| ==> path[k] == name[k - |dir| - 1];
    assert path[|dir|] == '/';
    assert i == |dir|;
  }
}
