/** Hand-written scanners for the regular expressions of the booking tools. Each pattern there is
    a chain of literals, character classes and bounded digit runs in which every digit run is
    followed by something that is not a digit, so a match that starts at a given position, and the
    sub-matches Go's regexp reports for it, are found by taking each digit run as long as it may be.
    A scanner reads the text from its start and, when it matches, gives back what it read and the
    rest of the text. `Leftmost` then looks for the first position where the chain matches, as
    `FindStringSubmatch` does. */
module Scan {
  import opened Wrappers
  import opened GoStrings

  /** RE2's \s: tab, newline, form feed, carriage return and space. */
  predicate IsRegexSpace(c: char) { c == '\t' || c == '\n' || c == '\U{000C}' || c == '\r' || c == ' ' }

  /** How many decimal digits, at most max, open t. */
  function DigitSpan(t: string, max: nat): (n: nat)
    ensures n <= max && n <= |t| && AllDigits(t[..n])
    ensures n < max && n < |t| ==> !IsDigit(t[n])
    decreases max
  {
    if max == 0 || t == [] || !IsDigit(t[0]) then 0
    else
      var n := 1 + DigitSpan(t[1..], max - 1);
      assert t[..n] == [t[0]] + t[1..][..n - 1];
      n
  }

  /** [0-9]{lo,hi} at the start of t, as many digits as possible: their value and the rest of t. */
  function Digits(t: string, lo: nat, hi: nat): (r: Option<(nat, string)>)
    ensures r.Some? ==> |r.value.1| <= |t| && lo <= |t| - |r.value.1| <= hi
    ensures r.Some? ==> var n := |t| - |r.value.1|;
      t[n..] == r.value.1 && AllDigits(t[..n]) && r.value.0 == DigitsValue(t[..n])
    ensures r.Some? && |t| - |r.value.1| < hi && r.value.1 != [] ==> !IsDigit(r.value.1[0])
    ensures r.None? <==> DigitSpan(t, hi) < lo
  {
    var n := DigitSpan(t, hi);
    if n < lo then None else Some((DigitsValue(t[..n]), t[n..]))
  }

  lemma {:induction false} DigitSpanOf(x: string, q: string, max: nat)
    requires AllDigits(x) && |x| <= max
    requires |x| == max || q == [] || !IsDigit(q[0])
    ensures DigitSpan(x + q, max) == |x|
  {
    if x != [] {
      assert (x + q)[0] == x[0];
      assert (x + q)[1..] == x[1..] + q;
      DigitSpanOf(x[1..], q, max - 1);
    } else {
      assert x + q == q;
    }
  }

  /** A run of digits that stops at a non-digit, at the end of the text or at the upper bound is
      read whole, and its value is the value of those digits. */
  lemma DigitsOf(x: string, q: string, lo: nat, hi: nat)
    requires AllDigits(x) && lo <= |x| <= hi
    requires |x| == hi || q == [] || !IsDigit(q[0])
    ensures Digits(x + q, lo, hi) == Some((DigitsValue(x), q))
  {
    DigitSpanOf(x, q, hi);
    assert (x + q)[..|x|] == x && (x + q)[|x|..] == q;
  }

  /** A literal at the start of t: the rest of t. */
  function Lit(t: string, lit: string): (r: Option<string>)
    ensures r.Some? <==> HasPrefix(t, lit)
    ensures r.Some? ==> r.value == t[|lit|..]
  {
    if HasPrefix(t, lit) then Some(t[|lit|..]) else None
  }

  lemma LitOf(lit: string, q: string)
    ensures Lit(lit + q, lit) == Some(q)
  {
    assert (lit + q)[..|lit|] == lit && (lit + q)[|lit|..] == q;
  }

  /** An alternation of literals at the start of t, tried in order. */
  function OneOf(t: string, alts: seq<string>): (r: Option<string>)
    ensures r.Some? ==> exists k :: 0 <= k < |alts| && Lit(t, alts[k]) == r
    ensures r.None? ==> forall k :: 0 <= k < |alts| ==> !HasPrefix(t, alts[k])
  {
    if alts == [] then None
    else if HasPrefix(t, alts[0]) then Lit(t, alts[0])
    else
      var r := OneOf(t, alts[1..]);
      assert forall k :: 1 <= k < |alts| ==> alts[1..][k - 1] == alts[k];
      r
  }

  /** The k-th alternative is taken when none before it opens the text. */
  lemma {:induction false} OneOfAt(t: string, alts: seq<string>, k: nat)
    requires k < |alts| && HasPrefix(t, alts[k])
    requires forall j :: 0 <= j < k ==> !HasPrefix(t, alts[j])
    ensures OneOf(t, alts) == Some(t[|alts[k]|..])
  {
    if k > 0 {
      assert !HasPrefix(t, alts[0]);
      assert alts[1..][k - 1] == alts[k];
      assert forall j :: 0 <= j < k - 1 ==> alts[1..][j] == alts[j + 1];
      OneOfAt(t, alts[1..], k - 1);
    }
  }

  /** When the alternatives all have the same length, an alternative that opens the text is
      consumed whole, whichever of them is tried first. */
  lemma {:induction false} OneOfSameLength(alts: seq<string>, k: nat, rest: string)
    requires k < |alts| && forall j :: 0 <= j < |alts| ==> |alts[j]| == |alts[k]|
    ensures OneOf(alts[k] + rest, alts) == Some(rest)
  {
    var t := alts[k] + rest;
    assert t[..|alts[k]|] == alts[k];
    var j :| 0 <= j < |alts| && Lit(t, alts[j]) == OneOf(t, alts);
    assert t[|alts[k]|..] == rest;
  }

  /** How many RE2 white-space code points open t. */
  function SpaceSpan(t: string): (n: nat)
    ensures n <= |t| && (forall k :: 0 <= k < n ==> IsRegexSpace(t[k]))
    ensures n < |t| ==> !IsRegexSpace(t[n])
  {
    if t == [] || !IsRegexSpace(t[0]) then 0 else 1 + SpaceSpan(t[1..])
  }

  /** \s+ at the start of t, as long as possible: the rest of t. */
  function Spaces(t: string): (r: Option<string>)
    ensures r.Some? <==> t != [] && IsRegexSpace(t[0])
    ensures r.Some? ==> |r.value| < |t| && r.value == t[|t| - |r.value|..]
    ensures r.Some? ==> (forall k :: 0 <= k < |t| - |r.value| ==> IsRegexSpace(t[k]))
    ensures r.Some? && r.value != [] ==> !IsRegexSpace(r.value[0])
  {
    if t == [] || !IsRegexSpace(t[0]) then None else Some(t[SpaceSpan(t)..])
  }

  lemma {:induction false} SpaceSpanOf(sp: string, q: string)
    requires forall k :: 0 <= k < |sp| ==> IsRegexSpace(sp[k])
    requires q == [] || !IsRegexSpace(q[0])
    ensures SpaceSpan(sp + q) == |sp|
  {
    if sp != [] {
      assert (sp + q)[0] == sp[0];
      assert (sp + q)[1..] == sp[1..] + q;
      SpaceSpanOf(sp[1..], q);
    } else {
      assert sp + q == q;
    }
  }

  lemma SpacesOf(sp: string, q: string)
    requires sp != [] && forall k :: 0 <= k < |sp| ==> IsRegexSpace(sp[k])
    requires q == [] || !IsRegexSpace(q[0])
    ensures Spaces(sp + q) == Some(q)
  {
    SpaceSpanOf(sp, q);
    assert (sp + q)[0] == sp[0];
    assert (sp + q)[|sp|..] == q;
  }

  /** The first position at or after i from which m matches, with what it found there. */
  function Leftmost<T>(m: string -> Option<T>, s: string, i: nat): (r: Option<(nat, T)>)
    requires i <= |s|
    ensures r.Some? ==> i <= r.value.0 <= |s| && m(s[r.value.0..]) == Some(r.value.1)
    ensures r.Some? ==> forall k :: i <= k < r.value.0 ==> m(s[k..]).None?
    ensures r.None? ==> forall k :: i <= k <= |s| ==> m(s[k..]).None?
    decreases |s| - i
  {
    match m(s[i..])
    case Some(v) => Some((i, v))
    case None => if i == |s| then None else Leftmost(m, s, i + 1)
  }

  /** A text that m matches from its start is matched at position 0. */
  lemma LeftmostAtStart<T>(m: string -> Option<T>, s: string)
    requires m(s).Some?
    ensures Leftmost(m, s, 0) == Some((0, m(s).value))
  {
    assert s[0..] == s;
  }

  /** The last position at or before j from which m matches, with what it found there: a greedy
      `.*` followed by the rest of a pattern backs off from the longest run first. */
  function Rightmost<T>(m: string -> Option<T>, s: string, j: nat): (r: Option<(nat, T)>)
    requires j <= |s|
    ensures r.Some? ==> r.value.0 <= j && m(s[r.value.0..]) == Some(r.value.1)
    ensures r.Some? ==> forall k :: r.value.0 < k <= j ==> m(s[k..]).None?
    ensures r.None? ==> forall k :: 0 <= k <= j ==> m(s[k..]).None?
    decreases j
  {
    match m(s[j..])
    case Some(v) => Some((j, v))
    case None => if j == 0 then None else Rightmost(m, s, j - 1)
  }

  /** Positions after the last one where m matches are passed over. */
  lemma {:induction false} RightmostSkip<T>(m: string -> Option<T>, s: string, j0: nat, j: nat)
    requires j0 <= j <= |s|
    requires forall k :: j0 < k <= j ==> m(s[k..]).None?
    ensures Rightmost(m, s, j) == Rightmost(m, s, j0)
    decreases j
  {
    if j > j0 {
      RightmostSkip(m, s, j0, j - 1);
    }
  }
}
