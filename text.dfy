/**
  The JavaScript string operations the prompt is built from: `toLowerCase`,
  number-to-string conversion in a template literal, and `Array.prototype.join`.
  The number rendering and the join come with readers that undo them (decimal
  parsing, splitting at ", "), so that they can be shown to lose nothing.
  Lower-casing loses the case and has no reader; it is idempotent instead.
 */
module Text {

  predicate IsUpper(ch: char) {
    'A' <= ch <= 'Z'
  }

  function LowerChar(ch: char): char {
    if IsUpper(ch) then (ch as int + 32) as char else ch
  }

  /** `s.toLowerCase()`, for the ASCII letters: each capital becomes its
      small letter, and every other character stays where it was. */
  function ToLower(s: string): (r: string)
    ensures |r| == |s|
    ensures forall i :: 0 <= i < |r| ==> !IsUpper(r[i])
    ensures forall i {:trigger r[i]} :: 0 <= i < |s| && !IsUpper(s[i]) ==> r[i] == s[i]
    ensures forall i {:trigger r[i]} :: 0 <= i < |s| && IsUpper(s[i]) ==>
      r[i] == "abcdefghijklmnopqrstuvwxyz"[s[i] as int - 'A' as int]
  {
    seq(|s|, i requires 0 <= i < |s| => LowerChar(s[i]))
  }

  /** Lower-casing is idempotent: a lower-cased string is its own lower case. */
  lemma ToLowerIsLower(s: string)
    ensures ToLower(ToLower(s)) == ToLower(s)
  {
  }

  predicate IsDigit(ch: char) {
    '0' <= ch <= '9'
  }

  function DigitChar(d: nat): (ch: char)
    requires d < 10
    ensures IsDigit(ch)
  {
    ('0' as int + d) as char
  }

  function DigitValue(ch: char): nat {
    if IsDigit(ch) then ch as int - '0' as int else 0
  }

  /** `${n}` for a non-negative integer: its decimal digits, most significant
      first, with no leading zero. */
  function NatToDecimal(n: nat): (r: string)
    ensures |r| >= 1
    ensures forall i :: 0 <= i < |r| ==> IsDigit(r[i])
    ensures n > 0 ==> r[0] != '0'
    ensures n < 10 ==> |r| == 1
  {
    if n < 10 then [DigitChar(n)] else NatToDecimal(n / 10) + [DigitChar(n % 10)]
  }

  /** The number a string of decimal digits denotes (a non-digit reads as 0). */
  function DecimalValue(s: string): nat {
    if s == [] then 0 else DecimalValue(s[..|s| - 1]) * 10 + DigitValue(s[|s| - 1])
  }

  /** Reading back the decimal rendering of a count gives the count. */
  lemma {:induction false} DecimalRoundTrip(n: nat)
    ensures DecimalValue(NatToDecimal(n)) == n
  {
    if n >= 10 {
      var s := NatToDecimal(n);
      assert s[..|s| - 1] == NatToDecimal(n / 10);
      DecimalRoundTrip(n / 10);
    }
  }

  /** `parts.join(sep)`. */
  function Join(parts: seq<string>, sep: string): string {
    if |parts| == 0 then ""
    else if |parts| == 1 then parts[0]
    else parts[0] + sep + Join(parts[1..], sep)
  }

  /** The index of the first `ch` in `s`, or `|s|` when there is none. */
  function IndexOf(s: string, ch: char): (k: nat)
    ensures k <= |s|
    ensures k < |s| ==> s[k] == ch
    ensures forall j :: 0 <= j < k ==> s[j] != ch
  {
    if s == [] then 0
    else if s[0] == ch then 0
    else 1 + IndexOf(s[1..], ch)
  }

  /** The pieces of `s` between the separators ", " (the reader of `Join(_, ", ")`). */
  function SplitAtCommas(s: string): seq<string>
    decreases |s|
  {
    var k := IndexOf(s, ',');
    if k == |s| then [s]
    else [s[..k]] + SplitAtCommas(if k + 2 <= |s| then s[k + 2..] else [])
  }

  /** The first `ch` of `p + t` is the first of `t` when `p` has none. */
  lemma IndexOfAfter(p: string, t: string, ch: char)
    requires ch !in p
    ensures IndexOf(p + t, ch) == |p| + IndexOf(t, ch)
  {
    var m := IndexOf(t, ch);
    if m < |t| {
      assert (p + t)[|p| + m] == ch;
    }
  }

  /** Splitting a comma-free piece followed by ", " and more text gives the
      piece, then the pieces of the rest. */
  lemma SplitFirst(p: string, rest: string)
    requires ',' !in p
    ensures SplitAtCommas(p + (", " + rest)) == [p] + SplitAtCommas(rest)
  {
    var t := ", " + rest;
    var s := p + t;
    IndexOfAfter(p, t, ',');
    assert t[0] == ',';
    assert IndexOf(s, ',') == |p|;
    assert s[..|p|] == p;
    assert s[|p| + 2..] == t[2..] == rest;
  }

  /** Joining comma-free pieces with ", " and splitting the result gives the pieces back. */
  lemma {:induction false} SplitJoin(parts: seq<string>)
    requires |parts| >= 1
    requires forall i :: 0 <= i < |parts| ==> ',' !in parts[i]
    ensures SplitAtCommas(Join(parts, ", ")) == parts
  {
    if |parts| == 1 {
      IndexOfAfter(parts[0], "", ',');
    } else {
      var rest := Join(parts[1..], ", ");
      assert Join(parts, ", ") == parts[0] + (", " + rest);
      SplitFirst(parts[0], rest);
      SplitJoin(parts[1..]);
      assert parts == [parts[0]] + parts[1..];
    }
  }

  /** `needle` occurs in `s` starting at index `i`. */
  predicate OccursAt(needle: string, s: string, i: int) {
    0 <= i <= |s| - |needle| && s[i..i + |needle|] == needle
  }

  /** `s.includes(needle)`. */
  ghost predicate IsInfix(needle: string, s: string) {
    exists i :: OccursAt(needle, s, i)
  }

  /** An occurrence stays where it is when text is appended. */
  lemma OccursAtExtend(needle: string, s: string, i: int, t: string)
    requires OccursAt(needle, s, i)
    ensures OccursAt(needle, s + t, i)
  {
    assert (s + t)[i..i + |needle|] == s[i..i + |needle|];
  }

  /** A string occurs at the start of any text appended to it. */
  lemma OccursAtStart(needle: string, t: string)
    ensures OccursAt(needle, needle + t, 0)
  {
    assert (needle + t)[..|needle|] == needle;
  }

  /** A string occurs at the end of any text it is appended to. */
  lemma OccursAtEnd(s: string, needle: string)
    ensures OccursAt(needle, s + needle, |s|)
  {
    assert (s + needle)[|s|..|s| + |needle|] == needle;
  }

  /** Where a string occurs, so does each of its prefixes. */
  lemma OccursAtPrefix(needle: string, t: string, s: string, i: int)
    requires OccursAt(needle + t, s, i)
    ensures OccursAt(needle, s, i)
  {
    assert s[i..i + |needle|] == (needle + t)[..|needle|];
  }

  lemma AppendAssoc(a: string, b: string, c: string)
    ensures a + (b + c) == (a + b) + c
  {
  }
}
