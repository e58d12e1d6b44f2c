/**
 * The JavaScript string operations the application relies on, over `seq<char>`:
 * `trim`, ASCII case mapping, substring search, `split`/`join` and the decimal
 * and hexadecimal renderings of numbers and ObjectIds.
 */
module Text {

  /** The characters `String.prototype.trim` removes (ECMAScript WhiteSpace and LineTerminator). */
  predicate IsSpace(c: char) {
    || c == '\t' || c == '\n' || c == '\U{000B}' || c == '\U{000C}' || c == '\r' || c == ' '
    || c == '\U{00A0}' || c == '\U{1680}' || ('\U{2000}' <= c <= '\U{200A}')
    || c == '\U{2028}' || c == '\U{2029}' || c == '\U{202F}' || c == '\U{205F}'
    || c == '\U{3000}' || c == '\U{FEFF}'
  }

  /** `s` neither starts nor ends with white space: `trim` leaves it as it is. */
  predicate IsTrimmed(s: string) {
    s == [] || (!IsSpace(s[0]) && !IsSpace(s[|s| - 1]))
  }

  /** `s` holds nothing but white space, so `s.trim()` is falsy. */
  predicate IsBlank(s: string) {
    forall i :: 0 <= i < |s| ==> IsSpace(s[i])
  }

  /** Drops the leading white space of `s`. */
  function TrimStart(s: string): (r: string)
    ensures |r| <= |s| && r == s[|s| - |r|..]
    ensures r == [] || !IsSpace(r[0])
    ensures IsBlank(s[..|s| - |r|])
  {
    if |s| > 0 && IsSpace(s[0]) then
      var t := s[1..];
      var r := TrimStart(t);
      assert t[|t| - |r|..] == s[|s| - |r|..];
      BlankCons(s[0], t[..|t| - |r|]);
      assert [s[0]] + t[..|t| - |r|] == s[..|s| - |r|];
      r
    else
      assert s[..0] == [];
      s
  }

  /** Drops the trailing white space of `s`. */
  function TrimEnd(s: string): (r: string)
    ensures |r| <= |s| && r == s[..|r|]
    ensures r == [] || !IsSpace(r[|r| - 1])
    ensures IsBlank(s[|r|..])
  {
    if |s| > 0 && IsSpace(s[|s| - 1]) then
      var t := s[..|s| - 1];
      var r := TrimEnd(t);
      assert t[..|r|] == s[..|r|];
      BlankSnoc(t[|r|..], s[|s| - 1]);
      assert t[|r|..] + [s[|s| - 1]] == s[|r|..];
      r
    else
      assert s[|s|..] == [];
      s
  }

  /** A blank string with a space in front is blank. */
  lemma BlankCons(c: char, t: string)
    requires IsSpace(c) && IsBlank(t)
    ensures IsBlank([c] + t)
  {
    forall i | 0 <= i < |[c] + t| ensures IsSpace(([c] + t)[i]) {
      if i > 0 { assert ([c] + t)[i] == t[i - 1]; }
    }
  }

  /** A blank string with a space behind is blank. */
  lemma BlankSnoc(t: string, c: char)
    requires IsSpace(c) && IsBlank(t)
    ensures IsBlank(t + [c])
  {
    forall i | 0 <= i < |t + [c]| ensures IsSpace((t + [c])[i]) {
      if i < |t| { assert (t + [c])[i] == t[i]; }
    }
  }

  /** `String.prototype.trim`. */
  function Trim(s: string): (r: string)
    ensures IsTrimmed(r)
  {
    TrimEnd(TrimStart(s))
  }

  /** What `trim` leaves is a piece of `s` with only white space around it. */
  lemma TrimSlice(s: string) returns (k: nat)
    ensures k + |Trim(s)| <= |s| && Trim(s) == s[k..k + |Trim(s)|]
    ensures IsBlank(s[..k]) && IsBlank(s[k + |Trim(s)|..])
  {
    k := BlankAround(s, TrimStart(s), Trim(s));
  }

  /**
   * A suffix `t` of `s` after blank text, and a prefix `r` of `t` before
   * blank text, is a piece of `s` with blank text on both sides.
   */
  lemma BlankAround(s: string, t: string, r: string) returns (k: nat)
    requires |t| <= |s| && t == s[|s| - |t|..] && IsBlank(s[..|s| - |t|])
    requires |r| <= |t| && r == t[..|r|] && IsBlank(t[|r|..])
    ensures k + |r| <= |s| && r == s[k..k + |r|]
    ensures IsBlank(s[..k]) && IsBlank(s[k + |r|..])
  {
    k := |s| - |t|;
    assert s[k..k + |r|] == t[..|r|];
    assert s[k + |r|..] == t[|r|..];
  }

  /** What `trim` leaves is empty exactly when the string was blank. */
  lemma TrimEmptyIffBlank(s: string)
    ensures Trim(s) == [] <==> IsBlank(s)
  {
    var r := Trim(s);
    var k := TrimSlice(s);
    if r == [] {
      forall i | 0 <= i < |s| ensures IsSpace(s[i]) {
        if i < k { assert s[..k][i] == s[i]; } else { assert s[k..][i - k] == s[i]; }
      }
    } else {
      assert s[k] == r[0];
    }
  }

  /** `trim` leaves a string without surrounding white space unchanged. */
  lemma TrimKeepsTrimmed(s: string)
    requires IsTrimmed(s)
    ensures Trim(s) == s
  {
    if s == [] {
      assert TrimStart(s) == s;
    } else {
      assert !IsSpace(s[0]) && !IsSpace(s[|s| - 1]);
      assert TrimStart(s) == s;
    }
    assert TrimEnd(s) == s;
  }

  /** ASCII lower-casing of one character. */
  function LowerChar(c: char): char {
    if 'A' <= c <= 'Z' then (c as int + 32) as char else c
  }

  /** ASCII upper-casing of one character. */
  function UpperChar(c: char): char {
    if 'a' <= c <= 'z' then (c as int - 32) as char else c
  }

  /** `toLowerCase`, restricted to ASCII letters. */
  function Lower(s: string): (r: string)
    ensures |r| == |s| && forall i :: 0 <= i < |s| ==> r[i] == LowerChar(s[i])
  {
    seq(|s|, i requires 0 <= i < |s| => LowerChar(s[i]))
  }

  /** `toUpperCase`, restricted to ASCII letters. */
  function Upper(s: string): (r: string)
    ensures |r| == |s| && forall i :: 0 <= i < |s| ==> r[i] == UpperChar(s[i])
  {
    seq(|s|, i requires 0 <= i < |s| => UpperChar(s[i]))
  }

  /** `needle` occurs in `hay` starting at position `i`. */
  predicate OccursAt(needle: string, hay: string, i: nat) {
    i + |needle| <= |hay| && hay[i..i + |needle|] == needle
  }

  /** `needle` occurs in `hay` as a contiguous piece. */
  predicate IsSubstring(needle: string, hay: string) {
    exists i: nat :: i <= |hay| - |needle| && OccursAt(needle, hay, i)
  }

  /** Case-insensitive containment, the literal reading of the `$regex` with option `i`. */
  predicate ContainsIgnoringCase(hay: string, needle: string) {
    IsSubstring(Lower(needle), Lower(hay))
  }

  /** The first position of `c` in `s`. */
  function IndexOf(s: string, c: char): (i: nat)
    requires c in s
    ensures i < |s| && s[i] == c && c !in s[..i]
  {
    if s[0] == c then 0 else 1 + IndexOf(s[1..], c)
  }

  /** `String.prototype.split` on a one-character separator. */
  function Split(s: string, sep: char): (parts: seq<string>)
    ensures |parts| >= 1
    ensures forall k :: 0 <= k < |parts| ==> sep !in parts[k]
    decreases |s|
  {
    if sep !in s then [s]
    else
      var i := IndexOf(s, sep);
      [s[..i]] + Split(s[i + 1..], sep)
  }

  /** `Array.prototype.join`. */
  function Join(parts: seq<string>, sep: string): string {
    if |parts| == 0 then ""
    else if |parts| == 1 then parts[0]
    else parts[0] + sep + Join(parts[1..], sep)
  }

  /** Part `i` of a join appears in it, at the returned position. */
  lemma {:induction false} JoinOccurs(parts: seq<string>, sep: string, i: nat) returns (p: nat)
    requires i < |parts|
    ensures OccursAt(parts[i], Join(parts, sep), p)
  {
    var j := Join(parts, sep);
    if i == 0 {
      p := 0;
      assert j[..|parts[0]|] == parts[0];
    } else {
      var rest := Join(parts[1..], sep);
      var q := JoinOccurs(parts[1..], sep, i - 1);
      p := |parts[0]| + |sep| + q;
      assert j == parts[0] + sep + rest;
      assert j[p..p + |parts[i]|] == rest[q..q + |parts[i]|];
    }
  }

  /** Every part of a join appears in it. */
  lemma JoinHasParts(parts: seq<string>, sep: string)
    ensures forall i :: 0 <= i < |parts| ==> IsSubstring(parts[i], Join(parts, sep))
  {
    forall i | 0 <= i < |parts| ensures IsSubstring(parts[i], Join(parts, sep)) {
      var p := JoinOccurs(parts, sep, i);
      assert p <= |Join(parts, sep)| - |parts[i]|;
    }
  }

  /** Splitting and joining back with the same separator gives the string back. */
  lemma {:induction false} JoinSplit(s: string, sep: char)
    ensures Join(Split(s, sep), [sep]) == s
    decreases |s|
  {
    if sep in s {
      var i := IndexOf(s, sep);
      JoinSplit(s[i + 1..], sep);
      var rest := Split(s[i + 1..], sep);
      assert Split(s, sep) == [s[..i]] + rest;
      assert s == s[..i] + [sep] + s[i + 1..];
    }
  }

  /** Joining pieces that do not contain the separator and splitting again gives the pieces back. */
  lemma {:induction false} SplitJoin(parts: seq<string>, sep: char)
    requires |parts| >= 1
    requires forall k :: 0 <= k < |parts| ==> sep !in parts[k]
    ensures Split(Join(parts, [sep]), sep) == parts
  {
    if |parts| > 1 {
      var s := Join(parts, [sep]);
      var tail := Join(parts[1..], [sep]);
      assert s == parts[0] + [sep] + tail;
      assert s[|parts[0]|] == sep;
      assert s[..|parts[0]|] == parts[0];
      assert sep in s;
      assert IndexOf(s, sep) == |parts[0]|;
      assert s[|parts[0]| + 1..] == tail;
      SplitJoin(parts[1..], sep);
    }
  }

  /** The character of the digit `d` (lower-case for 10..15, as `toString(16)` prints). */
  function DigitChar(d: nat): (c: char)
    requires d < 16
    ensures if d < 10 then c as int == '0' as int + d else c as int == 'a' as int + d - 10
  {
    "0123456789abcdef"[d]
  }

  /** `String(n)` for a non-negative integer. */
  function Decimal(n: nat): (r: string)
    ensures |r| >= 1 && forall i :: 0 <= i < |r| ==> '0' <= r[i] <= '9'
    ensures r[0] == '0' <==> n == 0
  {
    if n < 10 then [DigitChar(n)] else Decimal(n / 10) + [DigitChar(n % 10)]
  }

  /** The value of a string of decimal digits; the inverse of `Decimal`. */
  function DecimalValue(s: string): nat
    requires forall i :: 0 <= i < |s| ==> '0' <= s[i] <= '9'
  {
    if s == [] then 0 else DecimalValue(s[..|s| - 1]) * 10 + (s[|s| - 1] as int - '0' as int)
  }

  /** Rendering a count and reading it back gives the same count. */
  lemma {:induction false} DecimalRoundTrip(n: nat)
    ensures DecimalValue(Decimal(n)) == n
  {
    if n >= 10 {
      DecimalRoundTrip(n / 10);
      var r := Decimal(n);
      assert r[..|r| - 1] == Decimal(n / 10);
    }
  }

  /** `String(i)` for an integer. */
  function IntString(i: int): (r: string)
    ensures |r| >= 1
    ensures i < 0 <==> r[0] == '-'
  {
    if i < 0 then "-" + Decimal(-i) else Decimal(i)
  }

  /** The last `width` hexadecimal digits of `n`, with leading zeros. */
  function Hex(n: nat, width: nat): (r: string)
    ensures |r| == width
    ensures forall i :: 0 <= i < |r| ==> r[i] in "0123456789abcdef"
  {
    if width == 0 then "" else Hex(n / 16, width - 1) + [DigitChar(n % 16)]
  }

  /** `16` to the power `width`: the first count `Hex` cannot write in `width` digits. */
  function Pow16(width: nat): (p: nat)
    ensures p >= 1
  {
    if width == 0 then 1 else 16 * Pow16(width - 1)
  }

  /** The value of one hexadecimal digit: its position in the alphabet `DigitChar` draws from. */
  function HexDigitValue(c: char): (d: nat)
    requires c in "0123456789abcdef"
    ensures d < 16 && DigitChar(d) == c
  {
    if '0' <= c <= '9' then c as int - '0' as int else c as int - 'a' as int + 10
  }

  /** The value of a string of hexadecimal digits; the inverse of `Hex`. */
  function HexValue(s: string): nat
    requires forall i :: 0 <= i < |s| ==> s[i] in "0123456789abcdef"
  {
    if s == [] then 0 else HexValue(s[..|s| - 1]) * 16 + HexDigitValue(s[|s| - 1])
  }

  /** A count below `16^width` is written in full: reading its digits back gives the count. */
  lemma {:induction false} HexRoundTrip(n: nat, width: nat)
    requires n < Pow16(width)
    ensures HexValue(Hex(n, width)) == n
  {
    if width > 0 {
      assert n / 16 < Pow16(width - 1);
      HexRoundTrip(n / 16, width - 1);
      var r := Hex(n, width);
      assert r[..|r| - 1] == Hex(n / 16, width - 1);
    }
  }
}
