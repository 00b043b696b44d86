/** Python's `int(s)` on a decimal string, and decimal rendering of naturals. */
module Decimal {

  import opened Wrappers
  import Strings

  predicate IsDigit(c: char)
  {
    '0' <= c <= '9'
  }

  function DigitValue(c: char): nat
    requires IsDigit(c)
  {
    c as int - '0' as int
  }

  function DigitChar(d: nat): (c: char)
    requires d < 10
    ensures IsDigit(c) && DigitValue(c) == d
  {
    ('0' as int + d) as char
  }

  /** The digit part of a Python integer literal: digits, where each `_` stands
      alone between two digits. */
  predicate IsDigitRun(s: string)
  {
    && |s| > 0 && IsDigit(s[0]) && IsDigit(s[|s| - 1])
    && (forall i :: 0 <= i < |s| ==> IsDigit(s[i]) || s[i] == '_')
    && (forall i, j :: 0 <= i < |s| && 0 <= j < |s| && j == i + 1 ==> IsDigit(s[i]) || IsDigit(s[j]))
  }

  /** The value of a run of digits, underscores ignored. */
  function DigitsValue(s: string): nat
    requires forall i :: 0 <= i < |s| ==> IsDigit(s[i]) || s[i] == '_'
  {
    if |s| == 0 then 0
    else if s[|s| - 1] == '_' then DigitsValue(s[..|s| - 1])
    else DigitsValue(s[..|s| - 1]) * 10 + DigitValue(s[|s| - 1])
  }

  /** An unsigned digit run and its value. */
  function ParseDigitRun(t: string): (r: Option<nat>)
  {
    if IsDigitRun(t) then Some(DigitsValue(t)) else None
  }

  /** The whitespace `int()` strips around its argument: the `str.isspace` code
      points except the ASCII separators U+001C to U+001F. CPython maps non-ASCII
      whitespace to a space and then skips only C's ASCII whitespace, which leaves the
      separators in place. */
  predicate IsIntSpace(c: char)
  {
    Strings.IsPySpace(c) && !(0x1C <= c as int <= 0x1F)
  }

  /** Python `int(s)` on ASCII digits: `IsIntSpace` whitespace is stripped from both
      ends, then one optional sign and a digit run; anything else raises `ValueError`,
      modelled as `None`. CPython's limit on the length of a decimal string (4300
      digits by default) is not part of this definition. */
  function ParseInt(s: string): Option<int>
  {
    var t := Strings.Trim(s, IsIntSpace);
    if |t| > 0 && (t[0] == '+' || t[0] == '-') then
      match ParseDigitRun(t[1..])
      case Some(v) => var x: int := v; Some(if t[0] == '-' then -x else x)
      case None => None
    else
      match ParseDigitRun(t)
      case Some(v) => Some(v)
      case None => None
  }

  /** The shortest decimal rendering of `n`, as Python `str(n)` gives it for an `int`. */
  function NatToString(n: nat): (r: string)
    ensures |r| >= 1
    ensures forall i :: 0 <= i < |r| ==> IsDigit(r[i])
  {
    if n < 10 then [DigitChar(n)] else NatToString(n / 10) + [DigitChar(n % 10)]
  }

  /** The rendering of `n` is a digit run whose value is `n`. */
  lemma {:induction false} NatToStringValue(n: nat)
    ensures IsDigitRun(NatToString(n))
    ensures DigitsValue(NatToString(n)) == n
  {
    var s := NatToString(n);
    if n >= 10 {
      NatToStringValue(n / 10);
      assert s[..|s| - 1] == NatToString(n / 10);
    }
  }

  /** A digit run, or a sign before one, has no surrounding whitespace to strip. */
  lemma SignedRunUntrimmed(sign: string, s: string)
    requires sign == "" || sign == "-" || sign == "+"
    requires IsDigitRun(s)
    ensures Strings.Trim(sign + s, IsIntSpace) == sign + s
  {
    var m := sign + s;
    assert m[|m| - 1] == s[|s| - 1];
    assert m[0] == if sign == "" then s[0] else sign[0];
    assert Strings.IsTrimmed(m, IsIntSpace);
  }

  /** A bare digit run parses to its value. */
  lemma ParseIntOfDigitRun(s: string)
    requires IsDigitRun(s)
    ensures ParseInt(s) == Some(DigitsValue(s))
  {
    assert !IsIntSpace(s[0]) && !IsIntSpace(s[|s| - 1]);
    assert Strings.Trim(s, IsIntSpace) == s;
  }

  /** A character that is neither a digit nor `_` rules out a digit run. */
  lemma NoDigitRunAt(t: string, i: nat)
    requires i < |t| && !IsDigit(t[i]) && t[i] != '_'
    ensures ParseDigitRun(t) == None
  {
  }

  /** A separator U+001C to U+001F anywhere, ends included, makes `int()` raise:
      `strip()` would remove one at an end, `int()` does not. */
  lemma ParseIntRejectsSeparator(s: string, k: nat)
    requires k < |s| && 0x1C <= s[k] as int <= 0x1F
    ensures ParseInt(s) == None
  {
    var t := Strings.Trim(s, IsIntSpace);
    Strings.TrimKeeps(s, IsIntSpace, k);
    var i :| 0 <= i < |t| && t[i] == s[k];
    if t[0] == '+' || t[0] == '-' {
      assert t[1..][i - 1] == t[i];
      NoDigitRunAt(t[1..], i - 1);
    } else {
      NoDigitRunAt(t, i);
    }
  }

  /** `int(str(n)) == n`. */
  lemma ParseIntOfNatToString(n: nat)
    ensures ParseInt(NatToString(n)) == Some(n)
  {
    NatToStringValue(n);
    ParseIntOfDigitRun(NatToString(n));
  }

  /** `int("-" + str(n)) == -n`. */
  lemma ParseIntOfNegated(n: nat)
    ensures ParseInt("-" + NatToString(n)) == Some(-(n as int))
  {
    NatToStringValue(n);
    ParseIntOfNegatedRun(NatToString(n), n);
  }

  /** A minus sign before a digit run parses to the negated value. */
  lemma ParseIntOfNegatedRun(s: string, n: nat)
    requires IsDigitRun(s) && DigitsValue(s) == n
    ensures ParseInt("-" + s) == Some(-(n as int))
  {
    var t := "-" + s;
    SignedRunUntrimmed("-", s);
    assert t[1..] == s;
    ParseIntOfSigned(t);
  }

  /** Untrimmable text that starts with `-` parses through its digit run. */
  lemma ParseIntOfSigned(t: string)
    requires |t| > 0 && t[0] == '-'
    requires Strings.Trim(t, IsIntSpace) == t
    ensures ParseInt(t) == match ParseDigitRun(t[1..])
                           case Some(v) => Some(-(v as int))
                           case None => None
  {
  }

}
