/** The string primitives the services and the dashboard rely on, following the host
    languages: JavaScript `split`/`join`/`trim`/`includes`, Python
    `split`/`join`/`strip`/`endswith`/`in`/`replace`, and `lower` restricted to ASCII
    letters (`Lower` leaves every other character alone, where Python and JavaScript
    also map non-ASCII letters). */
module Strings {

  /** Whitespace as JavaScript's `String.prototype.trim` removes it: the ECMAScript
      WhiteSpace and LineTerminator code points. */
  predicate IsJsSpace(c: char)
  {
    var n := c as int;
    (0x09 <= n <= 0x0D) || n == 0x20 || n == 0xA0 || n == 0x1680
    || (0x2000 <= n <= 0x200A) || n == 0x2028 || n == 0x2029 || n == 0x202F
    || n == 0x205F || n == 0x3000 || n == 0xFEFF
  }

  /** Whitespace as Python's `str.strip()` removes it: the code points `str.isspace`
      accepts. */
  predicate IsPySpace(c: char)
  {
    var n := c as int;
    (0x09 <= n <= 0x0D) || (0x1C <= n <= 0x20) || n == 0x85 || n == 0xA0 || n == 0x1680
    || (0x2000 <= n <= 0x200A) || n == 0x2028 || n == 0x2029 || n == 0x202F
    || n == 0x205F || n == 0x3000
  }

  /** `s` has no removable character at either end. */
  predicate IsTrimmed(s: string, ws: char -> bool)
  {
    s == "" || (!ws(s[0]) && !ws(s[|s| - 1]))
  }

  /** Drops the leading characters satisfying `ws`. */
  function TrimStart(s: string, ws: char -> bool): (r: string)
    ensures |r| <= |s| && r == s[|s| - |r|..]
    ensures forall k :: 0 <= k < |s| - |r| ==> ws(s[k])
    ensures r == "" || !ws(r[0])
    decreases |s|
  {
    if |s| > 0 && ws(s[0]) then TrimStart(s[1..], ws) else s
  }

  /** Drops the trailing characters satisfying `ws`. */
  function TrimEnd(s: string, ws: char -> bool): (r: string)
    ensures |r| <= |s| && r == s[..|r|]
    ensures forall k :: |r| <= k < |s| ==> ws(s[k])
    ensures r == "" || !ws(r[|r| - 1])
    decreases |s|
  {
    if |s| > 0 && ws(s[|s| - 1]) then TrimEnd(s[..|s| - 1], ws) else s
  }

  /** `trim()` / `strip()`: both ends, for the given notion of whitespace. */
  function Trim(s: string, ws: char -> bool): (r: string)
    ensures IsTrimmed(r, ws)
    ensures forall x :: x in r ==> x in s
    ensures IsTrimmed(s, ws) ==> r == s
  {
    TrimBoth(s, ws);
    TrimEnd(TrimStart(s, ws), ws)
  }

  lemma TrimBoth(s: string, ws: char -> bool)
    ensures var r := TrimEnd(TrimStart(s, ws), ws);
            && IsTrimmed(r, ws)
            && (forall x :: x in r ==> x in s)
            && (IsTrimmed(s, ws) ==> r == s)
  {
    var t := TrimStart(s, ws);
    var r := TrimEnd(t, ws);
    TrimBothWithin(s, ws);
    if r != "" {
      assert r[0] == t[0];
    }
    if IsTrimmed(s, ws) && s != "" {
      assert t == s;
    }
  }

  lemma TrimBothWithin(s: string, ws: char -> bool)
    ensures forall x :: x in TrimEnd(TrimStart(s, ws), ws) ==> x in s
  {
    var t := TrimStart(s, ws);
    var r := TrimEnd(t, ws);
    SliceWithin(s, |s| - |t|, |s|);
    SliceWithin(t, 0, |r|);
  }

  lemma SliceWithin(s: string, i: nat, j: nat)
    requires i <= j <= |s|
    ensures forall x :: x in s[i..j] ==> x in s
  {
    forall x | x in s[i..j] ensures x in s {
      var k :| i <= k < j && s[k] == x;
    }
  }

  /** Trimming keeps every character that is not whitespace. */
  lemma TrimKeeps(s: string, ws: char -> bool, k: nat)
    requires k < |s| && !ws(s[k])
    ensures s[k] in Trim(s, ws)
  {
    var t := TrimStart(s, ws);
    var d := |s| - |t|;
    assert k >= d;
    assert t[k - d] == s[k];
    var r := TrimEnd(t, ws);
    assert k - d < |r|;
    assert r[k - d] == s[k];
  }

  /** A leading whitespace character does not change the trimmed value. */
  lemma TrimLeadingSpace(x: char, s: string, ws: char -> bool)
    requires ws(x)
    ensures Trim([x] + s, ws) == Trim(s, ws)
  {
    assert ([x] + s)[1..] == s;
  }

  /** JavaScript `s.split(c)` and Python `s.split(c)` for a one-character separator:
      the maximal separator-free pieces, always at least one. */
  function Split(s: string, c: char): (r: seq<string>)
    ensures |r| >= 1
    ensures forall i :: 0 <= i < |r| ==> c !in r[i]
    decreases |s|
  {
    if |s| == 0 then [""]
    else
      var rest := Split(s[1..], c);
      if s[0] == c then [""] + rest
      else [[s[0]] + rest[0]] + rest[1..]
  }

  /** JavaScript `parts.join(sep)` and Python `sep.join(parts)`. */
  function Join(parts: seq<string>, sep: string): string
  {
    if |parts| == 0 then ""
    else if |parts| == 1 then parts[0]
    else parts[0] + sep + Join(parts[1..], sep)
  }

  /** A join begins with its first part. */
  lemma JoinStartsWith(parts: seq<string>, sep: string)
    requires parts != []
    ensures StartsWith(Join(parts, sep), parts[0])
  {
    var j := Join(parts, sep);
    if |parts| > 1 {
      assert j == parts[0] + (sep + Join(parts[1..], sep));
    }
    assert j[..|parts[0]|] == parts[0];
  }

  lemma JoinPrepend(x: string, parts: seq<string>, sep: string)
    requires |parts| >= 1
    ensures Join([x + parts[0]] + parts[1..], sep) == x + Join(parts, sep)
  {
    var q := [x + parts[0]] + parts[1..];
    if |parts| > 1 {
      assert q[1..] == parts[1..];
    }
  }

  /** Splitting and joining back with the same separator restores the string. */
  lemma {:induction false} SplitJoin(s: string, c: char)
    ensures Join(Split(s, c), [c]) == s
    decreases |s|
  {
    if |s| > 0 {
      var rest := Split(s[1..], c);
      SplitJoin(s[1..], c);
      if s[0] == c {
        assert ([""] + rest)[1..] == rest;
        assert Join([""] + rest, [c]) == [c] + s[1..];
      } else {
        JoinPrepend([s[0]], rest, [c]);
      }
      assert [s[0]] + s[1..] == s;
    }
  }

  /** A string free of the separator splits into itself alone. */
  lemma {:induction false} SplitNoSeparator(p: string, c: char)
    requires c !in p
    ensures Split(p, c) == [p]
    decreases |p|
  {
    if |p| > 0 {
      SplitNoSeparator(p[1..], c);
      assert [p[0]] + p[1..] == p;
    }
  }

  /** A separator-free prefix followed by the separator becomes the first piece. */
  lemma {:induction false} SplitAfter(p: string, c: char, s: string)
    requires c !in p
    ensures Split(p + [c] + s, c) == [p] + Split(s, c)
    decreases |p|
  {
    var x := p + [c] + s;
    if |p| == 0 {
      assert x[1..] == s;
    } else {
      assert x[1..] == p[1..] + [c] + s;
      SplitAfter(p[1..], c, s);
      assert [p[0]] + p[1..] == p;
    }
  }

  /** Joining separator-free pieces and splitting again gives the pieces back. */
  lemma {:induction false} JoinSplit(parts: seq<string>, c: char)
    requires |parts| >= 1
    requires forall i :: 0 <= i < |parts| ==> c !in parts[i]
    ensures Split(Join(parts, [c]), c) == parts
    decreases |parts|
  {
    if |parts| == 1 {
      SplitNoSeparator(parts[0], c);
    } else {
      JoinSplit(parts[1..], c);
      SplitAfter(parts[0], c, Join(parts[1..], [c]));
      assert [parts[0]] + parts[1..] == parts;
    }
  }

  /** `s.startsWith(pre)`. */
  predicate StartsWith(s: string, pre: string)
  {
    |pre| <= |s| && s[..|pre|] == pre
  }

  /** Python `s.endswith(suf)`. */
  predicate EndsWith(s: string, suf: string)
  {
    |suf| <= |s| && s[|s| - |suf|..] == suf
  }

  /** JavaScript `s.includes(sub)` and Python `sub in s`. */
  predicate Contains(s: string, sub: string)
    decreases |s|
  {
    StartsWith(s, sub) || (|s| > 0 && Contains(s[1..], sub))
  }

  /** An occurrence at any position is an occurrence. */
  lemma {:induction false} ContainsAt(s: string, sub: string, i: nat)
    requires i + |sub| <= |s| && s[i..i + |sub|] == sub
    ensures Contains(s, sub)
    decreases i
  {
    if i > 0 {
      assert s[1..][i - 1..i - 1 + |sub|] == s[i..i + |sub|];
      ContainsAt(s[1..], sub, i - 1);
    }
  }

  /** Python `s.replace(a, b)` for one-character `a` and `b`. */
  function ReplaceChar(s: string, a: char, b: char): (r: string)
    ensures |r| == |s|
    ensures forall i :: 0 <= i < |s| ==> r[i] == (if s[i] == a then b else s[i])
  {
    seq(|s|, i requires 0 <= i < |s| => if s[i] == a then b else s[i])
  }

  lemma ReplaceConcat(a: string, b: string, x: char, y: char)
    ensures ReplaceChar(a + b, x, y) == ReplaceChar(a, x, y) + ReplaceChar(b, x, y)
  {
    var l := ReplaceChar(a + b, x, y);
    var r := ReplaceChar(a, x, y) + ReplaceChar(b, x, y);
    forall i | 0 <= i < |l|
      ensures l[i] == r[i]
    {
      if i < |a| {
        assert (a + b)[i] == a[i];
      } else {
        assert (a + b)[i] == b[i - |a|];
      }
    }
  }

  /** Replacing a character that does not occur changes nothing. */
  lemma ReplaceAbsent(s: string, x: char, y: char)
    requires x !in s
    ensures ReplaceChar(s, x, y) == s
  {
  }

  /** Replacing `x` by `y` is undone by replacing `y` by `x`, when `y` did not occur. */
  lemma ReplaceBack(s: string, x: char, y: char)
    requires y !in s
    ensures ReplaceChar(ReplaceChar(s, x, y), y, x) == s
  {
  }

  function LowerChar(c: char): char
  {
    if 'A' <= c <= 'Z' then (c as int + 32) as char else c
  }

  /** `lower()` / `toLowerCase()` on the ASCII letters. */
  function Lower(s: string): (r: string)
    ensures |r| == |s|
    ensures forall i :: 0 <= i < |s| ==> r[i] == LowerChar(s[i])
  {
    seq(|s|, i requires 0 <= i < |s| => LowerChar(s[i]))
  }

  /** Lower-casing twice is lower-casing once. */
  lemma LowerIdempotent(s: string)
    ensures Lower(Lower(s)) == Lower(s)
  {
  }

}
