/** The handful of Python string operations the core relies on: `str(int)`, `str.lower`
    (ASCII letters only) and `str.split(sep)`. */
module Strings {
  import opened Common

  function DecimalDigit(d: nat): (c: char)
    requires d < 10
  {
    ('0' as int + d) as char
  }

  /** `str(n)` for a non-negative integer. */
  function NatToDecimal(n: nat): (s: string)
    ensures |s| >= 1
    ensures forall i :: 0 <= i < |s| ==> '0' <= s[i] <= '9'
    decreases n
  {
    if n < 10 then [DecimalDigit(n)] else NatToDecimal(n / 10) + [DecimalDigit(n % 10)]
  }

  /** `str(i)` for any integer: a leading minus sign for negative values. */
  function IntToDecimal(i: int): (s: string)
    ensures |s| >= 1
    ensures (i < 0) <==> s[0] == '-'
  {
    if i < 0 then "-" + NatToDecimal(-i) else NatToDecimal(i)
  }

  /** Different integers have different decimal forms. */
  lemma {:induction false} NatToDecimalInjective(m: nat, n: nat)
    requires NatToDecimal(m) == NatToDecimal(n)
    ensures m == n
    decreases m
  {
    if m >= 10 && n >= 10 {
      var sm := NatToDecimal(m);
      assert sm[..|sm| - 1] == NatToDecimal(m / 10);
      assert NatToDecimal(n)[..|sm| - 1] == NatToDecimal(n / 10);
      NatToDecimalInjective(m / 10, n / 10);
      assert DecimalDigit(m % 10) == sm[|sm| - 1] == DecimalDigit(n % 10);
    }
  }

  lemma IntToDecimalInjective(i: int, j: int)
    requires IntToDecimal(i) == IntToDecimal(j)
    ensures i == j
  {
    if i < 0 && j < 0 {
      assert NatToDecimal(-i) == IntToDecimal(i)[1..];
      assert NatToDecimal(-j) == IntToDecimal(j)[1..];
      NatToDecimalInjective(-i, -j);
    } else if i >= 0 && j >= 0 {
      NatToDecimalInjective(i, j);
    }
  }

  /** `c.lower()` for one character; only the ASCII letters are folded. */
  function LowerChar(c: char): char {
    if 'A' <= c <= 'Z' then (c as int + 32) as char else c
  }

  /** `s.lower()`, ASCII letters only. */
  function Lower(s: string): (r: string)
    ensures |r| == |s|
  {
    seq(|s|, i requires 0 <= i < |s| => LowerChar(s[i]))
  }

  /** Lower-casing leaves a string without capital ASCII letters as it is. */
  lemma LowerOfLowercase(s: string)
    requires forall i :: 0 <= i < |s| ==> !('A' <= s[i] <= 'Z')
    ensures Lower(s) == s
  {
  }

  /** Index of the first occurrence of `c` in `s`. */
  function IndexOf(s: string, c: char): (k: Option<nat>)
    ensures k.None? ==> c !in s
    ensures k.Some? ==> k.value < |s| && s[k.value] == c && c !in s[..k.value]
    decreases |s|
  {
    if |s| == 0 then None
    else if s[0] == c then Some(0)
    else
      match IndexOf(s[1..], c)
      case None => None
      case Some(k) =>
        assert s[1..][..k] == s[1..k + 1];
        assert s[..k + 1] == [s[0]] + s[1..k + 1];
        Some(k + 1)
  }

  /** `s.split(sep)`: the pieces between the occurrences of `sep`, empty pieces included. */
  function Split(s: string, sep: char): (parts: seq<string>)
    ensures |parts| >= 1
    ensures forall k :: 0 <= k < |parts| ==> sep !in parts[k]
    decreases |s|
  {
    match IndexOf(s, sep)
    case None => [s]
    case Some(k) => [s[..k]] + Split(s[k + 1..], sep)
  }

  /** `sep.join(parts)`. */
  function Join(parts: seq<string>, sep: char): string
    decreases |parts|
  {
    if |parts| == 0 then ""
    else if |parts| == 1 then parts[0]
    else parts[0] + [sep] + Join(parts[1..], sep)
  }

  lemma {:induction false} SplitJoin(parts: seq<string>, sep: char)
    requires |parts| >= 1
    requires forall k :: 0 <= k < |parts| ==> sep !in parts[k]
    ensures Split(Join(parts, sep), sep) == parts
    decreases |parts|
  {
    if |parts| == 1 {
      assert IndexOf(parts[0], sep).None?;
    } else {
      var s := Join(parts, sep);
      var head := parts[0];
      var tail := Join(parts[1..], sep);
      assert s == head + [sep] + tail;
      IndexOfAfterFree(head, sep, tail);
      assert s[..|head|] == head;
      assert s[|head| + 1..] == tail;
      SplitJoin(parts[1..], sep);
    }
  }

  lemma IndexOfAfterFree(head: string, sep: char, tail: string)
    requires sep !in head
    ensures IndexOf(head + [sep] + tail, sep) == Some(|head|)
  {
    var s := head + [sep] + tail;
    assert s[|head|] == sep;
    assert forall i :: 0 <= i < |head| ==> s[i] == head[i];
    assert sep in s[..|head| + 1];
  }

  /** The case that matters for tokens: one separator between two separator-free pieces. */
  lemma SplitPair(x: string, sep: char, y: string)
    requires sep !in x && sep !in y
    ensures Split(x + [sep] + y, sep) == [x, y]
  {
    assert Join([x, y], sep) == x + [sep] + y;
    SplitJoin([x, y], sep);
  }

  /** Two strings that agree around a middle part agree in the middle. */
  lemma StripAround(prefix: string, m1: string, m2: string, suffix: string)
    requires prefix + m1 + suffix == prefix + m2 + suffix
    ensures m1 == m2
  {
    var s := prefix + m1 + suffix;
    assert |m1| == |m2|;
    assert m1 == s[|prefix|..|prefix| + |m1|];
    assert m2 == (prefix + m2 + suffix)[|prefix|..|prefix| + |m2|];
  }

  /** A separator that does not occur in the first piece splits a string in one place only. */
  lemma SplitAtFirst(a: string, sep: char, b: string, c: string, d: string)
    requires sep !in a && sep !in c
    requires a + [sep] + b == c + [sep] + d
    ensures a == c && b == d
  {
    IndexOfAfterFree(a, sep, b);
    IndexOfAfterFree(c, sep, d);
    var s := a + [sep] + b;
    assert a == s[..|a|] && c == s[..|c|];
    assert b == s[|a| + 1..] && d == s[|c| + 1..];
  }
}
