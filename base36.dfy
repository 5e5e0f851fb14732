/** Django's `int_to_base36` and `base36_to_int` (django.utils.http), which the token scheme
    uses to write its expiry timestamp. The alphabet is "0123456789abcdefghijklmnopqrstuvwxyz". */
module Base36 {
  import opened Common

  /** `base36_to_int` refuses inputs longer than this many characters. */
  const MaxInputLength: nat := 13

  function Pow36(k: nat): (p: nat)
    ensures p >= 1
  {
    if k == 0 then 1 else 36 * Pow36(k - 1)
  }

  /** The largest value plus one that fits in MaxInputLength base-36 digits. */
  function Limit(): nat {
    Pow36(MaxInputLength)
  }

  /** Django's `char_set`. */
  const Alphabet: string := "0123456789abcdefghijklmnopqrstuvwxyz"

  /** Character `d` of the alphabet, computed. */
  function DigitChar(d: nat): (c: char)
    requires d < 36
    ensures ('0' <= c <= '9') || ('a' <= c <= 'z')
  {
    if d < 10 then ('0' as int + d) as char else ('a' as int + (d - 10)) as char
  }

  /** The digit value `int(_, 36)` gives a character: both letter cases are accepted. */
  function DigitValue(c: char): (v: Option<nat>)
    ensures v.Some? ==> v.value < 36
  {
    if '0' <= c <= '9' then Some(c as int - '0' as int)
    else if 'a' <= c <= 'z' then Some(c as int - 'a' as int + 10)
    else if 'A' <= c <= 'Z' then Some(c as int - 'A' as int + 10)
    else None
  }

  /** Base-36 digits of `n`, most significant first, with no leading zeros. */
  function Encode(n: nat): (s: string)
    ensures |s| >= 1
    ensures forall i :: 0 <= i < |s| ==> ('0' <= s[i] <= '9') || ('a' <= s[i] <= 'z')
    decreases n
  {
    if n < 36 then [DigitChar(n)] else Encode(n / 36) + [DigitChar(n % 36)]
  }

  /** `int_to_base36(i)`: raises ValueError for a negative input. */
  function IntToBase36(i: int): (r: Option<string>)
  {
    if i < 0 then None else Some(Encode(i))
  }

  /** Value of a string of base-36 digits read most significant first; None when some
      character is not a digit. The empty string reads as 0 here; `Base36ToInt` refuses it. */
  function Digits(s: string): (v: Option<nat>)
    decreases |s|
  {
    if |s| == 0 then Some(0)
    else
      match (Digits(s[..|s| - 1]), DigitValue(s[|s| - 1]))
      case (Some(high), Some(low)) => Some(36 * high + low)
      case _ => None
  }

  /** `base36_to_int(s)`: ValueError (None) for an input longer than 13 characters, for the
      empty string and for a character that is not a base-36 digit. */
  function Base36ToInt(s: string): (v: Option<nat>)
  {
    if |s| > MaxInputLength || |s| == 0 then None else Digits(s)
  }

  lemma AlphabetAgrees()
    ensures |Alphabet| == 36
    ensures forall d :: 0 <= d < 36 ==> Alphabet[d] == DigitChar(d)
  {
  }

  lemma DigitRoundTrip(d: nat)
    requires d < 36
    ensures DigitValue(DigitChar(d)) == Some(d)
  {
  }

  /** Reading back the digits of `n` gives `n`. */
  lemma {:induction false} DigitsOfEncode(n: nat)
    ensures Digits(Encode(n)) == Some(n)
    decreases n
  {
    var s := Encode(n);
    if n < 36 {
      DigitRoundTrip(n);
      assert s[..0] == [];
    } else {
      DigitsOfEncode(n / 36);
      DigitRoundTrip(n % 36);
      assert s[..|s| - 1] == Encode(n / 36);
    }
  }

  /** A value below 36^k has at most k digits. */
  lemma {:induction false} EncodeLength(n: nat, k: nat)
    requires k >= 1 && n < Pow36(k)
    ensures |Encode(n)| <= k
    decreases n
  {
    if n >= 36 {
      assert k >= 2;
      assert n / 36 < Pow36(k - 1);
      EncodeLength(n / 36, k - 1);
    }
  }

  /** A string of k digits denotes a value below 36^k. */
  lemma {:induction false} DigitsBound(s: string)
    requires Digits(s).Some?
    ensures Digits(s).value < Pow36(|s|)
    decreases |s|
  {
    if |s| > 0 {
      DigitsBound(s[..|s| - 1]);
    }
  }

  /** The round trip the token scheme depends on: `base36_to_int(int_to_base36(n)) == n`
      for every n that fits in 13 base-36 digits. */
  lemma RoundTrip(n: nat)
    requires n < Limit()
    ensures IntToBase36(n) == Some(Encode(n))
    ensures Base36ToInt(Encode(n)) == Some(n)
  {
    EncodeLength(n, MaxInputLength);
    DigitsOfEncode(n);
  }

  /** Beyond 13 digits the round trip fails: `base36_to_int` refuses the encoding. */
  lemma TooLargeRefused(n: nat)
    requires n >= Limit()
    ensures Base36ToInt(Encode(n)) == None
  {
    if |Encode(n)| <= MaxInputLength {
      DigitsOfEncode(n);
      DigitsBound(Encode(n));
      PowMonotone(|Encode(n)|, MaxInputLength);
    }
  }

  lemma {:induction false} PowMonotone(i: nat, j: nat)
    requires i <= j
    ensures Pow36(i) <= Pow36(j)
    decreases j
  {
    if i < j {
      PowMonotone(i, j - 1);
    }
  }

  /** Whatever `base36_to_int` accepts is below the limit. */
  lemma ParsedBelowLimit(s: string)
    requires Base36ToInt(s).Some?
    ensures Base36ToInt(s).value < Limit()
  {
    DigitsBound(s);
    PowMonotone(|s|, MaxInputLength);
  }

  /** The encoding of a number never contains the token separator '-'. */
  lemma EncodeHasNoDash(n: nat)
    ensures '-' !in Encode(n)
  {
  }

  /** Encoding is injective. */
  lemma EncodeInjective(m: nat, n: nat)
    requires Encode(m) == Encode(n)
    ensures m == n
  {
    DigitsOfEncode(m);
    DigitsOfEncode(n);
  }
}
