/** BigInt `toString()`, and why it loses nothing. */
module Decimal {
  import opened Integers

  predicate IsDigit(c: char) {
    '0' <= c <= '9'
  }

  function Digit(d: nat): char
    requires d < 10
  {
    ('0' as int + d) as char
  }

  function NatToString(n: nat): string {
    if n < 10 then [Digit(n)] else NatToString(n / 10) + [Digit(n % 10)]
  }

  function ToString(n: int): string {
    if n < 0 then "-" + NatToString(-n) else NatToString(n)
  }

  /** Zeros in front, up to six characters. */
  function PadSix(s: string): string {
    if |s| < 6 then seq(6 - |s|, _ => '0') + s else s
  }

  ghost predicate AllDigits(s: string) {
    |s| > 0 && forall i :: 0 <= i < |s| ==> IsDigit(s[i])
  }

  lemma {:induction false} PrintsDigits(n: nat)
    ensures AllDigits(NatToString(n))
  {
    if n >= 10 {
      PrintsDigits(n / 10);
    }
  }

  /** The number a digit string denotes. */
  ghost function Value(s: string): int {
    if |s| == 0 then 0 else Value(s[..|s| - 1]) * 10 + s[|s| - 1] as int - '0' as int
  }

  lemma {:induction false} ValueOfPrinted(n: nat)
    ensures Value(NatToString(n)) == n
  {
    var s := NatToString(n);
    if n >= 10 {
      ValueOfPrinted(n / 10);
      assert s[..|s| - 1] == NatToString(n / 10);
    } else {
      assert s[..0] == "";
    }
  }

  function Pow10(k: nat): nat {
    if k == 0 then 1 else 10 * Pow10(k - 1)
  }

  lemma {:induction false} PrintedLength(n: nat, k: nat)
    requires k > 0 && n < Pow10(k)
    ensures |NatToString(n)| <= k
  {
    assert Pow10(k) == 10 * Pow10(k - 1);
    if n >= 10 {
      PrintedLength(n / 10, k - 1);
    }
  }

  lemma {:induction false} LeadingZeros(zeros: nat, s: string)
    ensures Value(seq(zeros, _ => '0') + s) == Value(s)
  {
    var z := seq(zeros, _ => '0');
    if |s| > 0 {
      LeadingZeros(zeros, s[..|s| - 1]);
      assert (z + s)[..|z + s| - 1] == z + s[..|s| - 1];
    } else {
      assert z + s == z;
      if zeros > 0 {
        LeadingZeros(zeros - 1, "");
        assert z[..zeros - 1] == seq(zeros - 1, _ => '0') == seq(zeros - 1, _ => '0') + "";
      }
    }
  }

  /** Six digits of a number below one million. */
  lemma PaddedSix(n: nat)
    requires n < 1_000_000
    ensures |PadSix(ToString(n))| == 6 && AllDigits(PadSix(ToString(n))) && Value(PadSix(ToString(n))) == n
  {
    assert Pow10(6) == 1_000_000;
    PrintedLength(n, 6);
    PrintsDigits(n);
    ValueOfPrinted(n);
    LeadingZeros(6 - |ToString(n)|, ToString(n));
  }

  /** A printed integer is digits after an optional minus sign. */
  lemma PrintedCharacters(n: int)
    ensures |ToString(n)| > 0
    ensures forall i :: 0 <= i < |ToString(n)| ==> IsDigit(ToString(n)[i]) || ToString(n)[i] == '-'
    ensures ToString(n)[0] == '-' <==> n < 0
  {
    PrintsDigits(Abs(n));
  }

  /** Printing is injective. */
  lemma PrintedIntegers(m: int, n: int)
    requires ToString(m) == ToString(n)
    ensures m == n
  {
    PrintedCharacters(m);
    PrintedCharacters(n);
    ValueOfPrinted(Abs(m));
    ValueOfPrinted(Abs(n));
    if m < 0 {
      assert ToString(m)[1..] == NatToString(Abs(m)) && ToString(n)[1..] == NatToString(Abs(n));
    }
  }
}
