/** Reading and printing numbers in decimal and in lower-case hexadecimal. */
module Numerals {
  import opened Text

  function DigitOf(c: char): (d: nat)
    ensures IsHex(c) ==> d < 16
  {
    if IsDigit(c) then c as int - '0' as int else if 'a' <= c <= 'f' then c as int - 'a' as int + 10 else 0
  }

  function DigitChar(n: nat): (c: char)
    requires n < 16
    ensures IsHex(c) && DigitOf(c) == n && (n < 10 ==> IsDigit(c))
  {
    if n < 10 then ('0' as int + n) as char else ('a' as int + n - 10) as char
  }

  function NumberOf(s: string, radix: nat): nat {
    if s == [] then 0 else NumberOf(s[..|s| - 1], radix) * radix + DigitOf(s[|s| - 1])
  }

  // (value * base) + digit, folded over the digits.
  function Fold(digits: seq<nat>, base: nat): nat {
    if digits == [] then 0 else Fold(digits[..|digits| - 1], base) * base + digits[|digits| - 1]
  }

  lemma FoldSnoc(digits: seq<nat>, last: nat, base: nat)
    ensures Fold(digits + [last], base) == Fold(digits, base) * base + last
  {
    assert (digits + [last])[..|digits|] == digits;
  }

  function Numbers(parts: seq<string>, radix: nat): (r: seq<nat>)
    ensures |r| == |parts| && forall k :: 0 <= k < |r| ==> r[k] == NumberOf(parts[k], radix)
  {
    seq(|parts|, k requires 0 <= k < |parts| => NumberOf(parts[k], radix))
  }

  // toString(10) and toString(16).
  function Decimal(n: nat): (s: string)
    ensures s != "" && forall c :: c in s ==> IsDigit(c)
  {
    (if n < 10 then "" else Decimal(n / 10)) + [DigitChar(n % 10)]
  }

  function Hex(n: nat): (s: string)
    ensures s != "" && forall c :: c in s ==> IsHex(c)
  {
    (if n < 16 then "" else Hex(n / 16)) + [DigitChar(n % 16)]
  }

  lemma {:induction false} DecimalReads(n: nat)
    ensures NumberOf(Decimal(n), 10) == n
  {
    if n < 10 {
      assert Decimal(n) == [DigitChar(n)];
      assert NumberOf([], 10) == 0;
    } else {
      DecimalReads(n / 10);
      assert Decimal(n)[..|Decimal(n)| - 1] == Decimal(n / 10);
    }
  }

  lemma {:induction false} HexReads(n: nat)
    ensures NumberOf(Hex(n), 16) == n
  {
    if n < 16 {
      assert Hex(n) == [DigitChar(n)];
      assert NumberOf([], 16) == 0;
    } else {
      HexReads(n / 16);
      assert Hex(n)[..|Hex(n)| - 1] == Hex(n / 16);
    }
  }

  lemma DecimalIsShort(n: nat)
    ensures n < 10 ==> |Decimal(n)| == 1
    ensures n < 100 ==> |Decimal(n)| <= 2
    ensures n < 1000 ==> |Decimal(n)| <= 3
  {
    if n < 1000 {
      assert |Decimal(n / 10 / 10)| == 1;
      assert |Decimal(n / 10)| <= 2;
    }
  }

  lemma HexIsShort(n: nat)
    requires n < 0x1_0000
    ensures |Hex(n)| <= 4
  {
    assert |Hex(n / 16 / 16 / 16)| == 1;
    assert |Hex(n / 16 / 16)| <= 2;
    assert |Hex(n / 16)| <= 3;
  }

  function Decimals(ns: seq<nat>): (r: seq<string>)
    ensures |r| == |ns| && forall k :: 0 <= k < |r| ==> r[k] == Decimal(ns[k])
  {
    seq(|ns|, k requires 0 <= k < |ns| => Decimal(ns[k]))
  }

  lemma DecimalsRead(ns: seq<nat>)
    ensures Numbers(Decimals(ns), 10) == ns
  {
    forall k | 0 <= k < |ns| ensures NumberOf(Decimals(ns)[k], 10) == ns[k] { DecimalReads(ns[k]); }
  }
}
