/** Decimal notation, as the f-strings of the services print it and `int` reads it back. */
module Decimal {
  import opened Options

  const OTHER_BLOCKS: nat := 65

  /** Besides '0' to '9', Unicode 14.0 has these blocks of ten decimal digits; the zero of each. */
  function ZeroOf(block: nat): (zero: int)
    ensures zero >= 0x660
  {
    match block
    case 0 => 0x660 case 1 => 0x6f0 case 2 => 0x7c0 case 3 => 0x966 case 4 => 0x9e6 case 5 => 0xa66
    case 6 => 0xae6 case 7 => 0xb66 case 8 => 0xbe6 case 9 => 0xc66 case 10 => 0xce6
    case 11 => 0xd66 case 12 => 0xde6 case 13 => 0xe50 case 14 => 0xed0 case 15 => 0xf20
    case 16 => 0x1040 case 17 => 0x1090 case 18 => 0x17e0 case 19 => 0x1810 case 20 => 0x1946
    case 21 => 0x19d0 case 22 => 0x1a80 case 23 => 0x1a90 case 24 => 0x1b50 case 25 => 0x1bb0
    case 26 => 0x1c40 case 27 => 0x1c50 case 28 => 0xa620 case 29 => 0xa8d0 case 30 => 0xa900
    case 31 => 0xa9d0 case 32 => 0xa9f0 case 33 => 0xaa50 case 34 => 0xabf0 case 35 => 0xff10
    case 36 => 0x104a0 case 37 => 0x10d30 case 38 => 0x11066 case 39 => 0x110f0 case 40 => 0x11136
    case 41 => 0x111d0 case 42 => 0x112f0 case 43 => 0x11450 case 44 => 0x114d0 case 45 => 0x11650
    case 46 => 0x116c0 case 47 => 0x11730 case 48 => 0x118e0 case 49 => 0x11950 case 50 => 0x11c50
    case 51 => 0x11d50 case 52 => 0x11da0 case 53 => 0x16a60 case 54 => 0x16ac0 case 55 => 0x16b50
    case 56 => 0x1d7ce case 57 => 0x1d7d8 case 58 => 0x1d7e2 case 59 => 0x1d7ec case 60 => 0x1d7f6
    case 61 => 0x1e140 case 62 => 0x1e2f0 case 63 => 0x1e950 case _ => 0x1fbf0
  }

  /** The value of a character among the digits of the blocks from `block` on. */
  function ValueFrom(c: int, block: nat): (value: Option<nat>)
    requires block <= OTHER_BLOCKS
    ensures value.Some? ==> value.value < 10 && c >= 0x660
    decreases OTHER_BLOCKS - block
  {
    if block == OTHER_BLOCKS then None
    else if ZeroOf(block) <= c < ZeroOf(block) + 10 then Some(c - ZeroOf(block))
    else ValueFrom(c, block + 1)
  }

  /** What \d matches and `int` reads: any decimal digit of Unicode. */
  predicate IsDigit(c: char) { '0' <= c <= '9' || ValueFrom(c as int, 0).Some? }

  function DigitChar(d: nat): (c: char)
    requires d < 10
    ensures IsDigit(c) && DigitValue(c) == d
  {
    '0' + d as char
  }

  function DigitValue(c: char): (d: nat)
    requires IsDigit(c)
    ensures d < 10
  {
    if c <= '9' then c as int - '0' as int else ValueFrom(c as int, 0).value
  }

  predicate AllDigits(s: string) { forall i :: 0 <= i < |s| ==> IsDigit(s[i]) }

  function Print(n: nat): (s: string)
    ensures s != [] && AllDigits(s)
  {
    if n < 10 then [DigitChar(n)] else Print(n / 10) + [DigitChar(n % 10)]
  }

  function Parse(s: string): nat
    requires AllDigits(s)
  {
    if s == [] then 0 else 10 * Parse(s[..|s| - 1]) + DigitValue(s[|s| - 1])
  }

  lemma {:induction false} ParsePrint(n: nat)
    ensures Parse(Print(n)) == n
  {
    var s := Print(n);
    if n < 10 {
      assert s[..|s| - 1] == [];
    } else {
      ParsePrint(n / 10);
      assert s[..|s| - 1] == Print(n / 10);
    }
  }

  function PrintInt(n: int): string {
    if n < 0 then "-" + Print(-n) else Print(n)
  }

  /** The blocks do not overlap, */
  lemma BlocksApart(block: nat)
    requires block + 1 < OTHER_BLOCKS
    ensures ZeroOf(block) + 10 <= ZeroOf(block + 1)
  {
  }

  lemma {:induction false} StepsAddUp(zero: nat -> int, n: nat, a: nat, b: nat)
    requires a < b < n && forall k: nat :: k + 1 < n ==> zero(k) + 10 <= zero(k + 1)
    ensures zero(a) + 10 <= zero(b)
    decreases b
  {
    if a + 1 < b { StepsAddUp(zero, n, a, b - 1); }
    assert zero(b - 1) + 10 <= zero(b - 1 + 1);
  }

  lemma BlocksAscend(a: nat, b: nat)
    requires a < b < OTHER_BLOCKS
    ensures ZeroOf(a) + 10 <= ZeroOf(b)
  {
    forall k: nat | k + 1 < OTHER_BLOCKS ensures ZeroOf(k) + 10 <= ZeroOf(k + 1) { BlocksApart(k); }
    StepsAddUp(ZeroOf, OTHER_BLOCKS, a, b);
  }

  lemma {:induction false} DigitInBlock(from: nat, block: nat, d: nat)
    requires from <= block < OTHER_BLOCKS && d < 10
    ensures ValueFrom(ZeroOf(block) + d, from) == Some(d)
    decreases block - from
  {
    if from < block {
      BlocksAscend(from, block);
      DigitInBlock(from + 1, block, d);
    }
  }

  /** so the d-th character of every block is a digit and stands for d. */
  lemma DigitOfBlock(c: char, block: nat, d: nat)
    requires block < OTHER_BLOCKS && d < 10 && c as int == ZeroOf(block) + d
    ensures IsDigit(c) && DigitValue(c) == d
  {
    DigitInBlock(0, block, d);
  }

  // ---------- how long a printed number is ----------

  function PowerOfTen(d: nat): (p: nat)
    ensures p >= 1
  {
    if d == 0 then 1 else 10 * PowerOfTen(d - 1)
  }

  /** A number has at most `d` digits exactly when it is below the d-th power of ten. */
  lemma {:induction false} DigitsIff(n: nat, d: nat)
    requires d >= 1
    ensures |Print(n)| <= d <==> n < PowerOfTen(d)
    decreases d
  {
    if n >= 10 && d > 1 {
      DigitsIff(n / 10, d - 1);
      assert n / 10 < PowerOfTen(d - 1) <==> n < 10 * PowerOfTen(d - 1);
    }
  }

  lemma SignIsPrinted(n: int)
    ensures PrintInt(n) != [] && (PrintInt(n)[0] == '-' <==> n < 0)
  {
    if n < 0 { TailOfMinus(Print(-n)); }
  }

  lemma {:induction false} PrintDiffers(a: nat, b: nat)
    requires Print(a) == Print(b)
    ensures a == b
  {
    ParsePrint(a);
    ParsePrint(b);
  }

  lemma TailOfMinus(s: string)
    ensures ("-" + s)[0] == '-' && ("-" + s)[1..] == s
  {
  }

  /** Different whole numbers are printed differently. */
  lemma PrintIntDiffers(a: int, b: int)
    ensures PrintInt(a) == PrintInt(b) <==> a == b
  {
    SignIsPrinted(a);
    SignIsPrinted(b);
    if PrintInt(a) == PrintInt(b) {
      if a < 0 {
        TailOfMinus(Print(-a));
        TailOfMinus(Print(-b));
        PrintDiffers(-a, -b);
      } else {
        PrintDiffers(a, b);
      }
    }
  }
}
