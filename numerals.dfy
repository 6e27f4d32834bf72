/** Python's int(text, base) and int(text, 0) on the numeral forms the assembler meets,
    with the inverse printing function used to state round trips. */
module Numerals {
  import opened Wrappers

  /** The value of a digit character in bases up to 16; 16 for any other character. */
  function DigitValue(c: char): (d: nat)
    ensures d <= 16
  {
    if '0' <= c <= '9' then c as int - '0' as int
    else if 'a' <= c <= 'f' then c as int - 'a' as int + 10
    else if 'A' <= c <= 'F' then c as int - 'A' as int + 10
    else 16
  }

  predicate IsDigits(s: string, base: nat) {
    forall i | 0 <= i < |s| :: DigitValue(s[i]) < base
  }

  /** The number a digit string denotes, most significant digit first. */
  function ValueOf(s: string, base: nat): nat {
    if s == [] then 0 else ValueOf(s[..|s| - 1], base) * base + DigitValue(s[|s| - 1])
  }

  function DigitChar(d: nat): (c: char)
    requires d < 16
    ensures DigitValue(c) == d
  {
    if d < 10 then ('0' as int + d) as char else ('A' as int + d - 10) as char
  }

  lemma MulAtLeastDouble(q: nat, base: nat)
    requires 2 <= base
    ensures q * base >= q * 2
  {
    var k: nat := base - 2;
    assert q * base == q * 2 + q * k;
  }

  /** Euclidean division by a base of at least 2, and the fact that it shrinks a number of two or more digits. */
  lemma DivModFacts(n: nat, base: nat)
    requires 2 <= base
    ensures n == (n / base) * base + n % base && n % base < base
    ensures n >= base ==> 1 <= n / base < n
  {
    var q := n / base;
    var r := n % base;
    assert n == q * base + r;
    if n >= base {
      MulAtLeastDouble(q, base);
    }
  }

  /** n written in the given base without leading zeros (upper-case hexadecimal digits). */
  function ToDigits(n: nat, base: nat): (s: string)
    requires 2 <= base <= 16
    ensures s != [] && IsDigits(s, base)
    ensures n > 0 ==> s[0] != '0'
    ensures n == 0 ==> s == "0"
    decreases n
  {
    DivModFacts(n, base);
    if n < base then [DigitChar(n)] else ToDigits(n / base, base) + [DigitChar(n % base)]
  }

  lemma {:induction false} ValueOfToDigits(n: nat, base: nat)
    requires 2 <= base <= 16
    ensures ValueOf(ToDigits(n, base), base) == n
    decreases n
  {
    var s := ToDigits(n, base);
    DivModFacts(n, base);
    if n < base {
      assert s[..0] == [];
    } else {
      var high := ToDigits(n / base, base);
      assert s == high + [DigitChar(n % base)];
      assert s[..|s| - 1] == high;
      ValueOfToDigits(n / base, base);
      assert ValueOf(s, base) == (n / base) * base + n % base;
    }
  }

  /** A non-empty digit string in the base, or None. */
  function Digits(s: string, base: nat): (r: Option<nat>)
    ensures r.Some? <==> s != [] && IsDigits(s, base)
  {
    if s != [] && IsDigits(s, base) then Some(ValueOf(s, base)) else None
  }

  predicate HasPrefix(s: string, lower: char, upper: char) {
    |s| >= 2 && s[0] == '0' && (s[1] == lower || s[1] == upper)
  }

  /** int(s, base) for base 2, 10 or 16: an optional 0b / 0x prefix matching the base, then digits. */
  function IntWithBase(s: string, base: nat): (r: Option<nat>)
    requires base == 2 || base == 10 || base == 16
  {
    if base == 16 && HasPrefix(s, 'x', 'X') then Digits(s[2..], 16)
    else if base == 2 && HasPrefix(s, 'b', 'B') then Digits(s[2..], 2)
    else Digits(s, base)
  }

  predicate AllZeros(s: string) {
    forall i | 0 <= i < |s| :: s[i] == '0'
  }

  /** int(s, 0) without a sign: 0x / 0o / 0b prefixed digits, or a decimal without leading zeros. */
  function Unsigned0(s: string): (r: Option<nat>)
    ensures r.Some? && !HasPrefix(s, 'x', 'X') && !HasPrefix(s, 'o', 'O') && !HasPrefix(s, 'b', 'B')
            ==> IsDigits(s, 10) && s != [] && (s[0] != '0' || AllZeros(s))
  {
    if HasPrefix(s, 'x', 'X') then Digits(s[2..], 16)
    else if HasPrefix(s, 'o', 'O') then Digits(s[2..], 8)
    else if HasPrefix(s, 'b', 'B') then Digits(s[2..], 2)
    else if s != [] && IsDigits(s, 10) && (s[0] != '0' || AllZeros(s)) then Some(ValueOf(s, 10))
    else None
  }

  /** int(s, 0): an optional sign, then an unsigned base-0 literal. */
  function IntBase0(s: string): (r: Option<int>)
  {
    if |s| > 0 && (s[0] == '-' || s[0] == '+') then
      match Unsigned0(s[1..])
      case Some(v) => Some(if s[0] == '-' then -(v as int) else v as int)
      case None => None
    else
      match Unsigned0(s)
      case Some(v) => Some(v)
      case None => None
  }

  /** Printing in base 2, 10 or 16 and reading back with int(text, base) is the identity. */
  lemma IntWithBaseRoundTrip(n: nat, base: nat)
    requires base == 2 || base == 10 || base == 16
    ensures IntWithBase(ToDigits(n, base), base) == Some(n)
  {
    var s := ToDigits(n, base);
    ValueOfToDigits(n, base);
    if |s| >= 2 {
      assert DigitValue(s[1]) < base;
    }
  }

  /** A decimal without leading zeros is an unsigned int(text, 0) literal. */
  lemma Unsigned0Decimal(n: nat)
    ensures Unsigned0(ToDigits(n, 10)) == Some(n)
  {
    var s := ToDigits(n, 10);
    ValueOfToDigits(n, 10);
    if |s| >= 2 {
      assert DigitValue(s[1]) < 10;
      assert !HasPrefix(s, 'x', 'X') && !HasPrefix(s, 'o', 'O') && !HasPrefix(s, 'b', 'B');
    }
    if n == 0 {
      assert AllZeros(s);
    }
  }

  /** A decimal printed with an optional minus sign reads back with int(text, 0). */
  lemma IntBase0DecimalRoundTrip(v: int)
    ensures IntBase0(if v < 0 then "-" + ToDigits(-v, 10) else ToDigits(v, 10)) == Some(v)
  {
    if v < 0 {
      var s := ToDigits(-v, 10);
      Unsigned0Decimal(-v);
      assert ("-" + s)[1..] == s;
    } else {
      var s := ToDigits(v, 10);
      Unsigned0Decimal(v);
      assert s[0] != '-' && s[0] != '+' by {
        assert DigitValue(s[0]) < 10;
      }
    }
  }

  /** A 0x-prefixed hexadecimal reads back with int(text, 0). */
  lemma IntBase0HexRoundTrip(n: nat)
    ensures IntBase0("0x" + ToDigits(n, 16)) == Some(n)
  {
    ValueOfToDigits(n, 16);
    assert ("0x" + ToDigits(n, 16))[2..] == ToDigits(n, 16);
  }
}
