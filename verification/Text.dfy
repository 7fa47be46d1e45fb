/** Numbers as text: itoa in place, and what parsing its text gives back. */
module Text {
  import opened Words

  const NUL := 0 as char
  const BACKWARD := "zyxwvutsrqponmlkjihgfedcba987654321"
  const FORWARD := "0123456789abcdefghijklmnopqrstuvwxyz"

  /** The characters itoa indexes with 35 + value % base. */
  const TABLE := BACKWARD + FORWARD

  /** A 32-bit signed integer. */
  type Int = x: int | -0x8000_0000 <= x < 0x8000_0000

  predicate Supported(base: int) {
    2 <= base <= 36
  }

  // ----- division that truncates toward zero

  function Abs(x: int): nat {
    if x < 0 then -x else x
  }

  function Quotient(x: int, d: int): int
    requires d > 0
  {
    if x < 0 then -(-x / d) else x / d
  }

  function Remainder(x: int, d: int): int
    requires d > 0
  {
    if x < 0 then -(-x % d) else x % d
  }

  // ----- the text of a number

  function Digit(d: nat): char
    requires d < 36
  {
    if d < 10 then '0' + d as char else 'a' + (d - 10) as char
  }

  function Digits(n: nat, base: int): (s: string)
    requires Supported(base)
    ensures s != []
  {
    if n < base then [Digit(n)] else DivisionIs(n, base); Digits(n / base, base) + [Digit(n % base)]
  }

  function TextOf(value: int, base: int): string {
    if !Supported(base) then ""
    else (if value < 0 && base == 10 then "-" else "") + Digits(Abs(value), base)
  }

  lemma LowDigits(d: nat)
    requires 0 <= d < 12
    ensures FORWARD[d] == Digit(d) && (d > 0 ==> BACKWARD[35 - d] == Digit(d))
  {}

  lemma MiddleDigits(d: nat)
    requires 12 <= d < 24
    ensures FORWARD[d] == Digit(d) && (d > 0 ==> BACKWARD[35 - d] == Digit(d))
  {
    if d == 12 { assert FORWARD[12] == 'c' && BACKWARD[23] == 'c'; }
    else if d == 13 { assert FORWARD[13] == 'd' && BACKWARD[22] == 'd'; }
    else if d == 14 { assert FORWARD[14] == 'e' && BACKWARD[21] == 'e'; }
    else if d == 15 { assert FORWARD[15] == 'f' && BACKWARD[20] == 'f'; }
    else if d == 16 { assert FORWARD[16] == 'g' && BACKWARD[19] == 'g'; }
    else if d == 17 { assert FORWARD[17] == 'h' && BACKWARD[18] == 'h'; }
    else if d == 18 { assert FORWARD[18] == 'i' && BACKWARD[17] == 'i'; }
    else if d == 19 { assert FORWARD[19] == 'j' && BACKWARD[16] == 'j'; }
    else if d == 20 { assert FORWARD[20] == 'k' && BACKWARD[15] == 'k'; }
    else if d == 21 { assert FORWARD[21] == 'l' && BACKWARD[14] == 'l'; }
    else if d == 22 { assert FORWARD[22] == 'm' && BACKWARD[13] == 'm'; }
    else if d == 23 { assert FORWARD[23] == 'n' && BACKWARD[12] == 'n'; }
  }

  lemma HighDigits(d: nat)
    requires 24 <= d < 36
    ensures FORWARD[d] == Digit(d) && (d > 0 ==> BACKWARD[35 - d] == Digit(d))
  {
    if d == 24 { assert FORWARD[24] == 'o' && BACKWARD[11] == 'o'; }
    else if d == 25 { assert FORWARD[25] == 'p' && BACKWARD[10] == 'p'; }
    else if d == 26 { assert FORWARD[26] == 'q' && BACKWARD[9] == 'q'; }
    else if d == 27 { assert FORWARD[27] == 'r' && BACKWARD[8] == 'r'; }
    else if d == 28 { assert FORWARD[28] == 's' && BACKWARD[7] == 's'; }
    else if d == 29 { assert FORWARD[29] == 't' && BACKWARD[6] == 't'; }
    else if d == 30 { assert FORWARD[30] == 'u' && BACKWARD[5] == 'u'; }
    else if d == 31 { assert FORWARD[31] == 'v' && BACKWARD[4] == 'v'; }
    else if d == 32 { assert FORWARD[32] == 'w' && BACKWARD[3] == 'w'; }
    else if d == 33 { assert FORWARD[33] == 'x' && BACKWARD[2] == 'x'; }
    else if d == 34 { assert FORWARD[34] == 'y' && BACKWARD[1] == 'y'; }
    else if d == 35 { assert FORWARD[35] == 'z' && BACKWARD[0] == 'z'; }
  }

  /** The table serves remainders of either sign. */
  lemma TableSymmetric(d: int)
    requires -36 < d < 36
    ensures |TABLE| == 71 && TABLE[35 + d] == Digit(Abs(d))
  {
    var k := Abs(d);
    if k < 12 { LowDigits(k); } else if k < 24 { MiddleDigits(k); } else { HighDigits(k); }
  }

  // ----- itoa

  function Reversed(s: string): (r: string)
    ensures |r| == |s|
  {
    if s == "" then "" else Reversed(s[1..]) + [s[0]]
  }

  lemma {:induction false} ReversedAt(s: string, k: nat)
    requires k < |s|
    ensures Reversed(s)[k] == s[|s| - 1 - k]
  {
    if k < |s| - 1 { ReversedAt(s[1..], k); }
  }

  lemma {:induction false} ReversedAppend(s: string, c: char)
    ensures Reversed(s + [c]) == [c] + Reversed(s)
  {
    if s == "" {
      assert s + [c] == [c];
    } else {
      assert (s + [c])[1..] == s[1..] + [c];
      ReversedAppend(s[1..], c);
    }
  }

  method Reverse(str: array<char>, from: nat, to: nat)
    requires from <= to <= str.Length
    modifies str
    ensures str[from..to] == Reversed(old(str[from..to]))
    ensures forall k :: 0 <= k < str.Length && !(from <= k < to) ==> str[k] == old(str[k])
  {
    hide Reversed;
    var low, ptr := from, to - 1;
    while low < ptr
      invariant from <= low <= ptr + 2 && low - from == to - 1 - ptr
      invariant forall k :: 0 <= k < str.Length && !(from <= k < low) && !(ptr < k < to) ==> str[k] == old(str[k])
      invariant forall k :: from <= k < low ==> str[k] == old(str[from + to - 1 - k])
      invariant forall k :: ptr < k < to ==> str[k] == old(str[from + to - 1 - k])
    {
      str[low], str[ptr] := str[ptr], str[low];
      low, ptr := low + 1, ptr - 1;
    }
    ghost var was, now := old(str[from..to]), str[from..to];
    forall k: nat {:trigger now[k]} | k < to - from ensures now[k] == was[|was| - 1 - k] {
      assert now[k] == str[from + k];
      assert was[|was| - 1 - k] == old(str[to - 1 - k]);
    }
    IsReversed(was, now);
  }

  lemma IsReversed(was: string, now: string)
    requires |now| == |was| && forall k: nat {:trigger now[k]} :: k < |now| ==> now[k] == was[|was| - 1 - k]
    ensures now == Reversed(was)
  {
    forall k: nat | k < |now| ensures now[k] == Reversed(was)[k] {
      ReversedAt(was, k);
    }
  }

  /** One round of the conversion: the last digit and what is left of the number. */
  lemma LastDigit(x: int, base: int)
    requires Supported(base)
    ensures -36 < Remainder(x, base) < 36
    ensures Digits(Abs(x), base)
      == (if Quotient(x, base) == 0 then "" else Digits(Abs(Quotient(x, base)), base))
        + [Digit(Abs(Remainder(x, base)))]
    ensures Quotient(x, base) != 0 ==> Abs(Quotient(x, base)) < Abs(x)
  {
    hide Digit;
    DivisionIs(Abs(x), base);
    assert Abs(Quotient(x, base)) == Abs(x) / base && Abs(Remainder(x, base)) == Abs(x) % base;
  }

  lemma DivisionIs(n: nat, base: int)
    requires Supported(base)
    ensures n / base == 0 <==> n < base
    ensures n < base ==> n % base == n
    ensures 0 <= n % base < base
    ensures n / base > 0 ==> n / base < n
  {
    var q, r := n / base, n % base;
    assert n == q * base + r;
    if n < base {
      EuclidUnique(n, base, 0, n);
    } else {
      AtLeastDouble(q, base);
    }
  }

  lemma AtLeastDouble(q: nat, base: int)
    requires base >= 2
    ensures q * base >= 2 * q
  {}

  /** Writing one more digit keeps the digits of what is left, followed by those written, the same. */
  lemma OneMore(all: string, x: int, base: int, written: string)
    requires Supported(base) && all == Digits(Abs(x), base) + Reversed(written)
    ensures -36 < Remainder(x, base) < 36 && |TABLE| == 71
    ensures all == (if Quotient(x, base) == 0 then "" else Digits(Abs(Quotient(x, base)), base))
      + Reversed(written + [TABLE[35 + Remainder(x, base)]])
    ensures Quotient(x, base) != 0 ==> Abs(Quotient(x, base)) < Abs(x)
  {
    hide Digits, Digit, Quotient, Remainder, Abs, Reversed;
    LastDigit(x, base);
    TableSymmetric(Remainder(x, base));
    ReversedAppend(written, TABLE[35 + Remainder(x, base)]);
  }

  /** The digits of value, lowest first, from place low on; end is the place after them. */
  method WriteDigits(value: Int, str: array<char>, base: int, low: nat) returns (end: nat)
    requires Supported(base) && low + |Digits(Abs(value), base)| < str.Length
    modifies str
    ensures low <= end < str.Length && Reversed(str[low..end]) == Digits(Abs(value), base)
    ensures forall k :: 0 <= k < str.Length && !(low <= k < end) ==> str[k] == old(str[k])
  {
    hide Digits, Digit, Quotient, Remainder, Abs, Reversed;
    end := low;
    var rest: int := value;
    var done := false;
    ghost var all := Digits(Abs(value), base);
    while !done
      invariant low <= end && end - low <= |all|
      invariant done || end - low < |all|
      invariant all == (if done then "" else Digits(Abs(rest), base)) + Reversed(str[low..end])
      invariant forall k :: 0 <= k < str.Length && !(low <= k < end) ==> str[k] == old(str[k])
      decreases if done then 0 else 1 + Abs(rest)
    {
      ghost var written := str[low..end];
      OneMore(all, rest, base, written);
      str[end] := TABLE[35 + Remainder(rest, base)];
      assert str[low..end + 1] == written + [str[end]];
      end := end + 1;
      rest := Quotient(rest, base);
      done := rest == 0;
    }
  }

  /** The digits and the terminator, lowest digit first, then the digits turned round. */
  method WriteNumber(value: Int, str: array<char>, base: int, low: nat) returns (end: nat)
    requires Supported(base) && low + |Digits(Abs(value), base)| < str.Length
    modifies str
    ensures end == low + |Digits(Abs(value), base)|
    ensures str[low..end] == Digits(Abs(value), base) && str[end] == NUL
    ensures forall k :: 0 <= k < str.Length && !(low <= k <= end) ==> str[k] == old(str[k])
  {
    hide Digits, Reversed, Abs;
    end := WriteDigits(value, str, base, low);
    str[end] := NUL;
    Reverse(str, low, end);
  }

  method Itoa(value: Int, str: array<char>, base: int)
    requires |TextOf(value, base)| < str.Length
    modifies str
    ensures var text := TextOf(value, base); str[..|text|] == text && str[|text|] == NUL
    ensures forall k :: |TextOf(value, base)| < k < str.Length ==> str[k] == old(str[k])
  {
    hide Digits, Abs;
    if base < 2 || base > 36 {
      str[0] := NUL;
      return;
    }
    var low := 0;
    if value < 0 && base == 10 {
      str[0] := '-';
      low := 1;
    }
    var end := WriteNumber(value, str, base, low);
    assert str[..end] == str[..low] + str[low..end];
  }

  // ----- reading a number back

  function DigitValue(c: char): int {
    if '0' <= c <= '9' then c as int - '0' as int else c as int - 'a' as int + 10
  }

  function Value(s: string, base: int): int {
    if s == "" then 0 else Value(s[..|s| - 1], base) * base + DigitValue(s[|s| - 1])
  }

  /** The number a text stands for: digits in the given base after an optional minus sign. */
  function Parse(text: string, base: int): int {
    if text != "" && text[0] == '-' then -Value(text[1..], base) else Value(text, base)
  }

  lemma DigitsEnd(n: nat, base: int)
    requires Supported(base)
    ensures n % base < 36 && DigitValue(Digit(n % base)) == n % base
    ensures n < base ==> n % base == n
  {}

  lemma ValueAppend(s: string, c: char, base: int)
    ensures Value(s + [c], base) == Value(s, base) * base + DigitValue(c)
  {}

  lemma {:induction false} DigitsValue(n: nat, base: int)
    requires Supported(base)
    ensures Value(Digits(n, base), base) == n
  {
    hide Digit, DigitValue, Value;
    DigitsEnd(n, base);
    if n >= base {
      DivisionIs(n, base);
      DigitsValue(n / base, base);
      ValueAppend(Digits(n / base, base), Digit(n % base), base);
      Division(n, base);
    } else {
      OneDigit(n, base);
    }
  }

  lemma OneDigit(n: nat, base: int)
    requires Supported(base) && n < base
    ensures Value([Digit(n)], base) == n
  {}

  lemma Division(n: nat, base: int)
    requires base > 0
    ensures n / base * base + n % base == n
  {}

  lemma {:induction false} DigitsUnsigned(n: nat, base: int)
    requires Supported(base)
    ensures Digits(n, base)[0] != '-'
  {
    DivisionIs(n, base);
    if n >= base { DigitsUnsigned(n / base, base); }
  }

  /** Only the number 0 is written with a leading 0. */
  lemma {:induction false} NoLeadingZero(n: nat, base: int)
    requires Supported(base)
    ensures Digits(n, base)[0] == '0' ==> n == 0 && Digits(n, base) == "0"
  {
    DivisionIs(n, base);
    if n >= base { NoLeadingZero(n / base, base); }
  }

  /** Reading what itoa wrote gives the number back in base 10, and in the other bases when it has no sign to lose;
      there is no other text for it, because there are no leading zeros. */
  lemma ParseTextOf(value: Int, base: int)
    requires Supported(base)
    ensures Parse(TextOf(value, base), base) == if base == 10 then value else Abs(value)
    ensures Parse(TextOf(value, base), base) == value <==> value >= 0 || base == 10
    ensures '0' in TextOf(value, base) && TextOf(value, base)[0] == '0' ==> value == 0 && TextOf(value, base) == "0"
    ensures value < 0 && base == 10 ==> |TextOf(value, base)| > 1 && TextOf(value, base)[1] != '0'
  {
    hide Digits, Value;
    NoLeadingZero(Abs(value), base);
    DigitsValue(Abs(value), base);
    DigitsUnsigned(Abs(value), base);
    if value < 0 && base == 10 {
      assert TextOf(value, base)[1..] == Digits(Abs(value), base);
    } else {
      assert TextOf(value, base) == Digits(Abs(value), base);
    }
  }
}
