/** Dotted quads: what ifconfig prints for an address and what string_to_ip reads. */
module Addresses {
  import opened Words
  import opened Text

  // ----- reading

  /** octet << shift, cut to 32 bits, joined to ip. */
  function Joined(ip: Word, octet: nat, shift: nat): Word {
    JoinedBound(ip, octet * Pow2(shift) % 0x1_0000_0000);
    Or(ip, octet * Pow2(shift) % 0x1_0000_0000)
  }

  lemma JoinedBound(x: Word, y: Word)
    ensures Or(x, y) < 0x1_0000_0000
  {
    Pow2At32();
    OrBound(x, y, 32);
  }

  predicate IsDigit(c: char) {
    '0' <= c <= '9'
  }

  /** What is left to do at text with an address so far, an octet so far and its place: dots end octets,
      digits extend them and everything else is passed over. */
  function ReadOn(text: string, ip: Word, octet: nat, shift: nat): Word {
    if text == "" then Joined(ip, octet, shift)
    else if text[0] == '.' then ReadOn(text[1..], Joined(ip, octet, shift), 0, shift + 8)
    else if IsDigit(text[0]) then ReadOn(text[1..], ip, octet * 10 + (text[0] as int - '0' as int), shift)
    else ReadOn(text[1..], ip, octet, shift)
  }

  function AddressIn(text: string): Word {
    ReadOn(text, 0, 0, 0)
  }

  /** The text ends at the first NUL. */
  method StringToIp(str: array<char>, ghost length: nat) returns (ip: Word)
    requires length < str.Length && str[length] == NUL && NUL !in str[..length]
    ensures ip == AddressIn(str[..length])
  {
    ip := 0;
    var octet: nat, shift: nat, i := 0, 0, 0;
    ghost var text := str[..length];
    while true
      invariant i <= length && str[..length] == text
      invariant AddressIn(text) == ReadOn(text[i..], ip, octet, shift)
      decreases length - i
    {
      if i < length { assert str[i] == text[i] && text[i] != NUL; assert text[i..][1..] == text[i + 1..]; }
      if str[i] == '.' || str[i] == NUL {
        ip := Joined(ip, octet, shift);
        shift := shift + 8;
        octet := 0;
        if str[i] == NUL { break; }
      } else if IsDigit(str[i]) {
        octet := octet * 10 + (str[i] as int - '0' as int);
      }
      i := i + 1;
    }
  }

  // ----- printing

  function Octet(ip: Word, k: nat): Byte
    requires k < 4
  {
    ip / (if k == 0 then 1 else if k == 1 then 0x100 else if k == 2 then 0x1_0000 else 0x100_0000) % 0x100
  }

  const REMARK := " (No IP assigned)"
  const NO_ADDRESS := "0.0.0.0" + REMARK

  function QuadOf(a: Byte, b: Byte, c: Byte, d: Byte): string {
    Digits(a, 10) + "." + Digits(b, 10) + "." + Digits(c, 10) + "." + Digits(d, 10)
  }

  function Quad(ip: Word): string {
    QuadOf(Octet(ip, 0), Octet(ip, 1), Octet(ip, 2), Octet(ip, 3))
  }

  function Printed(ip: Word): string {
    if ip == 0 then NO_ADDRESS else Quad(ip)
  }

  lemma {:induction false} DigitsAreDigits(n: nat)
    ensures forall i :: 0 <= i < |Digits(n, 10)| ==> IsDigit(Digits(n, 10)[i])
    decreases n
  {
    DivisionIs(n, 10);
    if n >= 10 { DigitsAreDigits(n / 10); }
  }

  lemma OctetText(n: Byte)
    ensures TextOf(n, 10) == Digits(n, 10) && |Digits(n, 10)| <= 3
    ensures forall i :: 0 <= i < |Digits(n, 10)| ==> IsDigit(Digits(n, 10)[i])
  {
    hide Digit;
    DigitsAreDigits(n);
    var m: nat := n / 10;
    var l: nat := m / 10;
    assert |Digits(l, 10)| == 1;
    assert |Digits(m, 10)| <= 2;
  }

  /** kprint(itoa(value, b, 10)) of an octet. */
  method PrintOctet(value: Byte, b: array<char>) returns (out: string)
    requires b.Length == 16
    modifies b
    ensures out == Digits(value, 10)
  {
    OctetText(value);
    ghost var text := Digits(value, 10);
    hide Digits;
    Itoa(value, b, 10);
    out := "";
    var i := 0;
    while b[i] != NUL
      invariant i <= |text| < 16 && b[..|text|] == text && b[|text|] == NUL && out == text[..i]
      decreases |text| - i
    {
      assert b[i] == b[..|text|][i];
      out := out + [b[i]];
      i := i + 1;
    }
    assert i < |text| ==> b[i] == text[i] && IsDigit(text[i]);
  }

  method PrintAddress(ip: Word) returns (out: string)
    ensures out == Printed(ip)
  {
    hide Digits;
    if ip == 0 { return NO_ADDRESS; }
    var b := new char[16];
    Low(ip);
    Low(ip / 0x100);
    Low(ip / 0x1_0000);
    Low(ip / 0x100_0000);
    out := PrintOctet(And(ip, 0xFF), b);
    var next := PrintOctet(And(ip / 0x100, 0xFF), b);
    out := out + "." + next;
    next := PrintOctet(And(ip / 0x1_0000, 0xFF), b);
    out := out + "." + next;
    next := PrintOctet(And(ip / 0x100_0000, 0xFF), b);
    out := out + "." + next;
  }

  lemma Low(x: nat)
    ensures And(x, 0xFF) == x % 0x100
  {
    assert Pow2(4) == 16 && Pow2(8) == 256;
    AndLow(x, 8);
  }

  // ----- reading back

  lemma {:induction false} ReadsDigits(n: nat, rest: string, ip: Word, shift: nat)
    ensures ReadOn(Digits(n, 10) + rest, ip, 0, shift) == ReadOn(rest, ip, n, shift)
    decreases n
  {
    DivisionIs(n, 10);
    var last := [Digit(n % 10)] + rest;
    assert last[1..] == rest;
    if n >= 10 {
      ReadsDigits(n / 10, last, ip, shift);
      assert Digits(n, 10) + rest == Digits(n / 10, 10) + last;
    } else {
      assert Digits(n, 10) + rest == last;
    }
  }

  lemma ReadsPart(n: nat, rest: string, ip: Word, shift: nat)
    ensures ReadOn(Digits(n, 10) + "." + rest, ip, 0, shift) == ReadOn(rest, Joined(ip, n, shift), 0, shift + 8)
  {
    hide Digits;
    assert ("." + rest)[1..] == rest;
    assert Digits(n, 10) + "." + rest == Digits(n, 10) + ("." + rest);
    ReadsDigits(n, "." + rest, ip, shift);
  }

  lemma {:induction false} OrCommutes(x: nat, y: nat)
    ensures Or(x, y) == Or(y, x)
    decreases x + y
  {
    if x > 0 && y > 0 { OrCommutes(x / 2, y / 2); }
  }

  /** Joining an octet above the bits in use adds it. */
  lemma JoinedAdds(ip: Word, octet: Byte, shift: nat)
    requires ip < Pow2(shift) && shift <= 24
    ensures octet * Pow2(shift) + ip < 0x1_0000_0000
    ensures Joined(ip, octet, shift) == ip + octet * Pow2(shift)
  {
    hide Or, Pow2;
    ShiftBound(octet, shift);
    var high: Word := octet * Pow2(shift);
    Modest(high);
    OrAligned(octet, ip, shift);
    OrCommutes(ip, high);
  }

  lemma Modest(x: Word)
    ensures x % 0x1_0000_0000 == x
  {}

  lemma ShiftBound(octet: Byte, shift: nat)
    requires shift <= 24
    ensures octet * Pow2(shift) + Pow2(shift) <= 0x1_0000_0000
  {
    Pow2Mono(shift, 24);
    assert Pow2(4) == 16 && Pow2(8) == 256 && Pow2(12) == 4096;
    assert Pow2(16) == 65536 && Pow2(20) == 1048576 && Pow2(24) == 0x100_0000;
    Below(octet + 1, Pow2(shift), 0x100_0000);
  }

  lemma Below(a: nat, x: nat, y: nat)
    requires x <= y && a <= 256
    ensures a * x <= 256 * y
  {}

  lemma {:induction false} ReadsNothing(text: string, ip: Word, octet: nat, shift: nat)
    requires forall i :: 0 <= i < |text| ==> text[i] != '.' && !IsDigit(text[i])
    ensures ReadOn(text, ip, octet, shift) == Joined(ip, octet, shift)
    decreases |text|
  {
    if text != "" { ReadsNothing(text[1..], ip, octet, shift); }
  }

  lemma ReadsQuad(a: Byte, b: Byte, c: Byte, d: Byte, rest: string)
    requires forall i :: 0 <= i < |rest| ==> rest[i] != '.' && !IsDigit(rest[i])
    ensures AddressIn(QuadOf(a, b, c, d) + rest) == Joined(Joined(Joined(Joined(0, a, 0), b, 8), c, 16), d, 24)
  {
    hide Digits, Joined;
    var s, t, u, v := Digits(a, 10), Digits(b, 10), Digits(c, 10), Digits(d, 10) + rest;
    assert QuadOf(a, b, c, d) + rest == s + "." + (t + "." + (u + "." + v));
    ReadsPart(a, t + "." + (u + "." + v), 0, 0);
    ReadsPart(b, u + "." + v, Joined(0, a, 0), 8);
    ReadsPart(c, v, Joined(Joined(0, a, 0), b, 8), 16);
    ReadsDigits(d, rest, Joined(Joined(Joined(0, a, 0), b, 8), c, 16), 24);
    ReadsNothing(rest, Joined(Joined(Joined(0, a, 0), b, 8), c, 16), d, 24);
  }

  lemma JoinsUp(a: Byte, b: Byte, c: Byte, d: Byte)
    ensures Joined(Joined(Joined(Joined(0, a, 0), b, 8), c, 16), d, 24) == a + 0x100 * b + 0x1_0000 * c + 0x100_0000 * d
  {
    hide Joined;
    assert Pow2(4) == 16 && Pow2(8) == 256 && Pow2(12) == 4096;
    assert Pow2(16) == 65536 && Pow2(20) == 1048576 && Pow2(24) == 0x100_0000;
    JoinedAdds(0, a, 0);
    JoinedAdds(a, b, 8);
    JoinedAdds(a + 0x100 * b, c, 16);
    JoinedAdds(a + 0x100 * b + 0x1_0000 * c, d, 24);
  }

  /** string_to_ip of the quad a.b.c.d, and what ifconfig prints for it: the first number is the lowest byte. */
  lemma QuadIs(a: Byte, b: Byte, c: Byte, d: Byte)
    ensures var text, ip := TextOf(a, 10) + "." + TextOf(b, 10) + "." + TextOf(c, 10) + "." + TextOf(d, 10),
        a + 0x100 * b + 0x1_0000 * c + 0x100_0000 * d;
      && AddressIn(text) == ip
      && Printed(ip) == if ip == 0 then "0.0.0.0 (No IP assigned)" else text
  {
    hide AddressIn, Joined, Digits;
    OctetText(a);
    OctetText(b);
    OctetText(c);
    OctetText(d);
    ReadsQuad(a, b, c, d, "");
    assert QuadOf(a, b, c, d) + "" == QuadOf(a, b, c, d);
    JoinsUp(a, b, c, d);
    OctetsOf(a, b, c, d);
  }

  lemma OctetsOf(a: Byte, b: Byte, c: Byte, d: Byte)
    ensures var ip := a + 0x100 * b + 0x1_0000 * c + 0x100_0000 * d;
      Octet(ip, 0) == a && Octet(ip, 1) == b && Octet(ip, 2) == c && Octet(ip, 3) == d
  {
    var ip := a + 0x100 * b + 0x1_0000 * c + 0x100_0000 * d;
    EuclidUnique(ip, 0x100, b + 0x100 * c + 0x1_0000 * d, a);
    EuclidUnique(b + 0x100 * c + 0x1_0000 * d, 0x100, c + 0x100 * d, b);
    EuclidUnique(ip, 0x1_0000, c + 0x100 * d, a + 0x100 * b);
    EuclidUnique(c + 0x100 * d, 0x100, d, c);
    EuclidUnique(ip, 0x100_0000, d, a + 0x100 * b + 0x1_0000 * c);
  }

  lemma OctetsMake(ip: Word)
    ensures Octet(ip, 0) + 0x100 * Octet(ip, 1) + 0x1_0000 * Octet(ip, 2) + 0x100_0000 * Octet(ip, 3) == ip
  {
    var x, y, z := ip / 0x100, ip / 0x1_0000, ip / 0x100_0000;
    assert ip == 0x100 * x + Octet(ip, 0);
    assert x == 0x100 * y + Octet(ip, 1);
    assert y == 0x100 * z + Octet(ip, 2);
  }

  lemma NoAddress()
    ensures NO_ADDRESS == QuadOf(0, 0, 0, 0) + REMARK
    ensures forall i :: 0 <= i < |REMARK| ==> REMARK[i] != '.' && !IsDigit(REMARK[i])
  {
    ZeroText(0);
  }

  lemma ZeroText(n: nat)
    requires n == 0
    ensures Digits(n, 10) == "0"
  {}

  /** string_to_ip of what ifconfig prints for an address is the address. */
  lemma PrintedReadsBack(ip: Word)
    ensures AddressIn(Printed(ip)) == ip
  {
    hide AddressIn, Octet, Joined, Digits, QuadOf;
    var a, b, c, d := Octet(ip, 0), Octet(ip, 1), Octet(ip, 2), Octet(ip, 3);
    NoAddress();
    OctetsMake(ip);
    ReadsQuad(a, b, c, d, if ip == 0 then REMARK else "");
    JoinsUp(a, b, c, d);
    assert QuadOf(a, b, c, d) + "" == QuadOf(a, b, c, d);
  }
}
