/** Machine integers and their decimal texts: Go's integer conversions, C's byte
    narrowing, the text both languages print for an integer and C's `atoi`. */
module Numbers {

  /** Go's `int32(x)`: the low 32 bits, read as a two's complement number. */
  function Int32(x: int): (r: int)
    ensures -0x8000_0000 <= r < 0x8000_0000
    ensures r == x <==> -0x8000_0000 <= x < 0x8000_0000
  {
    var low := x % 0x1_0000_0000;
    if low < 0x8000_0000 then low else low - 0x1_0000_0000
  }

  /** The value of a Go `int` computation whose exact result is `x`. */
  function Int64(x: int): (r: int)
    ensures -0x8000_0000_0000_0000 <= r < 0x8000_0000_0000_0000
    ensures r == x <==> -0x8000_0000_0000_0000 <= x < 0x8000_0000_0000_0000
  {
    var low := x % 0x1_0000_0000_0000_0000;
    if low < 0x8000_0000_0000_0000 then low else low - 0x1_0000_0000_0000_0000
  }

  /** Wrapping a 64-bit number does not touch its low byte. */
  lemma {:induction false} ByteOfInt64(x: int)
    ensures Byte(Int64(x)) == Byte(x)
  {
    var q := (x - Int64(x)) / 0x1_0000_0000_0000_0000;
    assert x == 0x1_0000_0000_0000_0000 * q + Int64(x);
    ModShift(0x100_0000_0000_0000 * q, Int64(x));
  }

  /** Nor does wrapping a 32-bit number. */
  lemma {:induction false} ByteOfInt32(x: int)
    ensures Byte(Int32(x)) == Byte(x)
  {
    var q := (x - Int32(x)) / 0x1_0000_0000;
    assert x == 0x1_0000_0000 * q + Int32(x);
    ModShift(0x100_0000 * q, Int32(x));
  }

  /** Go's `uint(x)` for a signed `x`. */
  function UInt64(x: int): (r: nat)
    ensures 0 <= x < 0x8000_0000_0000_0000 ==> r == x
  {
    x % 0x1_0000_0000_0000_0000
  }

  /** Each conversion ends in its range and keeps the number modulo its width. */
  lemma ConversionsWrap(x: int) returns (k8: int, k32: int, k64: int, u64: int)
    ensures 0 <= Byte(x) < 0x100 && x == Byte(x) + 0x100 * k8
    ensures -0x8000_0000 <= Int32(x) < 0x8000_0000 && x == Int32(x) + 0x1_0000_0000 * k32
    ensures -0x8000_0000_0000_0000 <= Int64(x) < 0x8000_0000_0000_0000
    ensures x == Int64(x) + 0x1_0000_0000_0000_0000 * k64
    ensures 0 <= UInt64(x) < 0x1_0000_0000_0000_0000 && x == UInt64(x) + 0x1_0000_0000_0000_0000 * u64
  {
    k8 := x / 0x100;
    k32 := x / 0x1_0000_0000 + if Int32(x) < 0 then 1 else 0;
    k64 := x / 0x1_0000_0000_0000_0000 + if Int64(x) < 0 then 1 else 0;
    u64 := x / 0x1_0000_0000_0000_0000;
  }

  /** A 64-bit id survives `uint(int32(x))` exactly at the two ends of its range. */
  lemma {:induction false} IdOnTheWire(x: nat)
    ensures UInt64(Int32(x)) == x <==> x < 0x8000_0000 || 0xFFFF_FFFF_8000_0000 <= x < 0x1_0000_0000_0000_0000
  {
    var r := Int32(x);
    var q := (x - r) / 0x1_0000_0000;
    assert x == 0x1_0000_0000 * q + r;
    if r < 0 {
      assert UInt64(r) == r + 0x1_0000_0000_0000_0000;
    }
  }

  /** C's conversion to `uint8_t`. */
  function Byte(x: int): (r: nat)
    ensures r < 256
    ensures r == x <==> 0 <= x < 256
  {
    x % 256
  }

  /** Narrowing commutes with multiplication. */
  lemma {:induction false} ByteOfProduct(a: int, b: int)
    ensures Byte(Byte(a) * Byte(b)) == Byte(a * b)
  {
    var qa, ra, qb, rb := a / 256, a % 256, b / 256, b % 256;
    assert a * b == 256 * (256 * qa * qb + qa * rb + ra * qb) + ra * rb by {
      assert a == 256 * qa + ra && b == 256 * qb + rb;
      assert a * b == 256 * qa * (256 * qb + rb) + ra * (256 * qb + rb);
    }
    ModShift(256 * qa * qb + qa * rb + ra * qb, ra * rb);
  }

  lemma ModShift(k: int, r: int)
    ensures (256 * k + r) % 256 == r % 256
  {
  }

  function Digit(d: nat): (c: char)
    requires d < 10
    ensures IsDigit(c) && DigitValue(c) == d
  {
    ('0' as int + d) as char
  }

  predicate IsDigit(c: char) {
    '0' <= c <= '9'
  }

  function DigitValue(c: char): nat
    requires IsDigit(c)
  {
    c as int - '0' as int
  }

  /** The decimal text of a natural number, without leading zeros. */
  function DecNat(n: nat): (s: string)
    ensures |s| > 0 && forall c | c in s :: IsDigit(c)
  {
    if n < 10 then [Digit(n)] else DecNat(n / 10) + [Digit(n % 10)]
  }

  /** The decimal text of an integer, as `%d`, `%u`, `%ld` and Go's JSON encoder print it. */
  function Dec(n: int): (s: string)
    ensures |s| > 0 && forall c | c in s :: IsDigit(c) || c == '-'
  {
    if n < 0 then "-" + DecNat(-n) else DecNat(n)
  }

  /** The leading digits of `s`, accumulated onto `acc`. */
  function ParseDigits(acc: nat, s: string): nat
    decreases |s|
  {
    if s == "" || !IsDigit(s[0]) then acc
    else ParseDigits(10 * acc + DigitValue(s[0]), s[1..])
  }

  /** C's `isspace`: the space, and the tab to the carriage return. */
  predicate IsCSpace(c: char) {
    c == ' ' || 9 as char <= c <= 13 as char
  }

  function SkipCSpace(s: string): string {
    if s != "" && IsCSpace(s[0]) then SkipCSpace(s[1..]) else s
  }

  /** C's `atoi` on a text whose value fits in an `int`. */
  function Atoi(s: string): int {
    var t := SkipCSpace(s);
    if t != "" && t[0] == '-' then 0 - ParseDigits(0, t[1..])
    else if t != "" && t[0] == '+' then ParseDigits(0, t[1..])
    else ParseDigits(0, t)
  }

  lemma {:induction false} ParseDigitsSnoc(acc: nat, s: string, c: char)
    requires IsDigit(c) && forall d | d in s :: IsDigit(d)
    ensures ParseDigits(acc, s + [c]) == 10 * ParseDigits(acc, s) + DigitValue(c)
    decreases |s|
  {
    if s == "" {
      assert s + [c] == [c];
      assert ParseDigits(acc, [c]) == ParseDigits(10 * acc + DigitValue(c), [c][1..]);
    } else {
      assert (s + [c])[1..] == s[1..] + [c];
      ParseDigitsSnoc(10 * acc + DigitValue(s[0]), s[1..], c);
    }
  }

  lemma {:induction false} ParseDecNat(n: nat)
    ensures ParseDigits(0, DecNat(n)) == n
  {
    if n < 10 {
      ParseDigitsSnoc(0, "", Digit(n));
      assert "" + [Digit(n)] == DecNat(n);
    } else {
      ParseDecNat(n / 10);
      ParseDigitsSnoc(0, DecNat(n / 10), Digit(n % 10));
    }
  }

  lemma {:induction false} ParseDigitsStops(acc: nat, d: string, rest: string)
    requires (forall c | c in d :: IsDigit(c)) && (rest == "" || !IsDigit(rest[0]))
    ensures ParseDigits(acc, d + rest) == ParseDigits(acc, d)
    decreases |d|
  {
    if d == "" {
      assert d + rest == rest;
    } else {
      assert d[0] in d && (d + rest)[0] == d[0] && (d + rest)[1..] == d[1..] + rest;
      ParseDigitsStops(10 * acc + DigitValue(d[0]), d[1..], rest);
    }
  }

  lemma {:induction false} SkipCSpaceOf(ws: string, t: string)
    requires (forall c | c in ws :: c == ' ' || 9 as char <= c <= 13 as char) && (t == "" || !IsCSpace(t[0]))
    ensures SkipCSpace(ws + t) == t
  {
    if ws == "" {
      assert ws + t == t;
    } else {
      assert ws[0] in ws && (ws + t)[0] == ws[0] && (ws + t)[1..] == ws[1..] + t;
      assert forall c | c in ws[1..] :: c in ws;
      SkipCSpaceOf(ws[1..], t);
    }
  }

  /** `atoi` skips white space, reads an optional sign and the digits, and ignores the rest. */
  lemma {:induction false} AtoiReads(ws: string, sign: string, n: nat, rest: string)
    requires forall c | c in ws :: c == ' ' || 9 as char <= c <= 13 as char
    requires sign in {"", "+", "-"} && (rest == "" || !IsDigit(rest[0]))
    ensures Atoi(ws + (sign + DecNat(n) + rest)) == (if sign == "-" then -1 else 1) * n
  {
    var t := sign + DecNat(n) + rest;
    assert DecNat(n)[0] in DecNat(n) && t[|sign|] == DecNat(n)[0];
    assert t[|sign|..] == DecNat(n) + rest;
    SkipCSpaceOf(ws, t);
    ParseDigitsStops(0, DecNat(n), rest);
    ParseDecNat(n);
  }

  /** A text without digits in that place counts as 0. */
  lemma {:induction false} AtoiOfNone(ws: string, sign: string, rest: string)
    requires forall c | c in ws :: c == ' ' || 9 as char <= c <= 13 as char
    requires sign in {"", "+", "-"}
    requires rest == "" || !(IsDigit(rest[0]) || (sign == "" && (IsCSpace(rest[0]) || rest[0] in {'+', '-'})))
    ensures Atoi(ws + (sign + rest)) == 0
  {
    var t := sign + rest;
    assert t[|sign|..] == rest;
    SkipCSpaceOf(ws, t);
  }

  /** Printing an integer and reading it back with `atoi` is the identity. */
  lemma {:induction false} AtoiOfDec(n: int)
    ensures Atoi(Dec(n)) == n
  {
    var sign, d := if n < 0 then "-" else "", DecNat(if n < 0 then -n else n);
    assert Dec(n) == "" + (sign + d + "");
    AtoiReads("", sign, if n < 0 then -n else n, "");
  }

  function Pow10(k: nat): nat {
    if k == 0 then 1 else 10 * Pow10(k - 1)
  }

  /** A number below 10^k needs at most k digits. */
  lemma {:induction false} DecNatLength(n: nat, k: nat)
    requires k > 0 && n < Pow10(k)
    ensures |DecNat(n)| <= k
  {
    if n >= 10 {
      assert k > 1 by { assert Pow10(1) == 10 * Pow10(0); }
      DecNatLength(n / 10, k - 1);
    }
  }

  /** And it needs at most k digits only then. */
  lemma {:induction false} DecNatLengthExactly(n: nat, k: nat)
    requires k > 0
    ensures |DecNat(n)| <= k <==> n < Pow10(k)
  {
    if k == 1 {
      assert Pow10(1) == 10 * Pow10(0);
    } else if n < 10 {
      Pow10Grows(k);
    } else {
      DecNatLengthExactly(n / 10, k - 1);
    }
  }

  lemma {:induction false} Pow10Grows(k: nat)
    requires k > 0
    ensures Pow10(k) >= 10
  {
    if k > 1 {
      Pow10Grows(k - 1);
    }
  }
}
