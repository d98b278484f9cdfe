/**
 UTF-8 as Go's unicode/utf8 package treats it: encoding is defined on every
 Unicode scalar value, and decoding is total, an ill-formed byte standing for
 U+FFFD with a width of one.
 */
module Utf8 {
  type byte = x: int | 0 <= x < 256

  type Bytes = seq<byte>

  const REPLACEMENT := '\U{FFFD}'

  function EncodeRune(c: char): (b: Bytes)
    ensures 1 <= |b| <= 4
  {
    var n := c as int;
    if n < 0x80 then [n]
    else if n < 0x800 then [0xC0 + n / 64, 0x80 + n % 64]
    else if n < 0x1_0000 then [0xE0 + n / 4096, 0x80 + n / 64 % 64, 0x80 + n % 64]
    else [0xF0 + n / 262144, 0x80 + n / 4096 % 64, 0x80 + n / 64 % 64, 0x80 + n % 64]
  }

  function Encode(s: string): Bytes {
    if s == "" then [] else EncodeRune(s[0]) + Encode(s[1..])
  }

  predicate Continues(b: byte) {
    0x80 <= b < 0xC0
  }

  /** The payload bits of a byte, below its marker. */
  function Low(b: byte, marker: int): int {
    b - marker
  }

  predicate IsScalar(n: int) {
    0 <= n < 0xD800 || 0xE000 <= n < 0x11_0000
  }

  datatype Rune = Rune(c: char, width: nat)

  /** The rune at the front of a non-empty byte string, and how many bytes it takes. */
  function DecodeRune(b: Bytes): (r: Rune)
    requires b != []
    ensures 1 <= r.width <= |b|
  {
    if b[0] < 0x80 then Rune(b[0] as char, 1)
    else if 0xC2 <= b[0] < 0xE0 && |b| >= 2 && Continues(b[1]) then
      Rune((Low(b[0], 0xC0) * 64 + Low(b[1], 0x80)) as char, 2)
    else if 0xE0 <= b[0] < 0xF0 && |b| >= 3 && Continues(b[1]) && Continues(b[2]) then
      var n := Low(b[0], 0xE0) * 4096 + Low(b[1], 0x80) * 64 + Low(b[2], 0x80);
      if 0x800 <= n && IsScalar(n) then Rune(n as char, 3) else Rune(REPLACEMENT, 1)
    else if 0xF0 <= b[0] < 0xF5 && |b| >= 4 && Continues(b[1]) && Continues(b[2]) && Continues(b[3]) then
      var n := Low(b[0], 0xF0) * 262144 + Low(b[1], 0x80) * 4096 + Low(b[2], 0x80) * 64 + Low(b[3], 0x80);
      if 0x1_0000 <= n && IsScalar(n) then Rune(n as char, 4) else Rune(REPLACEMENT, 1)
    else Rune(REPLACEMENT, 1)
  }

  function Decode(b: Bytes): string {
    if b == [] then ""
    else
      var r := DecodeRune(b);
      [r.c] + Decode(b[r.width..])
  }

  lemma Digits2(n: nat)
    requires 0x80 <= n < 0x800
    ensures 2 <= n / 64 < 32 && n / 64 * 64 + n % 64 == n
  {
  }

  lemma Digits3(n: nat)
    requires 0x800 <= n < 0x1_0000
    ensures n / 4096 < 16 && n / 4096 * 4096 + n / 64 % 64 * 64 + n % 64 == n
  {
  }

  lemma Digits4(n: nat)
    requires 0x1_0000 <= n < 0x11_0000
    ensures n / 262144 < 5
    ensures n / 262144 * 262144 + n / 4096 % 64 * 4096 + n / 64 % 64 * 64 + n % 64 == n
  {
  }

  lemma RuneRoundTrip(c: char, rest: Bytes)
    ensures DecodeRune(EncodeRune(c) + rest) == Rune(c, |EncodeRune(c)|)
  {
    var n := c as int;
    if 0x80 <= n < 0x800 {
      Digits2(n);
    } else if 0x800 <= n < 0x1_0000 {
      Digits3(n);
    } else if 0x1_0000 <= n {
      Digits4(n);
    }
  }

  lemma DecodeStep(c: char, rest: Bytes)
    ensures Decode(EncodeRune(c) + rest) == [c] + Decode(rest)
  {
    RuneRoundTrip(c, rest);
    assert (EncodeRune(c) + rest)[|EncodeRune(c)|..] == rest;
  }

  lemma Regroup(a: Bytes, b: Bytes, c: Bytes)
    ensures (a + b) + c == a + (b + c)
  {
  }

  lemma RegroupText(c: char, s: string, t: string)
    ensures [c] + (s + t) == ([c] + s) + t
  {
  }

  /** Encoded text decodes to itself, whatever bytes follow it. */
  lemma {:induction false} DecodeFront(s: string, tail: Bytes)
    ensures Decode(Encode(s) + tail) == s + Decode(tail)
  {
    if s == "" {
      assert Encode(s) + tail == tail && s + Decode(tail) == Decode(tail);
    } else {
      DecodeFront(s[1..], tail);
      DecodeStep(s[0], Encode(s[1..]) + tail);
      Regroup(EncodeRune(s[0]), Encode(s[1..]), tail);
      RegroupText(s[0], s[1..], Decode(tail));
      assert s == [s[0]] + s[1..];
    }
  }

  /** Text survives a trip through bytes. */
  lemma RoundTrip(s: string)
    ensures Decode(Encode(s)) == s
  {
    DecodeFront(s, []);
    assert Encode(s) + [] == Encode(s) && s + Decode([]) == s;
  }

  // ---------- Ill-formed bytes ----------

  lemma TwoByteForm(x: int, y: int)
    requires 0xC2 <= x < 0xE0 && 0x80 <= y < 0xC0
    ensures var n := (x - 0xC0) * 64 + (y - 0x80); 0x80 <= n < 0x800 && n / 64 == x - 0xC0 && n % 64 == y - 0x80
  {
  }

  lemma ThreeByteForm(x: int, y: int, z: int)
    requires 0xE0 <= x < 0xF0 && 0x80 <= y < 0xC0 && 0x80 <= z < 0xC0
    ensures var n := (x - 0xE0) * 4096 + (y - 0x80) * 64 + (z - 0x80);
            n < 0x1_0000 && n / 4096 == x - 0xE0 && n / 64 % 64 == y - 0x80 && n % 64 == z - 0x80
  {
    var n := (x - 0xE0) * 4096 + (y - 0x80) * 64 + (z - 0x80);
    assert n / 64 == (x - 0xE0) * 64 + (y - 0x80);
  }

  lemma FourByteForm(x: int, y: int, z: int, w: int)
    requires 0xF0 <= x < 0xF5 && 0x80 <= y < 0xC0 && 0x80 <= z < 0xC0 && 0x80 <= w < 0xC0
    ensures var n := (x - 0xF0) * 262144 + (y - 0x80) * 4096 + (z - 0x80) * 64 + (w - 0x80);
            n / 262144 == x - 0xF0 && n / 4096 % 64 == y - 0x80 && n / 64 % 64 == z - 0x80 && n % 64 == w - 0x80
  {
    var n := (x - 0xF0) * 262144 + (y - 0x80) * 4096 + (z - 0x80) * 64 + (w - 0x80);
    assert n / 64 == (x - 0xF0) * 4096 + (y - 0x80) * 64 + (z - 0x80);
    assert n / 4096 == (x - 0xF0) * 64 + (y - 0x80);
  }

  lemma WellFormedFront(b: Bytes)
    requires b != [] && DecodeRune(b) != Rune(REPLACEMENT, 1)
    ensures var r := DecodeRune(b); EncodeRune(r.c) <= b && r.width == |EncodeRune(r.c)|
  {
    var r := DecodeRune(b);
    if r.width == 2 {
      TwoByteForm(b[0], b[1]);
    } else if r.width == 3 {
      ThreeByteForm(b[0], b[1], b[2]);
    } else if r.width == 4 {
      FourByteForm(b[0], b[1], b[2], b[3]);
    }
  }

  lemma FrontDecodes(b: Bytes, c: char)
    requires EncodeRune(c) <= b
    ensures b != [] && DecodeRune(b) == Rune(c, |EncodeRune(c)|)
  {
    RuneRoundTrip(c, b[|EncodeRune(c)|..]);
    assert b == EncodeRune(c) + b[|EncodeRune(c)|..];
  }

  /** A rune is read exactly where its encoding stands; where no rune's does, one byte is taken for U+FFFD. */
  lemma DecodeRuneExactly(b: Bytes)
    requires b != []
    ensures if exists c :: EncodeRune(c) <= b
            then exists c :: EncodeRune(c) <= b && DecodeRune(b) == Rune(c, |EncodeRune(c)|)
            else DecodeRune(b) == Rune('\U{FFFD}', 1)
  {
    if c :| EncodeRune(c) <= b {
      FrontDecodes(b, c);
    } else {
      if DecodeRune(b) != Rune(REPLACEMENT, 1) {
        WellFormedFront(b);
      }
    }
  }
}
