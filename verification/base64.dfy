/** IPC handles as text: the standard padded base64 of section 4 of RFC 4648, as Go writes it
    (internal/gpu/gds_linux.go:418-436), and the accumulator loop that reads it back
    (platform/k3s/pytorch/native/oci2gds_torch_native.cpp:262-289). Text is a byte sequence. */
module Base64 {
  import opened Prelude

  const PAD: byte := 61

  // ---- Encoding -------------------------------------------------------------------------------

  /** The alphabet: A-Z, a-z, 0-9, + and /. */
  function Char(n: Sextet): byte {
    if n < 26 then (65 + n) as byte
    else if n < 52 then (97 + n - 26) as byte
    else if n < 62 then (48 + n - 52) as byte
    else if n == 62 then 43
    else 47
  }

  type Sextet = n: int | 0 <= n < 64

  // The four digits of a group of three bytes.
  function D0(b0: byte): Sextet { b0 as int / 4 }

  function D1(b0: byte, b1: byte): (d: Sextet)
    ensures d / 16 == b0 as int % 4 && d % 16 == b1 as int / 16
  {
    b0 as int % 4 * 16 + b1 as int / 16
  }

  function D2(b1: byte, b2: byte): (d: Sextet)
    ensures d / 4 == b1 as int % 16 && d % 4 == b2 as int / 64
  {
    b1 as int % 16 * 4 + b2 as int / 64
  }

  function D3(b2: byte): Sextet { b2 as int % 64 }

  function Encode(bs: seq<byte>): seq<byte> {
    if |bs| == 0 then []
    else if |bs| == 1 then [Char(D0(bs[0]))] + ([Char(D1(bs[0], 0))] + [PAD, PAD])
    else if |bs| == 2 then [Char(D0(bs[0]))] + ([Char(D1(bs[0], bs[1]))] + ([Char(D2(bs[1], 0))] + [PAD]))
    else
      [Char(D0(bs[0]))]
      + ([Char(D1(bs[0], bs[1]))] + ([Char(D2(bs[1], bs[2]))] + ([Char(D3(bs[2]))] + Encode(bs[3..]))))
  }

  // ---- Decoding -------------------------------------------------------------------------------

  /** kDec: the value of a character, -1 for one that is skipped. The underscore is read as the
      slash is. */
  function DigitValue(c: byte): (d: int)
    ensures -1 <= d < 64
  {
    if 65 <= c <= 90 then c as int - 65
    else if 97 <= c <= 122 then c as int - 97 + 26
    else if 48 <= c <= 57 then c as int - 48 + 52
    else if c == 43 then 62
    else if c == 47 || c == 95 then 63
    else if c == 61 then 0
    else -1
  }

  const TWO_31 := 0x8000_0000

  /** A 32-bit two's-complement int. */
  function Wrap32(x: int): (r: int)
    ensures -TWO_31 <= r < TWO_31
  {
    (x + TWO_31) % (2 * TWO_31) - TWO_31
  }

  function Pow2(n: nat): (p: nat)
    ensures p > 0
  {
    if n == 0 then 1 else 2 * Pow2(n - 1)
  }

  /** (val >> valb) & 0xFF, the shift being arithmetic. */
  function Extract(val: int, valb: nat): byte {
    (val / Pow2(valb) % 256) as byte
  }

  /** What the loop appends from one of its states on. */
  function Decode(input: seq<byte>, val: int, valb: int): seq<byte> {
    if input == [] || input[0] == PAD then []
    else
      var d := DigitValue(input[0]);
      if d < 0 then Decode(input[1..], val, valb)
      else
        var val' := Wrap32(val * 64 + d);
        if valb + 6 >= 0 then [Extract(val', valb + 6)] + Decode(input[1..], val', valb + 6 - 8)
        else Decode(input[1..], val', valb + 6)
  }

  /** decode_b64. */
  method DecodeB64(input: seq<byte>) returns (out: seq<byte>)
    ensures out == Decode(input, 0, -8)
  {
    out := [];
    var val, valb := 0, -8;
    for i := 0 to |input|
      invariant -8 <= valb < 0
      invariant out + Decode(input[i..], val, valb) == Decode(input, 0, -8)
    {
      var rest := input[i..];
      assert rest[1..] == input[i + 1..];
      var c := input[i];
      if c == PAD {
        assert out + [] == out;
        return;
      }
      var d := DigitValue(c);
      if d < 0 { continue; }
      val := Wrap32(val * 64 + d);
      valb := valb + 6;
      if valb >= 0 {
        assert out + ([Extract(val, valb)] + Decode(input[i + 1..], val, valb - 8))
            == out + [Extract(val, valb)] + Decode(input[i + 1..], val, valb - 8);
        out := out + [Extract(val, valb)];
        valb := valb - 8;
      }
    }
    assert input[|input|..] == [] && out + [] == out;
  }

  // ---- What is not of the alphabet ------------------------------------------------------------

  predicate AlikeFrom(a: seq<byte>, b: seq<byte>, val: int, valb: int) {
    Decode(a, val, valb) == Decode(b, val, valb)
  }

  /** The texts decode to the same, whatever came before. */
  ghost predicate Alike(a: seq<byte>, b: seq<byte>) {
    forall val: int, valb: int :: AlikeFrom(a, b, val, valb)
  }

  lemma {:induction false} AlikeBehind(s: seq<byte>, a: seq<byte>, b: seq<byte>, val: int, valb: int)
    requires Alike(a, b)
    ensures Decode(s + a, val, valb) == Decode(s + b, val, valb)
    decreases |s|
  {
    if s == [] {
      assert s + a == a && s + b == b && AlikeFrom(a, b, val, valb);
    } else if s[0] != PAD {
      assert (s + a)[1..] == s[1..] + a && (s + b)[1..] == s[1..] + b;
      var d := DigitValue(s[0]);
      AlikeBehind(s[1..], a, b, val, valb);
      AlikeBehind(s[1..], a, b, Wrap32(val * 64 + d), valb + 6);
      AlikeBehind(s[1..], a, b, Wrap32(val * 64 + d), valb + 6 - 8);
    }
  }

  /** A letter, a digit, plus, slash or underscore. */
  predicate OfAlphabet(c: byte) {
    65 <= c <= 90 || 97 <= c <= 122 || 48 <= c <= 57 || c == 43 || c == 47 || c == 95
  }

  /** Wherever they stand: a character of no meaning is skipped, the equals sign ends the text, and
      an underscore reads as a slash. */
  lemma OtherCharacters(s: seq<byte>, c: byte, rest: seq<byte>, val: int, valb: int)
    ensures !OfAlphabet(c) && c != 61 ==> Decode(s + ([c] + rest), val, valb) == Decode(s + rest, val, valb)
    ensures Decode(s + ([61] + rest), val, valb) == Decode(s, val, valb)
    ensures Decode(s + ([95] + rest), val, valb) == Decode(s + ([47] + rest), val, valb)
  {
    assert ([c] + rest)[1..] == rest && ([95] + rest)[1..] == rest && ([47] + rest)[1..] == rest;
    if !OfAlphabet(c) && c != 61 {
      forall v: int, b: int ensures AlikeFrom([c] + rest, rest, v, b) {}
      AlikeBehind(s, [c] + rest, rest, val, valb);
    }
    forall v: int, b: int ensures AlikeFrom([61] + rest, [], v, b) {}
    AlikeBehind(s, [61] + rest, [], val, valb);
    assert s + [] == s;
    forall v: int, b: int ensures AlikeFrom([95] + rest, [47] + rest, v, b) {}
    AlikeBehind(s, [95] + rest, [47] + rest, val, valb);
  }

  // ---- Decoding undoes encoding ---------------------------------------------------------------

  lemma CharReadBack(n: int)
    requires 0 <= n < 64
    ensures DigitValue(Char(n)) == n && Char(n) != PAD
  {
  }

  /** One character of the alphabet takes one step of the loop. */
  lemma DecodeChar(n: int, rest: seq<byte>, val: int, valb: int)
    requires 0 <= n < 64
    ensures var val' := Wrap32(val * 64 + n);
      Decode([Char(n)] + rest, val, valb) ==
        if valb + 6 >= 0 then [Extract(val', valb + 6)] + Decode(rest, val', valb - 2) else Decode(rest, val', valb + 6)
  {
    CharReadBack(n);
    var input := [Char(n)] + rest;
    assert input[0] == Char(n) && input[1..] == rest;
  }

  lemma Remainder(q: int, r: int)
    requires 0 <= r < 4096
    ensures (q * 4096 + r) % 4096 == r
  {
  }

  lemma WrapIsShift(x: int) returns (k: int)
    ensures Wrap32(x) == x + k * 4096
  {
    k := -((x + TWO_31) / (2 * TWO_31)) * 0x10_0000;
  }

  /** Wrapping does not touch the low bits that are read out. */
  lemma WrapKeepsLowBits(x: int)
    ensures Wrap32(x) % 4096 == x % 4096
  {
    var k := WrapIsShift(x);
    Remainder(x / 4096 + k, x % 4096);
    assert (x / 4096 + k) * 4096 + x % 4096 == Wrap32(x);
  }

  /** The low bits are the last two digits, whatever was accumulated before. */
  lemma LowBits(val: int, d: int, e: int)
    requires 0 <= d < 64 && 0 <= e < 64
    ensures Wrap32(Wrap32(val * 64 + d) * 64 + e) % 4096 == d * 64 + e
  {
    var k := WrapIsShift(val * 64 + d);
    var x := Wrap32(val * 64 + d);
    WrapKeepsLowBits(x * 64 + e);
    assert x * 64 + e == (val + k * 64) * 4096 + (d * 64 + e);
    Remainder(val + k * 64, d * 64 + e);
  }

  lemma Div4(m: int, r: int)
    requires 0 <= r < 4
    ensures (m * 4 + r) / 4 == m
  {
  }

  lemma Div16(m: int, r: int)
    requires 0 <= r < 16
    ensures (m * 16 + r) / 16 == m
  {
  }

  lemma Mod256(m: int, r: int)
    requires 0 <= r < 256
    ensures (m * 256 + r) % 256 == r
  {
  }

  lemma Mod1024(m: int, r: int)
    requires 0 <= r < 1024
    ensures (m * 1024 + r) % 1024 == r
  {
  }

  lemma ShiftFour(q: int, low: int)
    requires 0 <= low < 4096
    ensures (q * 4096 + low) / 16 % 256 == low / 16
  {
    var a := low / 16;
    assert q * 4096 + low == (q * 256 + a) * 16 + low % 16;
    Div16(q * 256 + a, low % 16);
    Mod256(q, a);
  }

  lemma ShiftTwo(q: int, low: int)
    requires 0 <= low < 4096
    ensures (q * 4096 + low) / 4 % 256 == low % 1024 / 4
  {
    var h := low / 1024;
    var t := low - h * 1024;
    Mod1024(h, t);
    var b := t / 4;
    assert q * 4096 + low == ((q * 4 + h) * 256 + b) * 4 + t % 4;
    Div4((q * 4 + h) * 256 + b, t % 4);
    Mod256(q * 4 + h, b);
  }

  lemma ShiftNone(q: int, low: int)
    requires 0 <= low < 4096
    ensures (q * 4096 + low) % 256 == low % 256
  {
    var h := low / 256;
    Mod256(q * 16 + h, low % 256);
    assert q * 4096 + low == (q * 16 + h) * 256 + low % 256;
  }

  lemma ExtractLow(val: int, low: int)
    requires val % 4096 == low
    ensures Extract(val, 4) as int == low / 16
    ensures Extract(val, 2) as int == low % 1024 / 4
    ensures Extract(val, 0) as int == low % 256
  {
    var q := val / 4096;
    assert Pow2(4) == 16 && Pow2(2) == 4 && Pow2(0) == 1;
    assert val == q * 4096 + low;
    ShiftFour(q, low);
    ShiftTwo(q, low);
    ShiftNone(q, low);
  }

  /** The loop's accumulator after one more digit. */
  function Next(val: int, d: int): int {
    Wrap32(val * 64 + d)
  }

  /** Two digits that hold a byte give it. */
  lemma FirstByte(b0: byte, d1: Sextet, rest: seq<byte>, val: int)
    requires d1 / 16 == b0 as int % 4
    ensures Decode([Char(D0(b0))] + ([Char(d1)] + rest), val, -8)
         == [b0] + Decode(rest, Next(Next(val, D0(b0)), d1), -4)
  {
    var d0 := D0(b0);
    DecodeChar(d0, [Char(d1)] + rest, val, -8);
    DecodeChar(d1, rest, Next(val, d0), -2);
    LowBits(val, d0, d1);
    ExtractLow(Next(Next(val, d0), d1), d0 * 64 + d1);
    FirstBits(b0 as int, d1);
  }

  lemma FirstBits(b0: int, d1: int)
    requires 0 <= b0 < 256 && 0 <= d1 < 64 && d1 / 16 == b0 % 4
    ensures (b0 / 4 * 64 + d1) / 16 == b0
  {
    assert b0 / 4 * 64 + d1 == b0 * 16 + d1 % 16;
    Div16(b0, d1 % 16);
  }

  lemma SecondBits(b1: int, d1: int, d2: int)
    requires 0 <= b1 < 256 && 0 <= d1 < 64 && 0 <= d2 < 64 && d1 % 16 == b1 / 16 && d2 / 4 == b1 % 16
    ensures (d1 * 64 + d2) % 1024 / 4 == b1
  {
    var q := d1 / 16;
    var low := b1 / 16 * 64 + d2;
    assert d1 == q * 16 + b1 / 16;
    assert d1 * 64 + d2 == q * 1024 + low;
    Mod1024(q, low);
    Div4(b1 / 16 * 16 + d2 / 4, d2 % 4);
    assert low == (b1 / 16 * 16 + d2 / 4) * 4 + d2 % 4;
  }

  lemma ThirdBits(b2: int, d2: int)
    requires 0 <= b2 < 256 && 0 <= d2 < 64 && d2 % 4 == b2 / 64
    ensures (d2 * 64 + b2 % 64) % 256 == b2
  {
    assert d2 == d2 / 4 * 4 + b2 / 64;
    assert d2 * 64 + b2 % 64 == d2 / 4 * 256 + b2;
    Mod256(d2 / 4, b2);
  }

  lemma SecondByte(b1: byte, d1: Sextet, d2: Sextet, rest: seq<byte>, val: int)
    requires d1 % 16 == b1 as int / 16 && d2 / 4 == b1 as int % 16
    ensures Decode([Char(d2)] + rest, Next(val, d1), -4) == [b1] + Decode(rest, Next(Next(val, d1), d2), -6)
  {
    DecodeChar(d2, rest, Next(val, d1), -4);
    LowBits(val, d1, d2);
    ExtractLow(Next(Next(val, d1), d2), d1 * 64 + d2);
    SecondBits(b1 as int, d1, d2);
  }

  lemma ThirdByte(b2: byte, d2: Sextet, rest: seq<byte>, val: int)
    requires d2 % 4 == b2 as int / 64
    ensures Decode([Char(D3(b2))] + rest, Next(val, d2), -6) == [b2] + Decode(rest, Next(Next(val, d2), D3(b2)), -8)
  {
    var d3 := D3(b2);
    DecodeChar(d3, rest, Next(val, d2), -6);
    LowBits(val, d2, d3);
    ExtractLow(Next(Next(val, d2), d3), d2 * 64 + d3);
    ThirdBits(b2 as int, d2);
  }

  /** Four characters give three bytes, and the loop is again between groups. */
  lemma ReadGroup(b0: byte, b1: byte, b2: byte, more: seq<byte>, val: int) returns (val': int)
    ensures Decode([Char(D0(b0))] + ([Char(D1(b0, b1))] + ([Char(D2(b1, b2))] + ([Char(D3(b2))] + more))), val, -8)
         == [b0] + ([b1] + ([b2] + Decode(more, val', -8)))
  {
    var t3 := [Char(D3(b2))] + more;
    var v1 := Next(Next(val, D0(b0)), D1(b0, b1));
    FirstByte(b0, D1(b0, b1), [Char(D2(b1, b2))] + t3, val);
    SecondByte(b1, D1(b0, b1), D2(b1, b2), t3, Next(val, D0(b0)));
    ThirdByte(b2, D2(b1, b2), more, v1);
    val' := Next(Next(v1, D2(b1, b2)), D3(b2));
  }

  lemma PadEnds(rest: seq<byte>, val: int, valb: int)
    ensures Decode([PAD] + rest, val, valb) == []
  {
  }

  lemma ReadOne(b0: byte, val: int)
    ensures Decode(Encode([b0]), val, -8) == [b0]
  {
    FirstByte(b0, D1(b0, 0), [PAD, PAD], val);
    PadEnds([PAD], Next(Next(val, D0(b0)), D1(b0, 0)), -4);
    assert [PAD, PAD] == [PAD] + [PAD];
  }

  lemma ReadTwo(b0: byte, b1: byte, val: int)
    ensures Decode(Encode([b0, b1]), val, -8) == [b0, b1]
  {
    var v1 := Next(val, D0(b0));
    FirstByte(b0, D1(b0, b1), [Char(D2(b1, 0))] + [PAD], val);
    SecondByte(b1, D1(b0, b1), D2(b1, 0), [PAD], v1);
    PadEnds([], Next(Next(v1, D1(b0, b1)), D2(b1, 0)), -6);
    assert [PAD] == [PAD] + [];
  }

  /** For every byte sequence, and whatever the accumulator holds between two groups, reading
      the standard text back gives the bytes. */
  lemma {:induction false} DecodeUndoesEncode(bs: seq<byte>, val: int)
    ensures Decode(Encode(bs), val, -8) == bs
  {
    if |bs| == 1 {
      ReadOne(bs[0], val);
      assert bs == [bs[0]];
    } else if |bs| == 2 {
      ReadTwo(bs[0], bs[1], val);
      assert bs == [bs[0], bs[1]];
    } else if |bs| > 2 {
      var val' := ReadGroup(bs[0], bs[1], bs[2], Encode(bs[3..]), val);
      DecodeUndoesEncode(bs[3..], val');
      assert bs == [bs[0]] + ([bs[1]] + ([bs[2]] + bs[3..]));
    }
  }

  /** Export then import: the native client reads back exactly the handle bytes that the loader
      exported. */
  method ReadHandle(handle: seq<byte>) returns (read: seq<byte>)
    ensures read == handle
  {
    DecodeUndoesEncode(handle, 0);
    read := DecodeB64(Encode(handle));
  }
}
