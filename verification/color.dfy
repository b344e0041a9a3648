/** A device colour decoded from a named-palette index or from packed RGB
    and CMYK integers (pic/color.go). */
module Colors {
  import opened Prelude
  import opened Decimal
  import opened Values

  /** RGB channels 0-255 and CMYK channels holding percentages 0-100. */
  datatype Color = Color(r: byte, g: byte, b: byte, c: byte, m: byte, y: byte, k: byte)

  /** The zero value of the Go struct. */
  const ZeroColor: Color := Color(0, 0, 0, 0, 0, 0, 0)

  /** The package default: black in subtractive terms. */
  const DefaultColor: Color := Color(0, 0, 0, 0, 0, 0, 100)

  /** `Color.parseAttribute`: the value as a base-10 int32, or 0 when the
      text is not one (including out-of-range text). */
  function ParseAttribute(v: Value): (n: int)
    ensures IsInt32(n)
    ensures ParseInt32(v).None? ==> n == 0
    ensures ParseInt32(v).Some? ==> n == ParseInt32(v).value
  {
    match ParseInt32(v)
    case Some(i) => i
    case None => 0
  }

  /** Reading back the decimal text of an int32 gives the number. */
  lemma AttributeRoundTrip(n: int)
    requires IsInt32(n)
    ensures ParseAttribute(DecimalText(n)) == n
  {
    Int32RoundTrip(n);
  }

  /** Text that is not a signed decimal number reads as 0. */
  lemma AttributeMalformed(v: Value)
    requires !IsDecimalText(v)
    ensures ParseAttribute(v) == 0
  {
  }

  /** Both palettes hold 16 entries, RGB triples and CMYK quadruples of
      percentages. */
  lemma Palettes()
    ensures |NamedRgbColors| == 16 && |NamedCmykColors| == 16
    ensures forall i :: 0 <= i < 16 ==> |NamedRgbColors[i]| == 3
    ensures forall i :: 0 <= i < 16 ==>
      |NamedCmykColors[i]| == 4 && forall j :: 0 <= j < 4 ==> NamedCmykColors[i][j] <= 100
  {
  }

  /** The default colour is palette entry 0, black: the colour of the named
      index "0". */
  lemma DefaultIsBlack()
    ensures NamedColor("0") == DefaultColor
  {
    assert DecimalText(0) == "0";
    AttributeRoundTrip(0);
  }

  /** The named-colour index as `parseNamedColor` computes it: an index
      above 15 becomes 0, but a negative one passes through. */
  function NamedIndexAsWritten(index: int): int
  {
    if index > 15 then 0 else index
  }

  /** The index "-1" survives the range check and would index the palette
      at -1, which is outside it. */
  lemma NegativeIndexEscapesPalette()
    ensures var i := NamedIndexAsWritten(ParseAttribute("-1"));
      i == -1 && !(0 <= i < |NamedRgbColors|)
  {
    assert ParseDecimal("-1") == Some(-1) by {
      assert "-1"[1..] == "1";
      assert DigitsValue("1") == 1 by {
        assert "1"[..0] == "";
      }
    }
  }

  /** The named-colour index with every out-of-palette value mapped to
      entry 0, negative ones included. */
  function NamedIndex(index: int): (i: nat)
    ensures i < |NamedRgbColors| && i < |NamedCmykColors|
    ensures 0 <= index <= 15 ==> i == index
    ensures !(0 <= index <= 15) ==> i == 0
    ensures 0 <= NamedIndexAsWritten(index) ==> i == NamedIndexAsWritten(index)
  {
    if index < 0 || index > 15 then 0 else index
  }

  /** The 16 named colours as stored RGB triples: Black, Blue, Brown, Green,
      Magenta, Red, Cyan, Yellow, Dark Blue, Dark Green, Teal, Gray,
      Mustard, Orange, Purple, White. */
  const NamedRgbColors: seq<seq<byte>> := [
    [0, 0, 0], [0, 0, 255], [144, 48, 0], [0, 255, 0],
    [255, 0, 255], [255, 0, 0], [0, 255, 255], [255, 255, 0],
    [0, 0, 170], [0, 146, 0], [0, 146, 170], [131, 131, 131],
    [196, 160, 32], [255, 128, 0], [170, 0, 170], [255, 255, 255]
  ]

  /** The same 16 colours as CMYK percentages. */
  const NamedCmykColors: seq<seq<byte>> := [
    [0, 0, 0, 100], [100, 100, 0, 0], [0, 38, 57, 43], [100, 0, 100, 0],
    [0, 100, 0, 0], [0, 100, 100, 0], [100, 0, 0, 0], [0, 0, 100, 0],
    [67, 67, 0, 33], [58, 0, 58, 42], [67, 9, 0, 33], [0, 0, 0, 48],
    [0, 14, 64, 23], [0, 49, 100, 0], [0, 67, 0, 33], [0, 0, 0, 0]
  ]

  /** `Color.namedRgb`: assigns the stored bytes to R, B, G in that order,
      so G and B come out swapped relative to the stored triple. */
  function NamedRgb(index: nat): (rgb: (byte, byte, byte))
    requires index < 16
    ensures |NamedRgbColors[index]| == 3
    ensures rgb.0 == NamedRgbColors[index][0]
    ensures rgb.1 == NamedRgbColors[index][2] && rgb.2 == NamedRgbColors[index][1]
  {
    var e := NamedRgbColors[index];
    var (r, b, g) := (e[0], e[1], e[2]);
    (r, g, b)
  }

  /** `Color.namedCmyk`: the stored percentages in order. */
  function NamedCmyk(index: nat): (cmyk: (byte, byte, byte, byte))
    requires index < 16
    ensures |NamedCmykColors[index]| == 4
    ensures cmyk == (NamedCmykColors[index][0], NamedCmykColors[index][1],
                     NamedCmykColors[index][2], NamedCmykColors[index][3])
  {
    var e := NamedCmykColors[index];
    (e[0], e[1], e[2], e[3])
  }

  /** The colour of a named index value: both palettes at the same entry. */
  function NamedColor(v: Value): (c: Color)
    ensures var index := ParseAttribute(v);
      0 <= index <= 15 ==>
        && c.r == NamedRgbColors[index][0] && c.g == NamedRgbColors[index][2]
        && c.b == NamedRgbColors[index][1]
        && [c.c, c.m, c.y, c.k] == NamedCmykColors[index]
    ensures !(0 <= ParseAttribute(v) <= 15) ==> c == DefaultColor
  {
    var i := NamedIndex(ParseAttribute(v));
    var (r, g, b) := NamedRgb(i);
    var (cc, m, y, k) := NamedCmyk(i);
    Color(r, g, b, cc, m, y, k)
  }

  /** `Color.parseNamedColor`: overwrites all seven channels of the receiver. */
  method ParseNamedColor(c: Color, v: Value) returns (c': Color)
    ensures c' == NamedColor(v)
  {
    var index := ParseAttribute(v);
    var i := NamedIndex(index);
    c' := c;
    var (r, g, b) := NamedRgb(i);
    c' := c'.(r := r, g := g, b := b);
    var (cc, m, y, k) := NamedCmyk(i);
    c' := c'.(c := cc, m := m, y := y, k := k);
  }

  /** `uint8((x >> (8 * n)) & 0xff)` on an int32: byte `n` of the two's
      complement representation, counting from the least significant. */
  function ByteAt(x: int, n: nat): (v: byte)
    requires n < 4
    ensures v == ((x % 0x1_0000_0000) / [0x1, 0x100, 0x1_0000, 0x100_0000][n]) % 0x100
  {
    ByteOfUnsigned(x, n);
    (x / [0x1, 0x100, 0x1_0000, 0x100_0000][n]) % 0x100
  }

  /** Shifting right and masking sees only the low 32 bits: the bits above
      them move past bit 7 of every byte. */
  lemma ByteOfUnsigned(x: int, n: nat)
    requires n < 4
    ensures var d := [0x1, 0x100, 0x1_0000, 0x100_0000][n];
      (x / d) % 0x100 == ((x % 0x1_0000_0000) / d) % 0x100
  {
    var q, u := x / 0x1_0000_0000, x % 0x1_0000_0000;
    assert x == q * 0x1_0000_0000 + u;
    if n == 0 {
      assert x == (q * 0x100_0000) * 0x100 + u;
    } else if n == 1 {
      ShiftOut(x, 0x100, q * 0x1_0000, u);
    } else if n == 2 {
      ShiftOut(x, 0x1_0000, q * 0x100, u);
    } else {
      ShiftOut(x, 0x100_0000, q, u);
    }
  }

  /** `x = (256 k) d + u` with `u` below 2^32: `x / d` and `u / d` agree in
      their low byte. */
  lemma ShiftOut(x: int, d: int, k: int, u: int)
    requires d == 0x100 || d == 0x1_0000 || d == 0x100_0000
    requires 0 <= u < 0x1_0000_0000 && x == k * 0x100 * d + u
    ensures (x / d) % 0x100 == (u / d) % 0x100
  {
    var a, b := u / d, u % d;
    assert u == a * d + b && 0 <= b < d;
    assert x == (k * 0x100 + a) * d + b;
    DivExact(x, d, k * 0x100 + a, b);
    assert x / d == k * 0x100 + a;
  }

  lemma DivExact(x: int, d: int, q: int, r: int)
    requires d == 0x100 || d == 0x1_0000 || d == 0x100_0000
    requires 0 <= r < d && x == q * d + r
    ensures x / d == q
  {
    if d == 0x100 {
      DivBy256(x, q, r);
    } else if d == 0x1_0000 {
      DivBy65536(x, q, r);
    } else {
      DivBy2p24(x, q, r);
    }
  }

  /** The colour of a packed pair: R/G/B are bytes 2/1/0 of `rgb` and
      C/M/Y/K are bytes 3/2/1/0 of `cmyk`. */
  function PackedColor(rgb: int, cmyk: int): (c: Color)
    ensures rgb % 0x100_0000 == c.r * 0x1_0000 + c.g * 0x100 + c.b
    ensures cmyk % 0x1_0000_0000 == c.c * 0x100_0000 + c.m * 0x1_0000 + c.y * 0x100 + c.k
  {
    Repack(rgb);
    Repack(cmyk);
    Color(ByteAt(rgb, 2), ByteAt(rgb, 1), ByteAt(rgb, 0),
          ByteAt(cmyk, 3), ByteAt(cmyk, 2), ByteAt(cmyk, 1), ByteAt(cmyk, 0))
  }

  /** The four bytes `ByteAt` picks put back together give the low 32 bits,
      and the low three give the low 24 bits. */
  lemma Repack(x: int)
    ensures x % 0x1_0000_0000
      == ByteAt(x, 3) * 0x100_0000 + ByteAt(x, 2) * 0x1_0000 + ByteAt(x, 1) * 0x100 + ByteAt(x, 0)
    ensures x % 0x100_0000 == ByteAt(x, 2) * 0x1_0000 + ByteAt(x, 1) * 0x100 + ByteAt(x, 0)
  {
    var u := x % 0x1_0000_0000;
    var b0, q0 := u % 0x100, u / 0x100;
    var b1, q1 := q0 % 0x100, q0 / 0x100;
    var b2, q2 := q1 % 0x100, q1 / 0x100;
    assert u == q0 * 0x100 + b0 && q0 == q1 * 0x100 + b1 && q1 == q2 * 0x100 + b2;
    var low := b2 * 0x1_0000 + b1 * 0x100 + b0;
    assert u == q1 * 0x1_0000 + b1 * 0x100 + b0;
    DivBy65536(u, q1, b1 * 0x100 + b0);
    assert u == q2 * 0x100_0000 + low;
    DivBy2p24(u, q2, low);
    assert q2 < 0x100;
    var hi := x / 0x1_0000_0000;
    assert x == (hi * 0x100 + q2) * 0x100_0000 + low;
    ModBy2p24(x, hi * 0x100 + q2, low);
  }

  lemma ModBy2p24(x: int, q: int, r: int)
    requires 0 <= r < 0x100_0000 && x == q * 0x100_0000 + r
    ensures x % 0x100_0000 == r
  {
  }

  /** What `Color.parse` decodes: one element is a named index, four are
      (ignored, ignored, packed RGB, packed CMYK); any other arity fails. */
  function ParseColor(v: seq<Value>): (r: Option<Color>)
    ensures r.Some? <==> |v| == 1 || |v| == 4
  {
    if |v| == 1 then Some(NamedColor(v[0]))
    else if |v| == 4 then Some(PackedColor(ParseAttribute(v[2]), ParseAttribute(v[3])))
    else None
  }

  /** `Color.parse` on a receiver holding `c`: sets the channels field by
      field on success and leaves the receiver as it was on failure. */
  method Parse(c: Color, v: seq<Value>) returns (c': Color, ok: bool)
    ensures ok <==> ParseColor(v).Some?
    ensures ok ==> c' == ParseColor(v).value
    ensures !ok ==> c' == c
  {
    if |v| == 1 {
      c' := ParseNamedColor(c, v[0]);
      return c', true;
    }
    if |v| == 4 {
      var rgb := ParseAttribute(v[2]);
      var cmyk := ParseAttribute(v[3]);
      c' := c;
      c' := c'.(r := ByteAt(rgb, 2));
      c' := c'.(g := ByteAt(rgb, 1));
      c' := c'.(b := ByteAt(rgb, 0));
      c' := c'.(c := ByteAt(cmyk, 3));
      c' := c'.(m := ByteAt(cmyk, 2));
      c' := c'.(y := ByteAt(cmyk, 1));
      c' := c'.(k := ByteAt(cmyk, 0));
      return c', true;
    }
    return c, false;
  }

  /** The int32 whose two's complement bits are the unsigned 32-bit `u`. */
  function Signed32(u: nat): (n: int)
    requires u < 0x1_0000_0000
    ensures IsInt32(n)
    ensures n == u || n == u - 0x1_0000_0000
  {
    if u > MaxInt32 then u - 0x1_0000_0000 else u
  }

  lemma DivBy256(x: int, q: int, r: byte)
    requires x == q * 0x100 + r
    ensures x / 0x100 == q && x % 0x100 == r
  {
  }

  lemma DivBy65536(x: int, q: int, r: int)
    requires 0 <= r < 0x1_0000 && x == q * 0x1_0000 + r
    ensures x / 0x1_0000 == q
  {
  }

  lemma DivBy2p24(x: int, q: int, r: int)
    requires 0 <= r < 0x100_0000 && x == q * 0x100_0000 + r
    ensures x / 0x100_0000 == q
  {
  }

  /** The four bytes of a packed integer, whether it is read as unsigned or
      as the two's complement int32 with the same bits. */
  lemma PackedBytes(x: int, b3: byte, b2: byte, b1: byte, b0: byte)
    requires x == b3 * 0x100_0000 + b2 * 0x1_0000 + b1 * 0x100 + b0
          || x == b3 * 0x100_0000 + b2 * 0x1_0000 + b1 * 0x100 + b0 - 0x1_0000_0000
    ensures ByteAt(x, 3) == b3 && ByteAt(x, 2) == b2 && ByteAt(x, 1) == b1 && ByteAt(x, 0) == b0
  {
    var w := if x == b3 * 0x100_0000 + b2 * 0x1_0000 + b1 * 0x100 + b0 then 0 else 1;
    var q2 := b3 - 0x100 * w;
    var q1 := q2 * 0x100 + b2;
    var q0 := q1 * 0x100 + b1;
    assert x == q0 * 0x100 + b0;
    DivBy256(x, q0, b0);
    DivBy256(q0, q1, b1);
    DivBy65536(x, q1, b1 * 0x100 + b0);
    DivBy256(q1, q2, b2);
    DivBy2p24(x, q2, b2 * 0x1_0000 + b1 * 0x100 + b0);
    DivBy256(q2, -w, b3);
  }

  /** Decoding the decimal texts of packed RGB and CMYK integers gives back
      every channel, whatever the first two elements hold. */
  lemma PackedRoundTrip(master: Value, named: Value, r: byte, g: byte, b: byte,
                        c: byte, m: byte, y: byte, k: byte)
    ensures var rgb := r * 0x1_0000 + g * 0x100 + b;
      var cmyk := Signed32(c * 0x100_0000 + m * 0x1_0000 + y * 0x100 + k);
      ParseColor([master, named, DecimalText(rgb), DecimalText(cmyk)])
        == Some(Color(r, g, b, c, m, y, k))
  {
    var rgb := r * 0x1_0000 + g * 0x100 + b;
    var cmyk := Signed32(c * 0x100_0000 + m * 0x1_0000 + y * 0x100 + k);
    AttributeRoundTrip(rgb);
    AttributeRoundTrip(cmyk);
    PackedBytes(rgb, 0, r, g, b);
    PackedBytes(cmyk, c, m, y, k);
  }

  /** Every index outside 0-15, and every malformed index, gives entry 0,
      which is exactly the default colour. */
  lemma OutOfRangeNamedIsDefault(v: Value)
    requires !(0 <= ParseAttribute(v) <= 15)
    ensures NamedColor(v) == DefaultColor
  {
  }

  /** Named index 15 is white in both palettes. */
  lemma NamedWhite()
    ensures NamedColor("15") == Color(255, 255, 255, 0, 0, 0, 0)
  {
    assert ParseAttribute("15") == 15 by {
      assert DecimalText(15) == "15";
      AttributeRoundTrip(15);
    }
  }

  /** Entry 1 is blue in the CMYK palette (C = M = 100) but, because of the
      G/B swap, green in RGB. */
  lemma NamedBlueRendersGreen()
    ensures var c := NamedColor("1");
      c.r == 0 && c.g == 255 && c.b == 0 && c.c == 100 && c.m == 100 && c.y == 0
  {
    assert ParseAttribute("1") == 1 by {
      assert DecimalText(1) == "1";
      AttributeRoundTrip(1);
    }
  }

  /** The decimal texts of the packed test colour. */
  lemma PackedTexts()
    ensures DecimalText(16711935) == "16711935" && DecimalText(6553600) == "6553600"
  {
    RgbText();
    CmykText();
  }

  /** `%d` of 0xFF00FF, one digit at a time. */
  lemma RgbText()
    ensures NatText(16711935) == "16711935"
  {
    NatTextAppend(1, 6);
    assert NatText(16) == "16";
    NatTextAppend(16, 7);
    assert NatText(167) == "167";
    NatTextAppend(167, 1);
    assert NatText(1671) == "1671";
    NatTextAppend(1671, 1);
    assert NatText(16711) == "16711";
    NatTextAppend(16711, 9);
    assert NatText(167119) == "167119";
    NatTextAppend(167119, 3);
    assert NatText(1671193) == "1671193";
    NatTextAppend(1671193, 5);
  }

  /** `%d` of 0x640000, one digit at a time. */
  lemma CmykText()
    ensures NatText(6553600) == "6553600"
  {
    NatTextAppend(6, 5);
    assert NatText(65) == "65";
    NatTextAppend(65, 5);
    assert NatText(655) == "655";
    NatTextAppend(655, 3);
    assert NatText(6553) == "6553";
    NatTextAppend(6553, 6);
    assert NatText(65536) == "65536";
    NatTextAppend(65536, 0);
    assert NatText(655360) == "655360";
    NatTextAppend(655360, 0);
  }

  /** The packed test colour: 16711935 is 0xFF00FF and 6553600 is 0x640000. */
  lemma PackedExample()
    ensures ParseColor(["0", "4", "16711935", "6553600"]) == Some(Color(255, 0, 255, 0, 100, 0, 0))
  {
    PackedTexts();
    PackedRoundTrip("0", "4", 255, 0, 255, 0, 100, 0, 0);
  }
}
