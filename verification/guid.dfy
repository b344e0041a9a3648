/** A 16-byte identifier written as 32 hexadecimal digits (pic/guid.go). */
module Guids {
  import opened Prelude

  type Guid = s: seq<byte> | |s| == 16
    witness [0, 0, 0, 0, 0, 0, 0, 0, 0, 0, 0, 0, 0, 0, 0, 0]

  const ZeroGuid: Guid := [0, 0, 0, 0, 0, 0, 0, 0, 0, 0, 0, 0, 0, 0, 0, 0]

  predicate IsHexChar(c: char) {
    '0' <= c <= '9' || 'A' <= c <= 'F' || 'a' <= c <= 'f'
  }

  /** `GUID.charToByte`: the value of one hexadecimal digit, either case;
      None for any other character. */
  function CharToByte(c: char): (r: Option<byte>)
    ensures r.Some? <==> IsHexChar(c)
    ensures r.Some? ==> r.value < 16
  {
    if '0' <= c <= '9' then Some(c as int - '0' as int)
    else if 'A' <= c <= 'F' then Some(c as int - 'A' as int + 0x0A)
    else if 'a' <= c <= 'f' then Some(c as int - 'a' as int + 0x0a)
    else None
  }

  /** The upper-case digit for a nibble. */
  function HexChar(n: nat): char
    requires n < 16
  {
    "0123456789ABCDEF"[n]
  }

  /** ASCII lower-casing. */
  function Lower(c: char): char
  {
    if 'A' <= c <= 'Z' then (c as int + 32) as char else c
  }

  /** Every nibble's digit is a hexadecimal digit. */
  lemma HexCharIsHex(n: nat)
    requires n < 16
    ensures IsHexChar(HexChar(n))
  {
  }

  /** Upper- and lower-case spellings of a digit have the same value, and
      each nibble's rendering reads back as that nibble. */
  lemma CharToByteCase(c: char, n: nat)
    requires n < 16
    ensures CharToByte(Lower(c)) == CharToByte(c)
    ensures CharToByte(HexChar(n)) == Some(n)
    ensures CharToByte(Lower(HexChar(n))) == Some(n)
  {
  }

  /** Exactly 32 hexadecimal digits. */
  predicate IsGuidText(val: string) {
    |val| == 32 && forall i :: 0 <= i < 32 ==> IsHexChar(val[i])
  }

  /** Both digits of pair `i` are hexadecimal. */
  predicate PairOk(val: string, i: nat)
    requires 2 * i + 1 < |val|
  {
    IsHexChar(val[2 * i]) && IsHexChar(val[2 * i + 1])
  }

  /** The value of pair `i`: its first digit is the high nibble. */
  function PairValue(val: string, i: nat): (b: byte)
    requires 2 * i + 1 < |val| && PairOk(val, i)
    ensures b == 16 * CharToByte(val[2 * i]).value + CharToByte(val[2 * i + 1]).value
  {
    16 * CharToByte(val[2 * i]).value + CharToByte(val[2 * i + 1]).value
  }

  /** The first pair at or after `i` that is not two hexadecimal digits, or 16. */
  function FirstBadPair(val: string, i: nat): (k: nat)
    requires |val| == 32 && i <= 16
    ensures i <= k <= 16
    ensures forall j :: i <= j < k ==> PairOk(val, j)
    ensures k < 16 ==> !PairOk(val, k)
    decreases 16 - i
  {
    if i == 16 || !PairOk(val, i) then i else FirstBadPair(val, i + 1)
  }

  /** The bytes of the first `n` pairs. */
  function DecodePrefix(val: string, n: nat): (s: seq<byte>)
    requires |val| == 32 && n <= 16
    requires forall j :: 0 <= j < n ==> PairOk(val, j)
    ensures |s| == n
    ensures forall j :: 0 <= j < n ==> s[j] == PairValue(val, j)
  {
    seq(n, j requires 0 <= j < n => PairValue(val, j))
  }

  /** The identifier written by 32 hexadecimal digits, most significant
      nibble of each byte first. */
  function DecodeGuid(val: string): (g: Guid)
    requires IsGuidText(val)
    ensures forall i :: 0 <= i < 16 ==>
      g[i] == 16 * CharToByte(val[2 * i]).value + CharToByte(val[2 * i + 1]).value
  {
    DecodePrefix(val, 16)
  }

  /** The result of `GUID.parse` on a receiver holding `g`: the new bytes and
      whether it succeeded. Wrong length leaves the receiver alone; a bad
      digit stops the parse with the pairs before it already written. */
  function ParseInto(g: Guid, val: string): (r: (Guid, bool))
    ensures r.1 <==> IsGuidText(val)
    ensures r.1 ==> r.0 == DecodeGuid(val)
    ensures |val| != 32 ==> r.0 == g
  {
    if |val| != 32 then (g, false)
    else
      var k := FirstBadPair(val, 0);
      assert k == 16 ==> forall i :: 0 <= i < 32 ==> IsHexChar(val[i]) by {
        if k == 16 {
          forall i | 0 <= i < 32 ensures IsHexChar(val[i]) {
            assert PairOk(val, i / 2);
          }
        }
      }
      (DecodePrefix(val, k) + g[k..], k == 16)
  }

  /** The decoded identifier, or None when the text is not 32 hex digits. */
  function ParseGuid(val: string): (r: Option<Guid>)
    ensures r.Some? <==> IsGuidText(val)
    ensures r.Some? ==> forall g: Guid :: r.value == ParseInto(g, val).0
  {
    if IsGuidText(val) then Some(DecodeGuid(val)) else None
  }

  /** `(b1 << 4) | b2` on two nibbles: the high nibble shifted above the
      low one, written arithmetically. */
  function Nibbles(hi: byte, lo: byte): byte
    requires hi < 16 && lo < 16
  {
    16 * hi + lo
  }

  /** `GUID.parse`, in place: fails unless `val` has 32 characters; walks
      the 16 pairs and stops at the first non-hex digit. */
  method Parse(g: array<byte>, val: string) returns (ok: bool)
    requires g.Length == 16
    modifies g
    ensures (g[..], ok) == ParseInto(old(g[..]), val)
  {
    if |val| != 32 {
      return false;
    }
    ghost var before := g[..];
    var i := 0;
    while i < 16
      invariant 0 <= i <= FirstBadPair(val, 0)
      invariant forall j :: 0 <= j < i ==> g[j] == PairValue(val, j)
      invariant forall j :: i <= j < 16 ==> g[j] == before[j]
    {
      var b1 := CharToByte(val[2 * i]);
      if b1.None? {
        Stopped(g[..], before, val, i);
        return false;
      }
      var b2 := CharToByte(val[2 * i + 1]);
      if b2.None? {
        Stopped(g[..], before, val, i);
        return false;
      }
      g[i] := Nibbles(b1.value, b2.value);
      i := i + 1;
    }
    Stopped(g[..], before, val, 16);
    return true;
  }

  /** The receiver when the walk stops at pair `n`, after the pairs before
      it have been written: what `ParseInto` gives, success exactly when
      all 16 pairs were read. */
  lemma Stopped(now: seq<byte>, before: Guid, val: string, n: nat)
    requires |now| == 16 && |val| == 32 && n <= FirstBadPair(val, 0)
    requires n == 16 || !PairOk(val, n)
    requires forall j :: 0 <= j < n ==> now[j] == PairValue(val, j)
    requires forall j :: n <= j < 16 ==> now[j] == before[j]
    ensures ParseInto(before, val) == (now, n == 16)
  {
    assert FirstBadPair(val, 0) == n;
    var d := DecodePrefix(val, n);
    var w := d + before[n..];
    forall j | 0 <= j < 16 ensures now[j] == w[j] {
      if j < n {
        assert w[j] == d[j];
      } else {
        assert w[j] == before[j];
      }
    }
    assert now == w;
  }

  /** A failed parse of 32 characters stops at a pair that is not two hex
      digits: the pairs before it are already written, and the receiver
      keeps its old bytes from that pair on. */
  lemma ParseIntoStops(before: Guid, val: string)
    requires |val| == 32 && !IsGuidText(val)
    ensures var after := ParseInto(before, val).0;
      exists k :: 0 <= k < 16 && !PairOk(val, k) &&
        (forall j :: 0 <= j < k ==> PairOk(val, j) && after[j] == PairValue(val, j)) &&
        (forall j :: k <= j < 16 ==> after[j] == before[j])
  {
    var k := FirstBadPair(val, 0);
    var after := ParseInto(before, val).0;
    assert after == DecodePrefix(val, k) + before[k..];
    assert k < 16;
    forall j | 0 <= j < k ensures PairOk(val, j) && after[j] == PairValue(val, j) {
      assert after[j] == DecodePrefix(val, k)[j];
    }
    forall j | k <= j < 16 ensures after[j] == before[j] {
      assert after[j] == before[k..][j - k];
    }
  }

  /** `GUID.IsZero`: scans the bytes and stops at the first non-zero one. */
  method IsZero(g: Guid) returns (z: bool)
    ensures z <==> forall i :: 0 <= i < 16 ==> g[i] == 0
  {
    for i := 0 to 16
      invariant forall j :: 0 <= j < i ==> g[j] == 0
    {
      if g[i] != 0 {
        return false;
      }
    }
    return true;
  }

  /** 32 upper-case hexadecimal digits for a byte sequence, high nibble first. */
  function HexText(g: seq<byte>): (s: string)
    ensures |s| == 2 * |g|
  {
    if g == [] then "" else [HexChar(g[0] / 16), HexChar(g[0] % 16)] + HexText(g[1..])
  }

  lemma {:induction false} HexTextAt(g: seq<byte>, i: nat)
    requires i < |g|
    ensures HexText(g)[2 * i] == HexChar(g[i] / 16)
    ensures HexText(g)[2 * i + 1] == HexChar(g[i] % 16)
  {
    if i > 0 {
      HexTextAt(g[1..], i - 1);
    }
  }

  /** The rendering consists of hexadecimal digits only. */
  lemma HexTextIsHex(g: seq<byte>)
    ensures forall i :: 0 <= i < |HexText(g)| ==> IsHexChar(HexText(g)[i])
  {
    forall i | 0 <= i < |HexText(g)| ensures IsHexChar(HexText(g)[i]) {
      var p := i / 2;
      HexTextAt(g, p);
      HexCharIsHex(g[p] / 16);
      HexCharIsHex(g[p] % 16);
      assert i == 2 * p || i == 2 * p + 1;
    }
  }

  /** Parsing the hexadecimal rendering of any identifier gives it back. */
  lemma GuidRoundTrip(g: Guid)
    ensures ParseGuid(HexText(g)) == Some(g)
  {
    var s := HexText(g);
    forall i | 0 <= i < 16
      ensures IsHexChar(s[2 * i]) && IsHexChar(s[2 * i + 1])
      ensures CharToByte(s[2 * i]) == Some(g[i] / 16) && CharToByte(s[2 * i + 1]) == Some(g[i] % 16)
    {
      HexTextAt(g, i);
      CharToByteCase(s[2 * i], g[i] / 16);
      CharToByteCase(s[2 * i], g[i] % 16);
    }
    forall i | 0 <= i < 32 ensures IsHexChar(s[i]) {
      assert i == 2 * (i / 2) || i == 2 * (i / 2) + 1;
    }
    assert DecodeGuid(s) == g;
  }

  /** Lower-casing the text does not change what it parses to. */
  lemma ParseIgnoresCase(val: string)
    ensures ParseGuid(seq(|val|, i requires 0 <= i < |val| => Lower(val[i]))) == ParseGuid(val)
  {
    var low := seq(|val|, i requires 0 <= i < |val| => Lower(val[i]));
    forall i | 0 <= i < |val| ensures CharToByte(low[i]) == CharToByte(val[i]) {
      CharToByteCase(val[i], 0);
    }
    if IsGuidText(val) {
      assert IsGuidText(low);
      assert DecodeGuid(low) == DecodeGuid(val);
    } else if |val| == 32 {
      var i :| 0 <= i < 32 && !IsHexChar(val[i]);
      assert !IsHexChar(low[i]);
    }
  }

  /** The text of the identifier of the font test cases: "CAFE", 24 zeros, "F00D". */
  lemma ExampleText(val: string)
    requires val == "CAFE000000000000000000000000F00D"
    ensures IsGuidText(val)
    ensures val[0] == 'C' && val[1] == 'A' && val[2] == 'F' && val[3] == 'E'
    ensures val[28] == 'F' && val[29] == '0' && val[30] == '0' && val[31] == 'D'
  {
    assert val == "CAFE" + seq(24, _ => '0') + "F00D";
  }

  /** The identifier of the font test cases. */
  lemma ParseExample()
    ensures var g := ParseGuid("CAFE000000000000000000000000F00D");
      g.Some? && g.value[0] == 0xCA && g.value[1] == 0xFE && g.value[14] == 0xF0 && g.value[15] == 0x0D
  {
    var val := "CAFE000000000000000000000000F00D";
    ExampleText(val);
    var g := DecodeGuid(val);
    assert ParseGuid(val) == Some(g);
    assert g[0] == 16 * CharToByte('C').value + CharToByte('A').value;
    assert g[1] == 16 * CharToByte('F').value + CharToByte('E').value;
    assert g[14] == 16 * CharToByte('F').value + CharToByte('0').value;
    assert g[15] == 16 * CharToByte('0').value + CharToByte('D').value;
  }
}
