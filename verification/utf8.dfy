/** The two text converters of the C host boundary: `Utf8ToWideChar`, which
    reads a zero-terminated UTF-8 string into zero-terminated UTF-16 code
    units, and `Utf8FromWideChar`, which does the reverse. Both follow the
    table-driven scheme of section 2 of RFC 2279 (section 3 of RFC 3629),
    with surrogate pairs as in section 2.1 of RFC 2781. */
module Utf8 {
  import opened Prelude

  /** `unsigned int` arithmetic wraps around modulo 2^32. */
  const Mod32: int := 0x1_0000_0000

  /** The UTF-8 byte order mark, which the decoder drops. */
  const Bom: seq<byte> := [0xEF, 0xBB, 0xBF]

  /** `abFirstByte`: how many bytes follow a lead byte, by its count of
      leading one bits. */
  function ExtraBytes(b: byte): (n: nat)
    ensures n <= 5
    ensures n == 0 <==> b < 0xC0
  {
    if b < 0xC0 then 0
    else if b < 0xE0 then 1
    else if b < 0xF0 then 2
    else if b < 0xF8 then 3
    else if b < 0xFC then 4
    else 5
  }

  /** 2 to the power `k`. */
  function Pow2(k: nat): (p: nat)
    requires k <= 8
    ensures p > 0
  {
    if k == 0 then 1 else 2 * Pow2(k - 1)
  }

  /** The number of one bits that lead the low `k` bits of `b`, read from
      the most significant one down. */
  function LeadingOnes(b: byte, k: nat): (n: nat)
    requires k <= 8 && b < Pow2(k)
    ensures n <= k
    decreases k
  {
    if k == 0 || b < Pow2(k - 1) then 0 else 1 + LeadingOnes(b - Pow2(k - 1), k - 1)
  }

  /** The table is the count of leading one bits of the lead byte, less one,
      for two to six of them: a byte with fewer than two (ASCII or a stray
      continuation byte) stands alone, and one with more than six reads like
      six. */
  lemma ExtraBytesCountsOnes(b: byte)
    ensures var m := LeadingOnes(b, 8);
      ExtraBytes(b) == if m < 2 then 0 else if m > 6 then 5 else m - 1
  {
    assert Pow2(8) == 0x100 && Pow2(7) == 0x80 && Pow2(6) == 0x40 && Pow2(5) == 0x20;
    assert Pow2(4) == 0x10 && Pow2(3) == 0x08 && Pow2(2) == 0x04 && Pow2(1) == 0x02;
  }

  /** The marker bits alone of a sequence of `n` extra bytes: the lead
      byte's mark, then `10` over six zero bits for each extra byte. */
  function MarkerBits(n: nat): (bytes: seq<byte>)
    requires n <= 5
    ensures |bytes| == n + 1
  {
    [[0x00, 0xC0, 0xE0, 0xF0, 0xF8, 0xFC][n]] + seq(n, _ => 0x80)
  }

  /** The value accumulated from a lead byte followed by `k` marker bytes
      0x80, each step shifting by six bits in 32-bit arithmetic. */
  function MarkerAfter(lead: byte, k: nat): (u: nat)
    ensures u < Mod32 || k == 0
  {
    if k == 0 then lead else (MarkerAfter(lead, k - 1) * 64 + 0x80) % Mod32
  }

  lemma {:induction false} AccumulateMarkers(lead: byte, k: nat)
    ensures Accumulate([lead] + seq(k, _ => 0x80)) == MarkerAfter(lead, k)
  {
    if k == 0 {
      assert ([lead] + seq(0, _ => 0x80))[..0] == [];
    } else {
      var bytes := [lead] + seq(k, _ => 0x80);
      assert bytes[..|bytes| - 1] == [lead] + seq(k - 1, _ => 0x80);
      AccumulateMarkers(lead, k - 1);
    }
  }

  /** The marker bits of each sequence length, accumulated as the decoder
      accumulates a sequence. */
  lemma MarkerSums(n: nat)
    requires n <= 5
    ensures Accumulate(MarkerBits(n))
      == [0x0000_0000, 0x0000_3080, 0x000E_2080, 0x03C8_2080, 0xFA08_2080, 0x8208_2080][n]
  {
    var lead := [0x00, 0xC0, 0xE0, 0xF0, 0xF8, 0xFC][n];
    assert MarkerBits(n) == [lead] + seq(n, _ => 0x80);
    AccumulateMarkers(lead, n);
    MarkerAfterValues();
  }

  lemma MarkerAfterValues()
    ensures MarkerAfter(0x00, 0) == 0 && MarkerAfter(0xC0, 1) == 0x3080
    ensures MarkerAfter(0xE0, 2) == 0xE_2080 && MarkerAfter(0xF0, 3) == 0x3C8_2080
    ensures MarkerAfter(0xF8, 4) == 0xFA08_2080 && MarkerAfter(0xFC, 5) == 0x8208_2080
  {
    assert MarkerAfter(0xE0, 1) == 0x3880;
    assert MarkerAfter(0xF0, 1) == 0x3C80;
    assert MarkerAfter(0xF0, 2) == 0xF_2080;
    assert MarkerAfter(0xF8, 1) == 0x3E80;
    assert MarkerAfter(0xF8, 2) == 0xF_A080;
    assert MarkerAfter(0xF8, 3) == 0x3E8_2080;
    assert MarkerAfter(0xFC, 1) == 0x3F80;
    assert MarkerAfter(0xFC, 2) == 0xF_E080;
    assert MarkerAfter(0xFC, 3) == 0x3F8_2080;
    assert MarkerAfter(0xFC, 4) == 0xFE08_2080;
  }

  /** `auiOffsetsFromUTF8`: what the marker bits of a sequence of `n` extra
      bytes add to the accumulated value. */
  function Offset(n: nat): nat
    requires n <= 5
  {
    [0x0000_0000, 0x0000_3080, 0x000E_2080, 0x03C8_2080, 0xFA08_2080, 0x8208_2080][n]
  }

  /** Each offset is exactly the marker bits of its sequence length,
      accumulated the way the decoder accumulates a sequence; subtracting it
      leaves the bits the sequence carries. */
  lemma OffsetIsMarkers(n: nat)
    requires n <= 5
    ensures Offset(n) == Accumulate(MarkerBits(n))
  {
    MarkerSums(n);
  }

  /** The value the fall-through switch accumulates from `bytes`: each byte
      added to the running value shifted left by six, in 32-bit unsigned
      arithmetic. */
  function Accumulate(bytes: seq<byte>): (u: nat)
    ensures u < Mod32
  {
    if bytes == [] then 0
    else (Accumulate(bytes[..|bytes| - 1]) * 64 + bytes[|bytes| - 1]) % Mod32
  }

  /** Whether a text starts with the byte order mark. The decoder compares
      the string's bytes and its terminator; no byte of the string is zero
      and neither is any byte of the mark, so only the string matters. */
  predicate StartsWithBom(t: seq<byte>)
  {
    |t| >= 3 && t[0] == Bom[0] && t[1] == Bom[1] && t[2] == Bom[2]
  }

  /** The value of a sequence of a lead byte and 0 to 5 extra bytes, once
      the marker bits are taken away. */
  function SequenceValue(bytes: seq<byte>): (u: nat)
    requires 1 <= |bytes| <= 6
    ensures u < Mod32
  {
    (Accumulate(bytes) - Offset(|bytes| - 1)) % Mod32
  }

  /** The bytes of the sequence that starts `t`: the lead byte and its extra
      bytes, through the terminator when `t` is too short. */
  function LeadSequence(t: seq<byte>): (bytes: seq<byte>)
    requires |t| > 0 && ExtraBytes(t[0]) <= |t|
    ensures |bytes| == ExtraBytes(t[0]) + 1
  {
    (t + [0])[..ExtraBytes(t[0]) + 1]
  }

  /** The code units written for a decoded value: the value itself when it
      fits in 16 bits, the replacement character above U+10FFFF, and a
      surrogate pair otherwise. */
  function Units(u: nat): (r: seq<uint16>)
    ensures 1 <= |r| <= 2
    ensures u <= 0xFFFF ==> r == [u]
    ensures u > 0x10FFFF ==> r == [0xFFFD]
  {
    if u <= 0xFFFF then [u]
    else if u > 0x10FFFF then [0xFFFD]
    else [(u - 0x1_0000) / 0x400 + 0xD800, (u - 0x1_0000) % 0x400 + 0xDC00]
  }

  /** A value beyond 16 bits and within Unicode becomes a surrogate pair
      that combines back to it. */
  lemma UnitsPair(u: nat)
    requires 0xFFFF < u <= 0x10FFFF
    ensures var r := Units(u);
      && |r| == 2 && IsHighSurrogate(r[0]) && IsLowSurrogate(r[1])
      && Combine(r[0], r[1]) == u
  {
  }

  /** What `Utf8ToWideChar` produces from the bytes of `t`, without the
      terminator; None when a sequence would need bytes past the terminator,
      where the C code reads outside the string. A byte order mark is skipped
      wherever a sequence would start. */
  function Decode(t: seq<byte>): (r: Option<seq<uint16>>)
    ensures r.Some? ==> |r.value| <= 2 * |t|
  {
    if t == [] then Some([])
    else if StartsWithBom(t) then Decode(t[3..])
    else
      var n := ExtraBytes(t[0]);
      if n > |t| then None
      else
        var units := Units(SequenceValue(LeadSequence(t)));
        if n + 1 >= |t| then Some(units)
        else match Decode(t[n + 1..])
          case None => None
          case Some(rest) => Some(units + rest)
  }

  /** ASCII bytes decode to the same code units, one each. */
  lemma {:induction false} AsciiDecode(t: seq<byte>)
    requires forall k :: 0 <= k < |t| ==> t[k] < 0x80
    ensures Decode(t) == Some(seq(|t|, k requires 0 <= k < |t| => t[k] as uint16))
    decreases |t|
  {
    var units := seq(|t|, k requires 0 <= k < |t| => t[k] as uint16);
    if t != [] {
      assert !StartsWithBom(t) && ExtraBytes(t[0]) == 0;
      assert LeadSequence(t) == [t[0]];
      assert Accumulate([t[0]]) == t[0] by {
        assert [t[0]][..0] == [];
      }
      assert Units(SequenceValue(LeadSequence(t))) == [t[0] as uint16];
      AsciiDecode(t[1..]);
      DecodeUnfold(t);
      var rest := Decode(t[1..]).value;
      assert Decode(t) == Some([t[0] as uint16] + rest);
      assert units == [t[0] as uint16] + rest;
    }
  }

  /** The bytes left to decode once `i` bytes have been consumed. */
  function Remaining(s: seq<byte>, i: nat): seq<byte>
  {
    if i <= |s| then s[i..] else []
  }

  /** A sequence the decoder starts at `i` ends at the terminator at the
      latest. */
  lemma StepFits(s: seq<byte>, i: nat)
    requires i < |s| && Decode(Remaining(s, i)).Some? && !StartsWithBom(Remaining(s, i))
    ensures ExtraBytes(s[i]) <= |s| - i
  {
    assert s[i..][0] == s[i];
  }

  /** One step of the decoder on the bytes left at `i` when they do not
      start with a byte order mark: the units of the sequence of `n` extra
      bytes and value `u` that starts there, then `rest'`, whatever the bytes
      after it decode to. */
  lemma DecodeStep(s: seq<byte>, i: nat, n: nat, u: nat, rest: seq<uint16>) returns (rest': seq<uint16>)
    requires i < |s| && Decode(Remaining(s, i)) == Some(rest) && !StartsWithBom(Remaining(s, i))
    requires n == ExtraBytes(s[i]) && n <= |s| - i
    requires u == SequenceValue(LeadSequence(Remaining(s, i)))
    ensures Decode(Remaining(s, i + n + 1)) == Some(rest')
    ensures rest == Units(u) + rest'
  {
    var t := s[i..];
    assert t != [] && t[0] == s[i];
    var units := Units(u);
    if n + 1 < |t| {
      assert t[n + 1..] == s[i + n + 1..];
      assert Decode(t) == match Decode(t[n + 1..]) case None => None case Some(rest) => Some(units + rest);
      rest' := Decode(t[n + 1..]).value;
    } else {
      assert Decode(t) == Some(units);
      assert Remaining(s, i + n + 1) == [];
      rest' := [];
      assert units + [] == units;
    }
  }

  /** The bookkeeping of one decoded sequence: once its units follow what
      was `written` before, what is written and what is left to decode still
      make up the same whole. */
  lemma DecodeAdvance(s: seq<byte>, i: nat, n: nat, next: nat, u: nat, rest: seq<uint16>,
                      written: seq<uint16>, written': seq<uint16>) returns (rest': seq<uint16>)
    requires i < |s| && Decode(Remaining(s, i)) == Some(rest) && !StartsWithBom(Remaining(s, i))
    requires n == ExtraBytes(s[i]) && n <= |s| - i && next == i + n + 1
    requires u == SequenceValue(LeadSequence(Remaining(s, i)))
    requires written' == written + Units(u)
    ensures Decode(Remaining(s, next)) == Some(rest')
    ensures written' + rest' == written + rest
  {
    rest' := DecodeStep(s, i, n, u, rest);
    ConcatAssoc(written, Units(u), rest');
  }

  /** A byte order mark where a sequence would start decodes to nothing. */
  lemma BomStep(s: seq<byte>, i: nat)
    requires i < |s| && StartsWithBom(Remaining(s, i))
    ensures Decode(Remaining(s, i + 3)) == Decode(Remaining(s, i))
  {
    assert s[i..][3..] == s[i + 3..];
  }

  /** The decoder's test for a byte order mark at `i`, which compares bytes
      of the string and possibly its terminator. */
  method AtBom(s: seq<byte>, i: nat) returns (b: bool)
    requires i < |s|
    ensures b == StartsWithBom(Remaining(s, i))
  {
    var mem := s + [0];
    b := mem[i] == 0xEF && mem[i + 1] == 0xBB && mem[i + 2] == 0xBF;
  }

  /** The switch of `Utf8ToWideChar`: reads the lead byte at `i` and the
      extra bytes it announces, through the terminator at the latest, and
      takes away their marker bits. */
  method ReadSequence(s: seq<byte>, i: nat) returns (u: nat, n: nat)
    requires i < |s| && ExtraBytes(s[i]) <= |s| - i
    ensures n == ExtraBytes(s[i])
    ensures u == SequenceValue(LeadSequence(Remaining(s, i)))
  {
    var mem := s + [0];
    n := ExtraBytes(mem[i]);
    u := 0;
    for j := 0 to n + 1
      invariant u == Accumulate(mem[i..i + j])
    {
      assert mem[i..i + j + 1][..j] == mem[i..i + j] && mem[i..i + j + 1][j] == mem[i + j];
      u := (u * 64 + mem[i + j]) % Mod32;
    }
    LeadSequenceAt(s, i);
    u := (u - Offset(n)) % Mod32;
  }

  /** The sequence that starts at `i` lies in the string and its terminator. */
  lemma LeadSequenceAt(s: seq<byte>, i: nat)
    requires i < |s| && ExtraBytes(s[i]) <= |s| - i
    ensures LeadSequence(Remaining(s, i)) == (s + [0])[i..i + ExtraBytes(s[i]) + 1]
  {
    var n := ExtraBytes(s[i]);
    assert (s + [0])[i..] == s[i..] + [0];
    assert (s + [0])[i..i + n + 1] == (s + [0])[i..][..n + 1];
  }

  /** The emitting half of `Utf8ToWideChar`: writes the units of `u` at
      `count`. */
  method WriteUnits(pwc: array<uint16>, count: nat, u: nat) returns (count': nat)
    requires count + 2 <= pwc.Length
    modifies pwc
    ensures count' == count + |Units(u)|
    ensures pwc[..count'] == old(pwc[..count]) + Units(u)
  {
    if u <= 0xFFFF {
      pwc[count] := u;
      count' := count + 1;
    } else if u > 0x10FFFF {
      pwc[count] := 0xFFFD;
      count' := count + 1;
    } else {
      var v := u - 0x1_0000;
      pwc[count] := v / 0x400 + 0xD800;
      pwc[count + 1] := v % 0x400 + 0xDC00;
      count' := count + 2;
    }
  }

  /** Decodes the sequence at byte `i`, which is not a byte order mark, and
      writes its units at `count`. */
  method DecodeSequence(s: seq<byte>, pwc: array<uint16>, i: nat, count: nat)
    returns (n: nat, count': nat, ghost u: nat)
    requires i < |s| && ExtraBytes(s[i]) <= |s| - i && count + 2 <= pwc.Length
    modifies pwc
    ensures n == ExtraBytes(s[i]) && u == SequenceValue(LeadSequence(Remaining(s, i)))
    ensures count' == count + |Units(u)|
    ensures pwc[..count'] == old(pwc[..count]) + Units(u)
  {
    var v;
    v, n := ReadSequence(s, i);
    count' := WriteUnits(pwc, count, v);
    u := v;
  }

  /** One pass of the loop of `Utf8ToWideChar` at byte `i`: skips a byte
      order mark, or decodes one sequence. `rest` is what the bytes from `i`
      on decode to. */
  method DecodeNext(s: seq<byte>, pwc: array<uint16>, i: nat, count: nat, ghost rest: seq<uint16>)
    returns (i': nat, count': nat, ghost rest': seq<uint16>)
    requires i < |s| && count <= 2 * i && pwc.Length == 2 * |s| + 1
    requires Decode(Remaining(s, i)) == Some(rest)
    modifies pwc
    ensures i < i' <= |s| + 1 && count' <= 2 * i' && count' <= 2 * |s|
    ensures Decode(Remaining(s, i')) == Some(rest')
    ensures pwc[..count'] + rest' == old(pwc[..count]) + rest
  {
    var bom := AtBom(s, i);
    if bom {
      i', count', rest' := i + 3, count, rest;
      BomStep(s, i);
    } else {
      StepFits(s, i);
      ghost var written := pwc[..count];
      ghost var u;
      var n;
      n, count', u := DecodeSequence(s, pwc, i, count);
      i' := i + n + 1;
      rest' := DecodeAdvance(s, i, n, i', u, rest, written, pwc[..count']);
    }
  }

  /** The loop of `Utf8ToWideChar`: decodes the zero-free bytes `s` into
      `pwc` and returns the number of units written. */
  method DecodeInto(s: seq<byte>, pwc: array<uint16>) returns (count: nat)
    requires Decode(s).Some?
    requires pwc.Length == 2 * |s| + 1
    modifies pwc
    ensures count <= 2 * |s|
    ensures pwc[..count] == Decode(s).value
  {
    count := 0;
    var i: nat := 0;
    ghost var rest := Decode(s).value;
    while i < |s|
      invariant i <= |s| + 1 && count <= 2 * i && count <= 2 * |s|
      invariant Decode(Remaining(s, i)) == Some(rest)
      invariant pwc[..count] + rest == Decode(s).value
      decreases |s| + 1 - i
    {
      i, count, rest := DecodeNext(s, pwc, i, count, rest);
    }
    assert Remaining(s, i) == [];
  }

  /** `Utf8ToWideChar`: decodes the zero-free bytes `s` into a new buffer of
      2 * |s| + 1 code units, terminated by a zero unit. */
  method Utf8ToWideChar(s: seq<byte>) returns (pwc: array<uint16>)
    requires forall k :: 0 <= k < |s| ==> s[k] != 0
    requires Decode(s).Some?
    ensures pwc.Length == 2 * |s| + 1
    ensures |Decode(s).value| < pwc.Length
    ensures pwc[..|Decode(s).value|] == Decode(s).value
    ensures pwc[|Decode(s).value|] == 0
  {
    pwc := new uint16[2 * |s| + 1];
    var count := DecodeInto(s, pwc);
    ghost var decoded := pwc[..count];
    pwc[count] := 0;
    assert pwc[..count] == decoded;
  }

  predicate IsHighSurrogate(u: nat)
  {
    0xD800 <= u <= 0xDBFF
  }

  predicate IsLowSurrogate(u: nat)
  {
    0xDC00 <= u <= 0xDFFF
  }

  /** The code point of a surrogate pair. */
  function Combine(hi: nat, lo: nat): nat
    requires IsHighSurrogate(hi) && IsLowSurrogate(lo)
  {
    (hi - 0xD800) * 0x400 + (lo - 0xDC00) + 0x1_0000
  }

  /** Whether the decoder's walk over `t` ends exactly at its end, never
      reading the terminator. */
  predicate Framed(t: seq<byte>)
    decreases |t|
  {
    if t == [] then true
    else if StartsWithBom(t) then Framed(t[3..])
    else ExtraBytes(t[0]) < |t| && Framed(t[ExtraBytes(t[0]) + 1..])
  }

  /** The units of one sequence in front of what the rest decodes to. */
  function Prepend(units: seq<uint16>, rest: Option<seq<uint16>>): Option<seq<uint16>>
  {
    match rest
    case None => None
    case Some(r) => Some(units + r)
  }

  /** The decoder on a text that starts with a sequence it can read to its
      end: that sequence's units, then the decoding of the bytes after it. */
  lemma DecodeUnfold(t: seq<byte>)
    requires t != [] && !StartsWithBom(t) && ExtraBytes(t[0]) < |t|
    ensures Decode(t) == Prepend(Units(SequenceValue(LeadSequence(t))), Decode(t[ExtraBytes(t[0]) + 1..]))
  {
    var units := Units(SequenceValue(LeadSequence(t)));
    if ExtraBytes(t[0]) + 1 == |t| {
      assert t[ExtraBytes(t[0]) + 1..] == [] && units + [] == units;
    }
  }

  /** Decoding a framed text followed by more bytes decodes each part on its
      own. */
  lemma {:induction false} DecodeConcat(a: seq<byte>, b: seq<byte>)
    requires Framed(a)
    ensures Decode(a).Some?
    ensures Decode(a + b) == if Decode(b).Some? then Some(Decode(a).value + Decode(b).value) else None
    decreases |a|
  {
    if a == [] {
      assert a + b == b;
      if Decode(b).Some? {
        assert Decode(a).value + Decode(b).value == Decode(b).value;
      }
    } else if StartsWithBom(a) {
      assert (a + b)[3..] == a[3..] + b;
      DecodeConcat(a[3..], b);
    } else {
      var n := ExtraBytes(a[0]);
      ConcatHead(a, b);
      DecodeUnfold(a + b);
      DecodeUnfold(a);
      DecodeConcat(a[n + 1..], b);
      var units := Units(SequenceValue(LeadSequence(a)));
      var ra := Decode(a[n + 1..]).value;
      if Decode(b).Some? {
        ConcatAssoc(units, ra, Decode(b).value);
      }
    }
  }

  /** A text that starts with a whole sequence starts with it, and not with
      a byte order mark, whatever follows. */
  lemma ConcatHead(a: seq<byte>, b: seq<byte>)
    requires a != [] && !StartsWithBom(a) && ExtraBytes(a[0]) < |a|
    ensures var n := ExtraBytes(a[0]);
      && (a + b)[0] == a[0] && !StartsWithBom(a + b)
      && LeadSequence(a + b) == LeadSequence(a)
      && (a + b)[n + 1..] == a[n + 1..] + b
  {
    var n := ExtraBytes(a[0]);
    assert (a + b)[..n + 1] == a[..n + 1];
  }

  /** A byte order mark between two framed parts of the input is dropped,
      wherever it stands. */
  lemma BomDropped(a: seq<byte>, b: seq<byte>)
    requires Framed(a)
    ensures Decode(a + Bom + b) == Decode(a + b)
  {
    assert a + Bom + b == a + (Bom + b);
    assert StartsWithBom(Bom + b) && (Bom + b)[3..] == b;
    DecodeConcat(a, Bom + b);
    DecodeConcat(a, b);
  }

  /** How many bytes `Utf8FromWideChar` writes for a value: 1 to 6 by size,
      and 2 past the largest UCS-4 value, for the replacement character. */
  function ByteCount(u: nat): (n: nat)
    ensures 1 <= n <= 6
  {
    if u < 0x80 then 1
    else if u < 0x800 then 2
    else if u < 0x1_0000 then 3
    else if u < 0x20_0000 then 4
    else if u < 0x400_0000 then 5
    else if u <= 0x7FFF_FFFF then 6
    else 2
  }

  /** The value actually written: the replacement character past the largest
      UCS-4 value. */
  function Written(u: nat): nat
  {
    if u <= 0x7FFF_FFFF then u else 0xFFFD
  }

  /** `abByteMark`: the marker bits of a lead byte, by sequence length. */
  const ByteMark: seq<byte> := [0x00, 0x00, 0xC0, 0xE0, 0xF0, 0xF8, 0xFC]

  /** `u` shifted right by six bits `k` times. */
  function Shifted(u: nat, k: nat): nat
  {
    if k == 0 then u else Shifted(u / 64, k - 1)
  }

  /** A continuation byte, `(u | 0x80) & 0xBF` cast to a byte: the marker
      bits 10 over the low six bits of `u`. */
  function ContinuationByte(u: nat): byte
  {
    0x80 + u % 64
  }

  /** The lead byte of a sequence of `n` bytes, `v | abByteMark[n]` cast to
      a byte: the marker bits over the bits of `v` they leave free. */
  function LeadByte(v: nat, n: nat): byte
    requires 1 <= n <= 6
  {
    if n == 1 then v % 0x100
    else ByteMark[n] + v % [0, 0, 0x40, 0x20, 0x10, 0x08, 0x04][n]
  }

  /** The last `k` bytes of a sequence for `u`, written from the end: the
      low six bits of `u` last. */
  function Continuations(u: nat, k: nat): (r: seq<byte>)
    ensures |r| == k
    ensures forall j :: 0 <= j < k ==> 0x80 <= r[j] < 0xC0
  {
    if k == 0 then [] else Continuations(u / 64, k - 1) + [ContinuationByte(u)]
  }

  /** The bytes `Utf8FromWideChar` writes for one value. */
  function EncodeValue(u: nat): (r: seq<byte>)
    ensures |r| == ByteCount(u)
    ensures u < 0x80 ==> r == [u]
    ensures forall j :: 1 <= j < |r| ==> 0x80 <= r[j] < 0xC0
  {
    var n := ByteCount(u);
    [LeadByte(Shifted(Written(u), n - 1), n)] + Continuations(Written(u), n - 1)
  }

  /** How many units the encoder takes for the value that starts `w`: two
      for a high surrogate followed by a low one, one otherwise. The C code
      looks at the unit after a high surrogate even when it is the terminator,
      which is no low surrogate. */
  function UnitsTaken(w: seq<uint16>): (k: nat)
    requires |w| > 0
    ensures 1 <= k <= |w|
  {
    if |w| >= 2 && IsHighSurrogate(w[0]) && IsLowSurrogate(w[1]) then 2 else 1
  }

  /** The value that starts `w`: a surrogate pair combined, or the unit. */
  function FirstValue(w: seq<uint16>): (u: nat)
    requires |w| > 0
    ensures u <= 0x10_FFFF
    ensures UnitsTaken(w) == 1 ==> u == w[0]
  {
    if UnitsTaken(w) == 2 then Combine(w[0], w[1]) else w[0]
  }

  /** What `Utf8FromWideChar` produces from the units `w`, without the
      terminator. */
  function Encode(w: seq<uint16>): (r: seq<byte>)
    ensures |r| <= 3 * |w|
  {
    if w == [] then [] else EncodeValue(FirstValue(w)) + Encode(w[UnitsTaken(w)..])
  }

  /** ASCII units encode to the same bytes, one each. */
  lemma {:induction false} AsciiEncode(w: seq<uint16>)
    requires forall k :: 0 <= k < |w| ==> w[k] < 0x80
    ensures Encode(w) == seq(|w|, k requires 0 <= k < |w| => w[k] as byte)
    decreases |w|
  {
    if w != [] {
      assert EncodeValue(w[0]) == [w[0]];
      AsciiEncode(w[1..]);
    }
  }

  /** Continuation bytes written backwards: one more byte in front carries
      the next six bits. */
  lemma {:induction false} ContinuationsFront(u: nat, k: nat)
    ensures Continuations(u, k + 1) == [ContinuationByte(Shifted(u, k))] + Continuations(u, k)
  {
    if k > 0 {
      ContinuationsFront(u / 64, k - 1);
    }
  }

  /** Shifting once more is dividing by 64 once more. */
  lemma {:induction false} ShiftedStep(u: nat, k: nat)
    ensures Shifted(u, k + 1) == Shifted(u, k) / 64
  {
    if k > 0 {
      ShiftedStep(u / 64, k - 1);
    }
  }

  /** The fall-through switch of `Utf8FromWideChar`: writes the bytes for
      `u` at `p`, the continuation bytes backwards from the end and the lead
      byte last. */
  method WriteSequence(out: array<byte>, p: nat, u: nat) returns (p': nat)
    requires p + ByteCount(u) <= out.Length
    modifies out
    ensures p' == p + ByteCount(u)
    ensures out[..p'] == old(out[..p]) + EncodeValue(u)
  {
    var n := ByteCount(u);
    var v := Written(u);
    var x := WriteContinuations(out, p, n, v);
    out[p] := LeadByte(x, n);
    p' := p + n;
    assert out[..p'] == out[..p] + [out[p]] + out[p + 1..p + n];
  }

  /** The cases above `case 1` of that switch: the `n - 1` continuation
      bytes of `v`, written backwards from `p + n`, six bits at a time;
      returns what is left of `v` for the lead byte. */
  method WriteContinuations(out: array<byte>, p: nat, n: nat, v: nat) returns (x: nat)
    requires 1 <= n && p + n <= out.Length
    modifies out
    ensures x == Shifted(v, n - 1)
    ensures out[..p] == old(out[..p])
    ensures out[p + 1..p + n] == Continuations(v, n - 1)
  {
    var q := p + n;
    x := v;
    var k := 0;
    while k < n - 1
      invariant k <= n - 1 && q == p + n - k
      invariant x == Shifted(v, k)
      invariant out[..p] == old(out[..p])
      invariant out[q..p + n] == Continuations(v, k)
    {
      q := q - 1;
      out[q] := ContinuationByte(x);
      ContinuationsFront(v, k);
      ShiftedStep(v, k);
      x := x / 64;
      k := k + 1;
    }
  }

  /** One step of the encoder at unit `i`, where it reads `taken` units
      holding the value `u`, as the C code computes them. */
  lemma EncodeStep(w: seq<uint16>, i: nat, taken: nat, u: nat)
    requires i < |w|
    requires var mem := w + [0];
      if IsHighSurrogate(mem[i]) && IsLowSurrogate(mem[i + 1])
      then taken == 2 && u == Combine(mem[i], mem[i + 1])
      else taken == 1 && u == mem[i]
    ensures i + taken <= |w| && ByteCount(u) <= 3 * taken
    ensures Encode(w[i..]) == EncodeValue(u) + Encode(w[i + taken..])
  {
    var t := w[i..];
    assert t[0] == w[i];
    if |t| >= 2 {
      assert t[1] == w[i + 1];
    }
    assert taken == UnitsTaken(t) && u == FirstValue(t);
    assert t[taken..] == w[i + taken..];
  }

  /** The start of the loop of `Utf8FromWideChar`: the unit at `i`, or the
      value of the surrogate pair that starts there. */
  method ReadValue(mem: seq<uint16>, i: nat) returns (u: nat, taken: nat)
    requires i + 1 < |mem|
    ensures if IsHighSurrogate(mem[i]) && IsLowSurrogate(mem[i + 1])
      then taken == 2 && u == Combine(mem[i], mem[i + 1])
      else taken == 1 && u == mem[i]
  {
    u := mem[i];
    taken := 1;
    if 0xD800 <= u <= 0xDBFF {
      var next := mem[i + 1];
      if 0xDC00 <= next <= 0xDFFF {
        taken := 2;
        u := (u - 0xD800) * 0x400 + (next - 0xDC00) + 0x1_0000;
      }
    }
  }

  /** One pass of the loop of `Utf8FromWideChar` at unit `i`: encodes one
      value and writes its bytes at `p`. `rest` is what the units from `i` on
      encode to. */
  method EncodeNext(w: seq<uint16>, out: array<byte>, i: nat, p: nat, ghost rest: seq<byte>)
    returns (i': nat, p': nat, ghost rest': seq<byte>)
    requires i < |w| && p <= 3 * i && out.Length == 6 * |w| + 1
    requires rest == Encode(w[i..])
    modifies out
    ensures i < i' <= |w| && p' <= 3 * i'
    ensures rest' == Encode(w[i'..])
    ensures out[..p'] + rest' == old(out[..p]) + rest
  {
    var u, taken := ReadValue(w + [0], i);
    EncodeStep(w, i, taken, u);
    i' := i + taken;
    ghost var written := out[..p];
    rest' := Encode(w[i'..]);
    ghost var bytes := EncodeValue(u);
    assert rest == bytes + rest';
    p' := WriteSequence(out, p, u);
    assert out[..p'] == written + bytes;
    ConcatAssoc(written, bytes, rest');
  }

  /** The loop of `Utf8FromWideChar`: encodes `w` into `out` and returns the
      number of bytes written. */
  method EncodeInto(w: seq<uint16>, out: array<byte>) returns (p: nat)
    requires out.Length == 6 * |w| + 1
    modifies out
    ensures p <= 3 * |w|
    ensures out[..p] == Encode(w)
  {
    p := 0;
    var i: nat := 0;
    ghost var rest := Encode(w);
    while i < |w|
      invariant i <= |w| && p <= 3 * i
      invariant rest == Encode(w[i..])
      invariant out[..p] + rest == Encode(w)
    {
      i, p, rest := EncodeNext(w, out, i, p, rest);
    }
    assert w[i..] == [];
  }

  /** `Utf8FromWideChar`: encodes the zero-free units `w` into a new buffer
      of 6 * |w| + 1 bytes, terminated by a zero byte. */
  method Utf8FromWideChar(w: seq<uint16>) returns (out: array<byte>)
    requires forall k :: 0 <= k < |w| ==> w[k] != 0
    ensures out.Length == 6 * |w| + 1
    ensures |Encode(w)| < out.Length
    ensures out[..|Encode(w)|] == Encode(w)
    ensures out[|Encode(w)|] == 0
  {
    out := new byte[6 * |w| + 1];
    var count := EncodeInto(w, out);
    ghost var encoded := out[..count];
    out[count] := 0;
    assert out[..count] == encoded;
  }

  /** A surrogate pair combined and split again gives the pair back. */
  lemma UnitsCombine(hi: nat, lo: nat)
    requires IsHighSurrogate(hi) && IsLowSurrogate(lo)
    ensures Units(Combine(hi, lo)) == [hi, lo]
  {
    var c := Combine(hi, lo);
    assert c - 0x1_0000 == (hi - 0xD800) * 0x400 + (lo - 0xDC00);
    assert (c - 0x1_0000) / 0x400 == hi - 0xD800;
    assert (c - 0x1_0000) % 0x400 == lo - 0xDC00;
  }

  /** Shifting right by six twice is shifting right by twelve. */
  lemma ShiftTwice(u: nat)
    ensures u / 0x40 / 0x40 == u / 0x1000
  {
    var q, r := u / 0x1000, u % 0x1000;
    assert u == q * 0x1000 + r;
    assert u / 0x40 == q * 0x40 + r / 0x40;
  }

  /** Shifting right by twelve and then by six is shifting right by
      eighteen. */
  lemma ShiftThrice(u: nat)
    ensures u / 0x1000 / 0x40 == u / 0x4_0000
  {
    var q, r := u / 0x4_0000, u % 0x4_0000;
    assert u == q * 0x4_0000 + r;
    assert u / 0x1000 == q * 0x40 + r / 0x1000;
  }

  /** The two bytes of a value from U+0080 to U+07FF. */
  lemma EncodeValue2(u: nat)
    requires 0x80 <= u < 0x800
    ensures EncodeValue(u) == [0xC0 + u / 0x40, 0x80 + u % 0x40]
  {
    assert ByteCount(u) == 2 && Written(u) == u;
    assert Shifted(u, 1) == u / 0x40;
    assert LeadByte(u / 0x40, 2) == 0xC0 + u / 0x40;
    assert Continuations(u, 1) == [ContinuationByte(u)];
  }

  /** The three bytes of a value from U+0800 to U+FFFF. */
  lemma EncodeValue3(u: nat)
    requires 0x800 <= u < 0x1_0000
    ensures EncodeValue(u) == [0xE0 + u / 0x1000, 0x80 + u / 0x40 % 0x40, 0x80 + u % 0x40]
  {
    assert ByteCount(u) == 3 && Written(u) == u;
    var x := u / 0x40 / 0x40;
    ShiftTwice(u);
    assert Shifted(u, 2) == Shifted(u / 0x40, 1) == Shifted(x, 0);
    assert LeadByte(x, 3) == 0xE0 + x;
    assert Continuations(u / 0x40, 1) == [ContinuationByte(u / 0x40)];
    assert Continuations(u, 2) == [ContinuationByte(u / 0x40), ContinuationByte(u)];
  }

  /** The four bytes of a value from U+10000 to U+10FFFF. */
  lemma EncodeValue4(u: nat)
    requires 0x1_0000 <= u <= 0x10_FFFF
    ensures EncodeValue(u)
      == [0xF0 + u / 0x4_0000, 0x80 + u / 0x1000 % 0x40, 0x80 + u / 0x40 % 0x40, 0x80 + u % 0x40]
  {
    assert ByteCount(u) == 4 && Written(u) == u;
    var y := u / 0x40 / 0x40;
    ShiftTwice(u);
    var x := y / 0x40;
    ShiftThrice(u);
    assert Shifted(u, 3) == Shifted(u / 0x40, 2) == Shifted(y, 1) == Shifted(x, 0);
    assert LeadByte(x, 4) == 0xF0 + x;
    assert Continuations(y, 1) == [ContinuationByte(y)];
    assert Continuations(u / 0x40, 2) == [ContinuationByte(y), ContinuationByte(u / 0x40)];
    assert Continuations(u, 3) == [ContinuationByte(y), ContinuationByte(u / 0x40), ContinuationByte(u)];
  }

  /** A text that is exactly one sequence, not a byte order mark, decodes to
      the units of that sequence's value, and the decoder's walk ends at its
      end. */
  lemma SingleSequence(e: seq<byte>, u: nat)
    requires 1 <= |e| <= 6 && ExtraBytes(e[0]) == |e| - 1 && !StartsWithBom(e)
    requires SequenceValue(e) == u
    ensures Framed(e) && Decode(e) == Some(Units(u))
  {
    assert LeadSequence(e) == e;
    assert e[|e|..] == [];
  }

  /** The accumulated value of two, three and four bytes, which never wraps
      around. */
  lemma Accumulate2(a: byte, b: byte)
    ensures Accumulate([a, b]) == a * 0x40 + b
  {
    assert [a, b][..1] == [a] && [a][..0] == [];
    assert Accumulate([a]) == a;
  }

  lemma Accumulate3(a: byte, b: byte, c: byte)
    ensures Accumulate([a, b, c]) == a * 0x1000 + b * 0x40 + c
  {
    assert [a, b, c][..2] == [a, b];
    Accumulate2(a, b);
  }

  lemma Accumulate4(a: byte, b: byte, c: byte, d: byte)
    ensures Accumulate([a, b, c, d]) == a * 0x4_0000 + b * 0x1000 + c * 0x40 + d
  {
    assert [a, b, c, d][..3] == [a, b, c];
    Accumulate3(a, b, c);
  }

  /** The two bytes of a value from U+0080 to U+07FF read back as one
      sequence of that value. */
  lemma ReadBack2(u: nat)
    requires 0x80 <= u < 0x800
    ensures var e := EncodeValue(u);
      ExtraBytes(e[0]) == 1 && !StartsWithBom(e) && SequenceValue(e) == u
  {
    EncodeValue2(u);
    Accumulate2(0xC0 + u / 0x40, 0x80 + u % 0x40);
  }

  /** A value below U+10000 in its three groups of bits. */
  lemma Digits3(u: nat)
    ensures u == u / 0x1000 * 0x1000 + u / 0x40 % 0x40 * 0x40 + u % 0x40
  {
    ShiftTwice(u);
    assert u / 0x40 == u / 0x1000 * 0x40 + u / 0x40 % 0x40;
  }

  /** A value in its four groups of bits. */
  lemma Digits4(u: nat)
    ensures u == u / 0x4_0000 * 0x4_0000 + u / 0x1000 % 0x40 * 0x1000 + u / 0x40 % 0x40 * 0x40 + u % 0x40
  {
    Digits3(u);
    ShiftThrice(u);
    assert u / 0x1000 == u / 0x4_0000 * 0x40 + u / 0x1000 % 0x40;
  }

  /** A sequence whose accumulated value is its offset plus `u` has the
      value `u`. */
  lemma ValueFromAccumulated(e: seq<byte>, u: nat)
    requires 1 <= |e| <= 6 && u < Mod32 && Accumulate(e) == Offset(|e| - 1) + u
    ensures SequenceValue(e) == u
  {
  }

  /** The three bytes of a value from U+0800 to U+FFFF read back as one
      sequence of that value, which is a byte order mark only for U+FEFF. */
  lemma ReadBack3(u: nat)
    requires 0x800 <= u < 0x1_0000 && u != 0xFEFF
    ensures var e := EncodeValue(u);
      ExtraBytes(e[0]) == 2 && !StartsWithBom(e) && SequenceValue(e) == u
  {
    EncodeValue3(u);
    Digits3(u);
    var q, m, r := u / 0x1000, u / 0x40 % 0x40, u % 0x40;
    Accumulate3(0xE0 + q, 0x80 + m, 0x80 + r);
    assert Accumulate(EncodeValue(u)) == (0xE0 + q) * 0x1000 + (0x80 + m) * 0x40 + 0x80 + r == Offset(2) + u;
    ValueFromAccumulated(EncodeValue(u), u);
  }

  /** The four bytes of a value from U+10000 to U+10FFFF read back as one
      sequence of that value. */
  lemma ReadBack4(u: nat)
    requires 0x1_0000 <= u <= 0x10_FFFF
    ensures var e := EncodeValue(u);
      ExtraBytes(e[0]) == 3 && !StartsWithBom(e) && SequenceValue(e) == u
  {
    EncodeValue4(u);
    Digits4(u);
    var q, m2, m, r := u / 0x4_0000, u / 0x1000 % 0x40, u / 0x40 % 0x40, u % 0x40;
    Accumulate4(0xF0 + q, 0x80 + m2, 0x80 + m, 0x80 + r);
    assert Accumulate(EncodeValue(u))
      == (0xF0 + q) * 0x4_0000 + (0x80 + m2) * 0x1000 + (0x80 + m) * 0x40 + 0x80 + r
      == Offset(3) + u;
    ValueFromAccumulated(EncodeValue(u), u);
  }

  /** Every value up to U+10FFFF other than U+FEFF, once encoded, decodes
      back to its code units: itself below U+10000, its surrogate pair above. */
  lemma ValueRoundTrip(u: nat)
    requires u <= 0x10_FFFF && u != 0xFEFF
    ensures Framed(EncodeValue(u)) && Decode(EncodeValue(u)) == Some(Units(u))
  {
    if u < 0x80 {
      assert EncodeValue(u) == [u] && [u][..0] == [];
      assert Accumulate([u]) == u;
    } else if u < 0x800 {
      ReadBack2(u);
    } else if u < 0x1_0000 {
      ReadBack3(u);
    } else {
      ReadBack4(u);
    }
    SingleSequence(EncodeValue(u), u);
  }

  /** `Utf8ToWideChar` undoes `Utf8FromWideChar`: code units other than
      U+FEFF, paired surrogates or not, encode to bytes that decode to the
      same units. */
  lemma {:induction false} RoundTrip(w: seq<uint16>)
    requires forall k :: 0 <= k < |w| ==> w[k] != 0xFEFF
    ensures Decode(Encode(w)) == Some(w)
    decreases |w|
  {
    if w != [] {
      var taken, u := UnitsTaken(w), FirstValue(w);
      var rest := w[taken..];
      assert u != 0xFEFF by {
        if taken == 1 {
          assert u == w[0];
        }
      }
      assert Encode(w) == EncodeValue(u) + Encode(rest);
      ValueRoundTrip(u);
      RoundTrip(rest);
      DecodeConcat(EncodeValue(u), Encode(rest));
      assert Units(u) == w[..taken] by {
        if taken == 2 {
          UnitsCombine(w[0], w[1]);
        }
      }
      assert w[..taken] + rest == w;
    }
  }

  /** The byte order mark is the one unit that does not come back: it
      encodes to the mark, which the decoder drops. */
  lemma ByteOrderMarkDropped()
    ensures Encode([0xFEFF]) == Bom
    ensures Decode(Encode([0xFEFF])) == Some([])
  {
    EncodeValue3(0xFEFF);
    assert [0xFEFF][1..] == [];
  }

  /** A value other than zero encodes to bytes none of which is zero. */
  lemma ValueNonZero(u: nat)
    requires 0 < u <= 0x10_FFFF
    ensures forall k :: 0 <= k < |EncodeValue(u)| ==> EncodeValue(u)[k] != 0
  {
    if u < 0x80 {
      assert EncodeValue(u) == [u];
    } else if u < 0x800 {
      EncodeValue2(u);
    } else if u < 0x1_0000 {
      EncodeValue3(u);
    } else {
      EncodeValue4(u);
    }
  }

  /** Units none of which is zero encode to bytes none of which is zero, so
      the string `Utf8FromWideChar` returns ends at its terminator. */
  lemma {:induction false} EncodeNonZero(w: seq<uint16>)
    requires forall k :: 0 <= k < |w| ==> w[k] != 0
    ensures forall k :: 0 <= k < |Encode(w)| ==> Encode(w)[k] != 0
    decreases |w|
  {
    if w != [] {
      var taken, u := UnitsTaken(w), FirstValue(w);
      assert u != 0 by {
        if taken == 1 {
          assert u == w[0];
        }
      }
      ValueNonZero(u);
      EncodeNonZero(w[taken..]);
    }
  }
}
