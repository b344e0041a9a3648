/** A font reference read from a configuration value (pic/font.go). */
module Fonts {
  import opened Prelude
  import opened Ascii
  import opened Decimal
  import opened Values
  import opened Guids
  import opened Colors
  import opened Datasets

  /** A font: either a reference to a host font style (`isStyle`), or a
      font resource together with a character colour and underline. */
  datatype Font = Font(isStyle: bool, guid: Guid, color: Color, underline: bool)

  /** The zero font, which asks the host for its default font. */
  const DefaultFont: Font := Font(false, ZeroGuid, ZeroColor, false)

  /** The default font is the zero value: not a style, the all-zero
      identifier, the zero colour and no underline. */
  lemma DefaultFontIsZero()
    ensures !DefaultFont.isStyle && !DefaultFont.underline && DefaultFont.color == ZeroColor
    ensures forall i :: 0 <= i < 16 ==> DefaultFont.guid[i] == 0
  {
  }

  /** A font value starts with ESC `f`: a tag in the value scheme whose
      letter names none of the five data types, so its text is what follows
      the tag. */
  predicate HasFontTag(v: Value)
    ensures HasFontTag(v) <==> Tagged(v) && v[1] == 'f'
    ensures HasFontTag(v) ==> Type(v) == NotSet && Text(v) == v[2..]
  {
    |v| >= 2 && v[0] == ESC && v[1] == 'f'
  }

  /** After the tag, a `$` followed by at least one more byte marks a
      style reference. */
  predicate IsStyleRef(v: Value)
    ensures IsStyleRef(v) <==> HasFontTag(v) && var s := v[2..]; |s| > 1 && s[0] == '$'
  {
    HasFontTag(v) && |v| > 3 && v[2] == '$'
  }

  /** The identifier text of a font value: what follows the tag and the
      style marker. */
  function GuidTextOf(v: Value): (s: string)
    requires HasFontTag(v)
    ensures IsStyleRef(v) ==> v == [ESC, 'f', '$'] + s
    ensures !IsStyleRef(v) ==> v == [ESC, 'f'] + s
  {
    if IsStyleRef(v) then v[3..] else v[2..]
  }

  /** The number of sets a font dataset must have: one for a style
      reference, three (identifier, colour, underline) for a resource. */
  function SetCount(isStyle: bool): nat
  {
    if isStyle then 1 else 3
  }

  /** What `Font.parse` leaves in a receiver holding `f`, and whether it
      succeeded. Fields are set in order (style flag, identifier, colour,
      underline), and a failure leaves the fields set so far. */
  function ParseFont(f: Font, ds: Dataset): (r: (Font, bool))
    requires WellFormed(ds)
    ensures !HasFontTag(ds[0][0]) ==> r == (f, false)
    ensures HasFontTag(ds[0][0]) ==> r.0.isStyle == IsStyleRef(ds[0][0])
    ensures r.1 <==>
      HasFontTag(ds[0][0]) && |ds| == SetCount(IsStyleRef(ds[0][0])) &&
      IsGuidText(GuidTextOf(ds[0][0])) &&
      (IsStyleRef(ds[0][0]) || (ParseColor(ds[1]).Some? && ParseBool(ds[2][0]).Some?))
    ensures r.1 ==> ParseGuid(GuidTextOf(ds[0][0])) == Some(r.0.guid)
    ensures r.1 && !r.0.isStyle ==>
      Some(r.0.color) == ParseColor(ds[1]) && Some(r.0.underline) == ParseBool(ds[2][0])
    ensures r.0.isStyle ==> r.0.color == f.color && r.0.underline == f.underline
  {
    var v := ds[0][0];
    if !HasFontTag(v) then (f, false)
    else
      var isStyle := IsStyleRef(v);
      var f1 := f.(isStyle := isStyle);
      if |ds| != SetCount(isStyle) then (f1, false)
      else
        var (g, ok) := ParseInto(f1.guid, GuidTextOf(v));
        var f2 := f1.(guid := g);
        if !ok then (f2, false)
        else if isStyle then (f2, true)
        else
          match ParseColor(ds[1])
          case None => (f2, false)
          case Some(c) =>
            var f3 := f2.(color := c);
            match ParseBool(ds[2][0])
            case None => (f3.(underline := false), false)
            case Some(u) => (f3.(underline := u), true)
  }

  /** `Font.parse`, step by step on a receiver holding `f`; the identifier
      is parsed in place into a copy of the receiver's bytes. */
  method Parse(f: Font, ds: Dataset) returns (f': Font, ok: bool)
    requires WellFormed(ds)
    ensures (f', ok) == ParseFont(f, ds)
  {
    var v := ds[0][0];
    if |v| < 2 || v[0] != ESC || v[1] != 'f' {
      return f, false;
    }
    var s := v[2..];
    f' := f;
    if |s| > 1 && s[0] == '$' {
      f' := f'.(isStyle := true);
      s := s[1..];
    } else {
      f' := f'.(isStyle := false);
    }
    if (f'.isStyle && |ds| != 1) || (!f'.isStyle && |ds| != 3) {
      return f', false;
    }
    var g := new byte[16](i => if 0 <= i < 16 then f'.guid[i] else 0);
    assert g[..] == f'.guid;
    ok := Guids.Parse(g, s);
    f' := f'.(guid := g[..]);
    if !ok {
      return;
    }
    if !f'.isStyle {
      var c;
      c, ok := Colors.Parse(f'.color, ds[1]);
      f' := f'.(color := c);
      if !ok {
        return;
      }
      var u := ParseBool(ds[2][0]);
      f' := f'.(underline := if u.Some? then u.value else false);
      if u.None? {
        return f', false;
      }
    }
    return f', true;
  }

  /** A style reference to the rendering of an identifier reads back as
      that identifier, leaving colour and underline alone. */
  lemma StyleFontRoundTrip(f: Font, g: Guid)
    ensures ParseFont(f, [[[ESC, 'f', '$'] + HexText(g)]]) == (f.(isStyle := true, guid := g), true)
  {
    GuidRoundTrip(g);
    assert ([ESC, 'f', '$'] + HexText(g))[3..] == HexText(g);
  }

  /** A resource font written as identifier, colour set and underline text
      reads back as exactly that font, whatever the receiver held. */
  lemma ResourceFontRoundTrip(f: Font, g: Guid, colorSet: seq<Value>, underline: Value)
    requires ParseColor(colorSet).Some? && ParseBool(underline).Some?
    ensures ParseFont(f, [[[ESC, 'f'] + HexText(g)], colorSet, [underline]])
      == (Font(false, g, ParseColor(colorSet).value, ParseBool(underline).value), true)
  {
    GuidRoundTrip(g);
    HexTextAt(g, 0);
    var v := [ESC, 'f'] + HexText(g);
    assert v[2..] == HexText(g);
    assert v[2] == HexChar(g[0] / 16);
  }
}
