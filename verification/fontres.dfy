/** Font resources and font styles returned by the host, and the font
    attribute tests (pic/fontres.go, flag values from pic/enchapi.h). */
module FontResources {
  import opened Prelude
  import opened Colors

  /** A combination of `ENCH_Font*` flags (Go `uint16`). */
  type FontAttribute = bv16

  const BoldFlag: FontAttribute := 0x0001
  const ItalicFlag: FontAttribute := 0x0002
  const EmulateBoldFlag: FontAttribute := 0x0004
  const EmulateItalicFlag: FontAttribute := 0x0008
  const EmulateTypefaceFlag: FontAttribute := 0x0010

  /** A parsed TrueType font; its contents are not interpreted here. */
  datatype Truetype = Truetype(data: seq<byte>)

  /** A font resource: typeface, attribute flags, font file name and the
      TrueType font loaded from that file, if any. */
  datatype FontResource = FontResource(
    typeface: string,
    attributes: FontAttribute,
    filename: string,
    truetype: Option<Truetype>)

  /** The zero value, used when the resolver cannot supply a resource. */
  const EmptyFontResource: FontResource := FontResource("", 0, "", None)

  /** A resolved font: the resource plus the character colour and underline. */
  datatype FontStyle = FontStyle(resource: FontResource, color: Color, underline: bool)

  /** Bit `k` of the flags, counting from the least significant. */
  predicate HasBit(a: FontAttribute, k: nat)
    requires k < 16
  {
    (a >> k) & 1 == 1
  }

  predicate Bold(fr: FontResource)
    ensures Bold(fr) <==> HasBit(fr.attributes, 0)
  {
    fr.attributes & BoldFlag != 0
  }

  predicate Italic(fr: FontResource)
    ensures Italic(fr) <==> HasBit(fr.attributes, 1)
  {
    fr.attributes & ItalicFlag != 0
  }

  predicate EmulateBold(fr: FontResource)
    ensures EmulateBold(fr) <==> HasBit(fr.attributes, 2)
  {
    fr.attributes & EmulateBoldFlag != 0
  }

  predicate EmulateItalic(fr: FontResource)
    ensures EmulateItalic(fr) <==> HasBit(fr.attributes, 3)
  {
    fr.attributes & EmulateItalicFlag != 0
  }

  predicate EmulateTypeface(fr: FontResource)
    ensures EmulateTypeface(fr) <==> HasBit(fr.attributes, 4)
  {
    fr.attributes & EmulateTypefaceFlag != 0
  }

  /** Each test reads its own flag only: flipping any other bit leaves it
      unchanged. */
  lemma OwnBitOnly(fr: FontResource, k: nat)
    requires k < 16
    ensures var fr' := fr.(attributes := fr.attributes ^ (1 << k));
      (k != 0 ==> Bold(fr') == Bold(fr)) &&
      (k != 1 ==> Italic(fr') == Italic(fr)) &&
      (k != 2 ==> EmulateBold(fr') == EmulateBold(fr)) &&
      (k != 3 ==> EmulateItalic(fr') == EmulateItalic(fr)) &&
      (k != 4 ==> EmulateTypeface(fr') == EmulateTypeface(fr))
  {
  }

  /** With all five flags set, all five tests hold. */
  lemma AllFlags(fr: FontResource)
    requires fr.attributes == BoldFlag | ItalicFlag | EmulateBoldFlag | EmulateItalicFlag | EmulateTypefaceFlag
    ensures Bold(fr) && Italic(fr) && EmulateBold(fr) && EmulateItalic(fr) && EmulateTypeface(fr)
  {
  }

  /** `loadTruetype` does nothing when a font is already loaded or there is
      no file to load it from. */
  predicate SkipsTruetypeLoad(fr: FontResource)
  {
    fr.truetype.Some? || fr.filename == ""
  }

  /** `FontResource.loadTruetype`, with the outcome of reading and parsing
      the file supplied by the caller (`file`, None on a read or parse
      error). Returns the new resource and whether no error occurred. */
  function LoadTruetype(fr: FontResource, file: Option<Truetype>): (r: (FontResource, bool))
    ensures SkipsTruetypeLoad(fr) ==> r == (fr, true)
    ensures r.0.(truetype := fr.truetype) == fr
    ensures fr.truetype.Some? ==> r.0.truetype == fr.truetype
    ensures r.1 ==> SkipsTruetypeLoad(r.0)
  {
    if fr.truetype.None? then
      if fr.filename == "" then (fr, true)
      else (fr.(truetype := file), file.Some?)
    else (fr, true)
  }
}
