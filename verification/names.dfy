/** The printable names of the API enumerations: a fixed table per
    enumeration, and "Unknown (n)" with `n` in decimal for every other value. */
module Names {
  import opened Prelude
  import opened Decimal

  /** The fallback name of a value no table knows. */
  function UnknownName(n: int): string
  {
    "Unknown (" + DecimalText(n) + ")"
  }

  /** Whether a name could be a fallback: those end in a parenthesis. */
  predicate LooksUnknown(s: string)
  {
    s != [] && s[|s| - 1] == ')'
  }

  /** The name of `n` in a table, or the fallback. Every enumeration's
      known values run from 0 up, so a table is the sequence of their names
      in value order. */
  function NameOf(table: seq<string>, n: int32): (s: string)
    ensures 0 <= n < |table| ==> s == table[n]
    ensures !(0 <= n < |table|) ==> LooksUnknown(s)
  {
    if 0 <= n < |table| then table[n]
    else var s := UnknownName(n); assert s[|s| - 1] == ')'; s
  }

  /** A table whose names are pairwise distinct and never look like the fallback. */
  predicate Unambiguous(table: seq<string>)
  {
    Distinct(table) && forall i :: 0 <= i < |table| ==> !LooksUnknown(table[i])
  }

  /** With an unambiguous table, different values always print differently,
      known and unknown alike. */
  lemma NameOfInjective(table: seq<string>, a: int32, b: int32)
    requires Unambiguous(table)
    requires NameOf(table, a) == NameOf(table, b)
    ensures a == b
  {
    if !(0 <= a < |table|) && !(0 <= b < |table|) {
      var s := NameOf(table, a);
      assert s == UnknownName(a) && s == UnknownName(b);
      assert DecimalText(a) == s[9..|s| - 1];
      assert DecimalText(b) == s[9..|s| - 1];
      DecimalTextInjective(a, b);
    }
  }

  // API return codes (ENCHRC).
  const OK: int32 := 0
  const Failed: int32 := 1
  const NotImplemented: int32 := 2
  const InvalidFilePath: int32 := 3
  const MissingProperty: int32 := 4
  const InvalidValue: int32 := 5
  const UnresolvedFont: int32 := 6
  const InvalidDataString: int32 := 7
  const EmptyDataString: int32 := 8
  const JavaException: int32 := 9
  const FailedToCreateJavaVM: int32 := 10

  const ReturnCodes: seq<string> := [
    "OK", "Failed", "NotImplemented", "InvalidFilePath", "MissingProperty", "InvalidValue",
    "UnresolvedFont", "InvalidDataString", "EmptyDataString", "JavaException", "FailedToCreateJavaVM"]

  // Image formats.
  const BMP: int32 := 0
  const PNG: int32 := 1
  const JPG: int32 := 2
  const SVG: int32 := 3

  const ImageFormats: seq<string> := ["BMP", "PNG", "JPG", "SVG"]

  // Colour spaces.
  const Named: int32 := 0
  const RGB: int32 := 1
  const CMYK: int32 := 2

  const ColorSpaces: seq<string> := ["Named", "RGB", "CMYK"]

  /** `ReturnCode.String`: the eleven codes 0 to 10 have their own names. */
  function ReturnCodeName(rc: int32): (s: string)
    ensures 0 <= rc <= 10 ==> s == ReturnCodes[rc]
    ensures !(0 <= rc <= 10) ==> s == UnknownName(rc)
  {
    NameOf(ReturnCodes, rc)
  }

  /** `ImageFormat.String`: the formats 0 to 3 have their own names. */
  function ImageFormatName(f: int32): (s: string)
    ensures 0 <= f <= 3 ==> s == ImageFormats[f]
    ensures !(0 <= f <= 3) ==> s == UnknownName(f)
  {
    NameOf(ImageFormats, f)
  }

  /** `ColorSpace.String`: the spaces 0 to 2 have their own names. */
  function ColorSpaceName(cs: int32): (s: string)
    ensures 0 <= cs <= 2 ==> s == ColorSpaces[cs]
    ensures !(0 <= cs <= 2) ==> s == UnknownName(cs)
  {
    NameOf(ColorSpaces, cs)
  }

  /** A table of names is unambiguous when its names of equal length
      differ in their first letter and none ends in a parenthesis. */
  lemma UnambiguousByShape(table: seq<string>)
    requires forall i :: 0 <= i < |table| ==> table[i] != [] && table[i][|table[i]| - 1] != ')'
    requires forall i, j :: 0 <= i < j < |table| && |table[i]| == |table[j]| ==> table[i][0] != table[j][0]
    ensures Unambiguous(table)
  {
  }

  /** Distinct return codes print differently. */
  lemma ReturnCodeNameInjective(a: int32, b: int32)
    requires ReturnCodeName(a) == ReturnCodeName(b)
    ensures a == b
  {
    UnambiguousByShape(ReturnCodes);
    NameOfInjective(ReturnCodes, a, b);
  }

  /** Distinct image formats print differently. */
  lemma ImageFormatNameInjective(a: int32, b: int32)
    requires ImageFormatName(a) == ImageFormatName(b)
    ensures a == b
  {
    UnambiguousByShape(ImageFormats);
    NameOfInjective(ImageFormats, a, b);
  }

  /** Distinct colour spaces print differently. */
  lemma ColorSpaceNameInjective(a: int32, b: int32)
    requires ColorSpaceName(a) == ColorSpaceName(b)
    ensures a == b
  {
    UnambiguousByShape(ColorSpaces);
    NameOfInjective(ColorSpaces, a, b);
  }

  /** The printed names of a few values, known and unknown. */
  lemma NameExamples()
    ensures ReturnCodeName(OK) == "OK"
    ensures ReturnCodeName(FailedToCreateJavaVM) == "FailedToCreateJavaVM"
    ensures ReturnCodeName(999) == "Unknown (999)"
    ensures ImageFormatName(SVG) == "SVG"
    ensures ImageFormatName(999) == "Unknown (999)"
    ensures ColorSpaceName(CMYK) == "CMYK"
    ensures ColorSpaceName(-1) == "Unknown (-1)"
  {
  }
}
