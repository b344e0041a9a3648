/** Data styles: a type name and settings per data value (pic/datastyle.go,
    and the text form read by `loadDataStyle` in pic/config.go). */
module Styles {
  import opened Prelude
  import opened Strings
  import opened Values
  import opened Settings

  /** The style of one data value. A style without settings is the same
      whether Go holds a nil or an empty map: lookups find nothing. */
  datatype DataStyle = DataStyle(typ: string, settings: map<string, Value>)

  /** The zero style: no type, no settings. */
  const EmptyStyle: DataStyle := DataStyle("", map[])

  /** Styles per set and value. */
  type DataStyles = seq<seq<DataStyle>>

  /** `DataStyles.At`: the style at a position, None (Go nil) when the row
      or column is negative or out of range. */
  function At(ds: DataStyles, row: int, col: int): (r: Option<DataStyle>)
    ensures r.Some? <==> 0 <= row < |ds| && 0 <= col < |ds[row]|
    ensures r.Some? ==> r.value == ds[row][col]
  {
    if row < 0 || row >= |ds| || col < 0 || col >= |ds[row]| then None
    else Some(ds[row][col])
  }

  /** `DataStyles.Setting`: the named setting of a position; "" when there is
      no style there or it lacks the name. */
  function Setting(ds: DataStyles, row: int, col: int, name: string): (v: Value)
    ensures At(ds, row, col).None? ==> v == ""
    ensures At(ds, row, col).Some? && name in ds[row][col].settings ==> v == ds[row][col].settings[name]
    ensures At(ds, row, col).Some? && name !in ds[row][col].settings ==> v == ""
  {
    match At(ds, row, col)
    case None => ""
    case Some(style) => if name in style.settings then style.settings[name] else ""
  }

  /** `DataStyles.CustomFormat`: the `customFmt` setting of a position whose
      style type is exactly "custom"; "" otherwise. */
  function CustomFormat(ds: DataStyles, row: int, col: int): (v: Value)
    ensures (At(ds, row, col).None? || ds[row][col].typ != "custom") ==> v == ""
  {
    match At(ds, row, col)
    case None => ""
    case Some(style) =>
      if style.typ != "custom" then ""
      else if "customFmt" in style.settings then style.settings["customFmt"]
      else ""
  }

  /** A custom format is the `customFmt` setting of a custom style. */
  lemma CustomFormatIsSetting(ds: DataStyles, row: int, col: int)
    ensures CustomFormat(ds, row, col) ==
      if At(ds, row, col).Some? && ds[row][col].typ == "custom"
      then Setting(ds, row, col, "customFmt") else ""
  {
  }

  /** Setting values with every symbol reference resolved. */
  function Resolved(symbols: Table, t: Table): (r: map<string, Value>)
    ensures r.Keys == t.Keys
    ensures forall k :: k in t ==> r[k] == LookupSymbol(symbols, t[k])
  {
    map k | k in t :: LookupSymbol(symbols, t[k])
  }

  /** What `loadDataStyle` reads from a value: no `:` gives the empty style;
      otherwise the type is the text before the first `:`, and a non-empty
      rest is a settings table whose first byte is its line separator, each
      setting symbol-resolved. */
  function DataStyleOf(symbols: Table, v: Value): (s: DataStyle)
    ensures ':' !in v ==> s == EmptyStyle
    ensures ':' in v ==> ':' !in s.typ && s.typ + ":" <= v
  {
    match SplitAtFirst(v, ':')
    case None => EmptyStyle
    case Some(parts) =>
      var rest := parts.1;
      DataStyle(parts.0, if rest == [] then map[] else Resolved(symbols, SettingsOf(rest[1..], rest[0])))
  }

  /** The styles of one set, one per value. */
  function RowStyles(symbols: Table, vals: seq<Value>): (row: seq<DataStyle>)
    ensures |row| == |vals|
    ensures forall j :: 0 <= j < |vals| ==> row[j] == DataStyleOf(symbols, vals[j])
  {
    seq(|vals|, j requires 0 <= j < |vals| => DataStyleOf(symbols, vals[j]))
  }

  /** The styles of a dataset, one per value, in the same shape. */
  function StylesOf(symbols: Table, ds: seq<seq<Value>>): (styles: DataStyles)
    ensures |styles| == |ds|
    ensures forall i :: 0 <= i < |ds| ==> styles[i] == RowStyles(symbols, ds[i])
  {
    seq(|ds|, i requires 0 <= i < |ds| => RowStyles(symbols, ds[i]))
  }

  /** Reading a style text: the type before the first `:`, then the settings. */
  lemma StyleText(symbols: Table, typ: string, rest: string)
    requires ':' !in typ
    ensures DataStyleOf(symbols, typ + ":" + rest) ==
      DataStyle(typ, if rest == [] then map[] else Resolved(symbols, SettingsOf(rest[1..], rest[0])))
  {
    SplitAtFirstOf(typ, rest, ':');
  }

  /** Writing a type and settings with distinct keys as a style text
      (type, `:`, separator, then `key=value` lines) and reading it back
      gives that type and those settings, each symbol-resolved. */
  lemma StyleRoundTrip(symbols: Table, typ: string, sep: char, kvs: seq<(string, string)>)
    requires ':' !in typ && |kvs| > 0 && PlainSettings(kvs, sep)
    ensures var s := DataStyleOf(symbols, typ + ":" + [sep] + Rendered(kvs, sep));
      s.typ == typ &&
      (forall k :: k in s.settings <==> exists i :: 0 <= i < |kvs| && kvs[i].0 == k) &&
      (forall i :: 0 <= i < |kvs| ==> s.settings[kvs[i].0] == LookupSymbol(symbols, kvs[i].1))
  {
    var rest := [sep] + Rendered(kvs, sep);
    assert rest[1..] == Rendered(kvs, sep) && rest[0] == sep;
    StyleText(symbols, typ, rest);
    ConcatAssoc(typ, ":", [sep] + Rendered(kvs, sep));
    ConcatAssoc(typ + ":", [sep], Rendered(kvs, sep));
    var m := SettingsOf(Rendered(kvs, sep), sep);
    assert DataStyleOf(symbols, typ + ":" + [sep] + Rendered(kvs, sep)) == DataStyle(typ, Resolved(symbols, m));
    LoadRendered(kvs, sep);
  }
}
