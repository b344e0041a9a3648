/** The chart configuration (pic/config.go): property and symbol tables
    read once, accessors that fall back to defaults, the data properties,
    and per-identifier caches of the host's font answers. */
module Configs {
  import opened Prelude
  import opened Ascii
  import opened Strings
  import opened Decimal
  import opened Guids
  import opened Settings
  import opened FontResources
  import opened Resolvers
  import Values
  import Datasets
  import Colors
  import Fonts
  import Styles
  import Charts

  /** Distinct elements are as many as the set they make. */
  lemma {:induction false} DistinctCard<T>(s: seq<T>)
    requires Distinct(s)
    ensures |set x | x in s| == |s|
  {
    if s != [] {
      var init := s[..|s| - 1];
      DistinctCard(init);
      assert (set x | x in s) == (set x | x in init) + {s[|s| - 1]};
      assert s[|s| - 1] !in init;
    }
  }

  /** A value a plain-regime dataset text carries unchanged. */
  lemma DecimalTextPlain(n: int)
    ensures Datasets.PlainValue(DecimalText(n), Datasets.Plain)
  {
    DecimalTextChars(n);
  }

  /** A cache filled by asking once per key, in the order of `calls`:
      the keys are exactly those asked about, none twice, each holding its
      answer. */
  ghost predicate Cached<V>(cache: map<Guid, V>, calls: seq<Guid>, answer: Guid -> V)
  {
    Distinct(calls) &&
    (forall g :: g in cache <==> g in calls) &&
    (forall g :: g in cache ==> cache[g] == answer(g))
  }

  /** Asking about a key not yet cached and storing the answer keeps the
      cache in step with the calls. */
  lemma CachedAdd<V>(cache: map<Guid, V>, calls: seq<Guid>, answer: Guid -> V, g: Guid)
    requires Cached(cache, calls, answer) && g !in cache
    ensures Cached(cache[g := answer(g)], calls + [g], answer)
  {
    var calls' := calls + [g];
    forall i, j | 0 <= i < j < |calls'| ensures calls'[i] != calls'[j] {
      if j == |calls| {
        assert calls'[i] == calls[i];
      }
    }
  }

  /** A cache holds as many entries as calls were made to fill it. */
  lemma CachedSize<V>(cache: map<Guid, V>, calls: seq<Guid>, answer: Guid -> V)
    requires Cached(cache, calls, answer)
    ensures |cache| == |calls|
  {
    DistinctCard(calls);
    assert cache.Keys == set x | x in calls;
  }

  class Config {
    const resolver: Resolver
    const properties: Table
    const symbols: Table
    /** What reading and parsing a font file gives: the truetype font, or
        None on a read or parse error. */
    const fontFiles: string -> Option<Truetype>
    var fontResources: map<Guid, FontResource>
    var fontStyles: map<Guid, FontStyle>
    /** How many lookups the resolver had answered when this configuration
        was made; the later ones are this configuration's. */
    ghost const resourceBase: nat
    ghost const styleBase: nat

    /** The resource cached for an identifier: the host's answer with its
        truetype font loaded, or the empty resource when the host fails. */
    function ResourceFor(g: Guid): (fr: FontResource)
      ensures resolver.resourceFor(g).None? ==> fr == EmptyFontResource
      ensures resolver.resourceFor(g).Some? ==>
        var a := resolver.resourceFor(g).value;
        && fr.(truetype := a.truetype) == a
        && (SkipsTruetypeLoad(a) ==> fr == a)
        && (!SkipsTruetypeLoad(a) ==> fr.truetype == fontFiles(a.filename))
    {
      match resolver.resourceFor(g)
      case None => EmptyFontResource
      case Some(fr) => LoadTruetype(fr, fontFiles(fr.filename)).0
    }

    /** The style cached for an identifier: the host's answer with its
        truetype font loaded, or an empty resource in the default colour
        when the host fails. */
    function StyleFor(g: Guid): (fs: FontStyle)
      ensures resolver.styleFor(g).None? ==> fs == FontStyle(EmptyFontResource, Colors.DefaultColor, false)
      ensures resolver.styleFor(g).Some? ==>
        var a := resolver.styleFor(g).value;
        && fs.color == a.color && fs.underline == a.underline
        && fs.resource.(truetype := a.resource.truetype) == a.resource
        && (SkipsTruetypeLoad(a.resource) ==> fs == a)
        && (!SkipsTruetypeLoad(a.resource) ==> fs.resource.truetype == fontFiles(a.resource.filename))
    {
      match resolver.styleFor(g)
      case None => FontStyle(EmptyFontResource, Colors.DefaultColor, false)
      case Some(fs) => fs.(resource := LoadTruetype(fs.resource, fontFiles(fs.resource.filename)).0)
    }

    /** The caches hold exactly the identifiers this configuration has
        asked the host about, each asked once, with the answer stored. */
    ghost predicate Valid()
      reads this, resolver
    {
      resourceBase <= |resolver.resourceCalls| && styleBase <= |resolver.styleCalls| &&
      Cached(fontResources, resolver.resourceCalls[resourceBase..], ResourceFor) &&
      Cached(fontStyles, resolver.styleCalls[styleBase..], StyleFor)
    }

    /** `newConfig`: reads the property and symbol tables, one setting per
        line, and starts with empty caches. */
    constructor(r: Resolver, props: string, syms: string, fontFiles: string -> Option<Truetype>)
      ensures Valid()
      ensures resolver == r && this.fontFiles == fontFiles
      ensures properties == SettingsOf(props, LF) && symbols == SettingsOf(syms, LF)
      ensures fontResources == map[] && fontStyles == map[]
    {
      var p := LoadSettings(props, LF);
      var s := LoadSettings(syms, LF);
      resolver := r;
      properties := p;
      symbols := s;
      this.fontFiles := fontFiles;
      fontResources := map[];
      fontStyles := map[];
      resourceBase := |r.resourceCalls|;
      styleBase := |r.styleCalls|;
      assert r.resourceCalls[|r.resourceCalls|..] == [] && r.styleCalls[|r.styleCalls|..] == [];
    }

    /** `Config.Value`: a property's text with a symbol reference resolved;
        "" for an absent property. */
    function Value(name: string): (v: Values.Value)
      ensures name !in properties ==> v == ""
      ensures name in properties ==> v == LookupSymbol(symbols, properties[name])
    {
      if name in properties then LookupSymbol(symbols, properties[name]) else ""
    }

    /** `Config.ResolveInteger`: the host's integer for a value; 0 for the
        empty value and when the host reports an error. */
    function ResolveInteger(v: Values.Value): (n: int32)
      ensures v == "" || resolver.integer(v).None? ==> n == 0
      ensures v != "" && resolver.integer(v).Some? ==> n == resolver.integer(v).value
    {
      if v == "" then 0
      else match resolver.integer(v)
        case None => 0
        case Some(i) => i
    }

    /** `Config.Integer`: a property as an integer; 0 when its value is
        empty (absent, empty, or a symbol resolving to "") or when the host
        cannot read it. */
    function Integer(name: string): (n: int32)
      ensures Value(name) == "" ==> n == 0
      ensures resolver.integer(Value(name)).None? ==> n == 0
      ensures Value(name) != "" && resolver.integer(Value(name)).Some? ==>
        n == resolver.integer(Value(name)).value
    {
      ResolveInteger(Value(name))
    }

    /** What `Config.Dataset` returns: the tokenized property, or one set
        holding one empty value when the property is absent or empty. */
    function PropertyDataset(name: string): (ds: Datasets.Dataset)
      ensures Datasets.WellFormed(ds)
      ensures name !in properties || properties[name] == "" ==> ds == [[""]]
      ensures name in properties && properties[name] != "" ==>
        ds == Datasets.Tokenize(symbols, properties[name])
    {
      if name in properties && properties[name] != "" then Datasets.Tokenize(symbols, properties[name])
      else [[""]]
    }

    /** `loadDataset`: picks the delimiters, splits the sets, and reads
        the values of each. */
    method LoadDataset(input: string) returns (ds: Datasets.Dataset)
      ensures ds == Datasets.Tokenize(symbols, input)
    {
      var body := input;
      var setSep, valSep := '|', ',';
      if input != [] && input[0] == SOH {
        setSep, valSep := RS, US;
        body := input[1..];
      }
      var sets := Split(body, setSep);
      var out: seq<seq<Values.Value>> := seq(|sets|, _ => []);
      for i := 0 to |sets|
        invariant |out| == |sets|
        invariant forall k :: 0 <= k < i ==> out[k] == Datasets.ValuesOf(symbols, sets[k], valSep)
      {
        var row := LoadSet(sets[i], valSep);
        out := out[i := row];
      }
      assert Datasets.DelimitersOf(input) == Datasets.Delimiters(setSep, valSep);
      assert Datasets.Body(input) == body;
      ds := out;
    }

    /** The values of one set in `loadDataset`: each token is resolved and
        its replacement's pieces appended one by one. */
    method LoadSet(text: string, valSep: char) returns (row: seq<Values.Value>)
      ensures row == Datasets.ValuesOf(symbols, text, valSep)
    {
      var vals := Split(text, valSep);
      row := [];
      for j := 0 to |vals|
        invariant row == Datasets.Expand(symbols, vals[..j], valSep)
      {
        var pieces := Split(LookupSymbol(symbols, vals[j]), valSep);
        row := AppendAll(row, pieces);
        Datasets.ExpandStep(symbols, vals, j, valSep);
      }
      assert vals[..|vals|] == vals;
    }

    /** The inner loop of `loadDataset`: the pieces appended one by one. */
    static method AppendAll(row: seq<Values.Value>, pieces: seq<Values.Value>) returns (row': seq<Values.Value>)
      ensures row' == row + pieces
    {
      row' := row;
      for m := 0 to |pieces|
        invariant row' == row + pieces[..m]
      {
        row' := row' + [pieces[m]];
      }
      assert pieces[..|pieces|] == pieces;
    }

    /** `Config.Dataset`. */
    method Dataset(name: string) returns (ds: Datasets.Dataset)
      ensures ds == PropertyDataset(name)
    {
      if name in properties && properties[name] != "" {
        ds := LoadDataset(properties[name]);
      } else {
        ds := [[""]];
      }
    }

    /** What `loadColor` returns: the colour of the first set of the
        tokenized text, or the default colour when that set does not parse. */
    function ColorOf(val: string): (c: Colors.Color)
      ensures Colors.ParseColor(Datasets.Tokenize(symbols, val)[0]).None? ==> c == Colors.DefaultColor
      ensures Colors.ParseColor(Datasets.Tokenize(symbols, val)[0]).Some? ==>
        c == Colors.ParseColor(Datasets.Tokenize(symbols, val)[0]).value
    {
      match Colors.ParseColor(Datasets.Tokenize(symbols, val)[0])
      case None => Colors.DefaultColor
      case Some(c) => c
    }

    /** `loadColor`: parses into a zero colour, the default on failure. */
    method LoadColor(val: string) returns (c: Colors.Color)
      ensures c == ColorOf(val)
    {
      var ds := LoadDataset(val);
      var ok;
      c, ok := Colors.Parse(Colors.ZeroColor, ds[0]);
      if !ok {
        return Colors.DefaultColor;
      }
    }

    /** `Config.Color`: a property's colour; the default colour when the
        property is absent, empty or does not parse. */
    method Color(name: string) returns (c: Colors.Color)
      ensures c == if name in properties && properties[name] != "" then ColorOf(properties[name])
                   else Colors.DefaultColor
    {
      if name in properties && properties[name] != "" {
        c := LoadColor(properties[name]);
      } else {
        c := Colors.DefaultColor;
      }
    }

    /** What `loadFont` returns: the font parsed from the tokenized text
        into a zero font, or the default font when parsing fails. */
    function FontOf(val: string): (f: Fonts.Font)
      ensures !Fonts.ParseFont(Fonts.DefaultFont, Datasets.Tokenize(symbols, val)).1 ==> f == Fonts.DefaultFont
      ensures Fonts.ParseFont(Fonts.DefaultFont, Datasets.Tokenize(symbols, val)).1 ==>
        f == Fonts.ParseFont(Fonts.DefaultFont, Datasets.Tokenize(symbols, val)).0
    {
      var r := Fonts.ParseFont(Fonts.DefaultFont, Datasets.Tokenize(symbols, val));
      if r.1 then r.0 else Fonts.DefaultFont
    }

    /** A colour written as its four attributes in plain dataset text reads
        back channel for channel. */
    lemma ColorTextRoundTrip(master: Values.Value, named: Values.Value, r: byte, g: byte, b: byte,
                             c: byte, m: byte, y: byte, k: byte)
      requires Datasets.PlainValue(master, Datasets.Plain)
      requires Datasets.PlainValue(named, Datasets.Plain)
      ensures var rgb := r * 0x1_0000 + g * 0x100 + b;
        var cmyk := Colors.Signed32(c * 0x100_0000 + m * 0x1_0000 + y * 0x100 + k);
        ColorOf(Datasets.Render([[master, named, DecimalText(rgb), DecimalText(cmyk)]], Datasets.Plain))
          == Colors.Color(r, g, b, c, m, y, k)
    {
      var rgb := r * 0x1_0000 + g * 0x100 + b;
      var cmyk := Colors.Signed32(c * 0x100_0000 + m * 0x1_0000 + y * 0x100 + k);
      var ds := [[master, named, DecimalText(rgb), DecimalText(cmyk)]];
      DecimalTextPlain(rgb);
      DecimalTextPlain(cmyk);
      Datasets.RenderRoundTrip(symbols, ds, Datasets.Plain);
      Colors.PackedRoundTrip(master, named, r, g, b, c, m, y, k);
    }

    /** A font style reference written as plain dataset text reads back as a
        style font with that identifier and the zero colour. */
    lemma StyleFontText(g: Guid)
      ensures FontOf(Datasets.Render([[[ESC, 'f', '$'] + Guids.HexText(g)]], Datasets.Plain))
        == Fonts.Font(true, g, Colors.ZeroColor, false)
    {
      var v := [ESC, 'f', '$'] + Guids.HexText(g);
      Guids.HexTextIsHex(g);
      assert forall i :: 3 <= i < |v| ==> Guids.IsHexChar(v[i]) by {
        forall i | 3 <= i < |v| ensures Guids.IsHexChar(v[i]) {
          assert v[i] == Guids.HexText(g)[i - 3];
        }
      }
      assert Datasets.PlainValue(v, Datasets.Plain);
      Datasets.RenderRoundTrip(symbols, [[v]], Datasets.Plain);
      Fonts.StyleFontRoundTrip(Fonts.DefaultFont, g);
    }

    /** `loadFont`. */
    method LoadFont(val: string) returns (f: Fonts.Font)
      ensures f == FontOf(val)
    {
      var ds := LoadDataset(val);
      var ok;
      f, ok := Fonts.Parse(Fonts.DefaultFont, ds);
      if !ok {
        return Fonts.DefaultFont;
      }
    }

    /** `Config.Font`: a property's font; the default font when the property
        is absent, empty or does not parse. */
    method Font(name: string) returns (f: Fonts.Font)
      ensures f == if name in properties && properties[name] != "" then FontOf(properties[name])
                   else Fonts.DefaultFont
    {
      if name in properties && properties[name] != "" {
        f := LoadFont(properties[name]);
      } else {
        f := Fonts.DefaultFont;
      }
    }

    /** `loadDataStyle`: the type before the first `:`, then the settings
        of the rest, read with the rest's first byte as line separator,
        each value symbol-resolved. */
    method LoadDataStyle(v: Values.Value) returns (style: Styles.DataStyle)
      ensures style == Styles.DataStyleOf(symbols, v)
    {
      var options := SplitAtFirst(v, ':');
      if options.None? {
        return Styles.EmptyStyle;
      }
      var rest := options.value.1;
      var settings: map<string, Values.Value> := map[];
      if |rest| > 0 {
        var table := LoadSettings(rest[1..], rest[0]);
        settings := ResolveSettings(table);
      }
      style := Styles.DataStyle(options.value.0, settings);
    }

    /** The loop of `loadDataStyle` over the settings read: each value
        symbol-resolved under its own key. */
    method ResolveSettings(table: Table) returns (settings: map<string, Values.Value>)
      ensures settings == Styles.Resolved(symbols, table)
    {
      settings := map[];
      var keys := table.Keys;
      while keys != {}
        invariant keys <= table.Keys
        invariant settings.Keys == table.Keys - keys
        invariant forall k :: k in settings ==> settings[k] == LookupSymbol(symbols, table[k])
        decreases keys
      {
        var k :| k in keys;
        settings := settings[k := LookupSymbol(symbols, table[k])];
        keys := keys - {k};
      }
    }

    /** `loadDataStyles`: one style per value, in the dataset's shape. */
    method LoadDataStyles(ds: Datasets.Dataset) returns (styles: Styles.DataStyles)
      ensures styles == Styles.StylesOf(symbols, ds)
    {
      styles := seq(|ds|, _ => []);
      for i := 0 to |ds|
        invariant |styles| == |ds|
        invariant forall k :: 0 <= k < i ==> styles[k] == Styles.RowStyles(symbols, ds[k])
      {
        var row := LoadStyleRow(ds[i]);
        styles := styles[i := row];
      }
    }

    /** The styles of one set in `loadDataStyles`, value by value. */
    method LoadStyleRow(vals: seq<Values.Value>) returns (row: seq<Styles.DataStyle>)
      ensures |row| == |vals|
      ensures forall m :: 0 <= m < |vals| ==> row[m] == Styles.DataStyleOf(symbols, vals[m])
      ensures row == Styles.RowStyles(symbols, vals)
    {
      row := seq(|vals|, _ => Styles.EmptyStyle);
      for j := 0 to |vals|
        invariant |row| == |vals|
        invariant forall m :: 0 <= m < j ==> row[m] == Styles.DataStyleOf(symbols, vals[m])
      {
        var style := LoadDataStyle(vals[j]);
        row := row[j := style];
      }
    }

    /** The first value of every set. */
    function TitlesOf(ds: Datasets.Dataset): (titles: seq<Values.Value>)
      requires Datasets.WellFormed(ds)
      ensures |titles| == |ds|
      ensures forall i :: 0 <= i < |ds| ==> titles[i] == ds[i][0]
    {
      seq(|ds|, i requires 0 <= i < |ds| => ds[i][0])
    }

    /** The colour rule of the data: one colour per value of a single set,
        otherwise one colour per set, from its first value. */
    function DataColorsOf(ds: Datasets.Dataset): (colors: seq<Colors.Color>)
      requires Datasets.WellFormed(ds)
      ensures |ds| == 1 ==>
        |colors| == |ds[0]| && forall i :: 0 <= i < |ds[0]| ==> colors[i] == ColorOf(ds[0][i])
      ensures |ds| != 1 ==>
        |colors| == |ds| && forall i :: 0 <= i < |ds| ==> colors[i] == ColorOf(ds[i][0])
    {
      if |ds| == 1 && |ds[0]| > 0 then seq(|ds[0]|, i requires 0 <= i < |ds[0]| => ColorOf(ds[0][i]))
      else seq(|ds|, i requires 0 <= i < |ds| => ColorOf(ds[i][0]))
    }

    /** One font per value of the first set. */
    function DataFontsOf(ds: Datasets.Dataset): (fonts: seq<Fonts.Font>)
      requires Datasets.WellFormed(ds)
      ensures |fonts| == |ds[0]|
      ensures forall i :: 0 <= i < |ds[0]| ==> fonts[i] == FontOf(ds[0][i])
    {
      seq(|ds[0]|, i requires 0 <= i < |ds[0]| => FontOf(ds[0][i]))
    }

    /** Every data property, each read by its own rule. */
    function DataOf(): (d: Charts.Data)
      ensures Datasets.WellFormed(d.values)
      ensures |d.titles| == |PropertyDataset("data.titles")|
      ensures |d.styles| == |PropertyDataset("data.styles")|
      ensures |d.formats| == |PropertyDataset("data.formats")|
      ensures |d.fonts| == |PropertyDataset("data.fonts")[0]| && |d.labels| > 0
      ensures "data.values" !in properties ==> d.values == [[""]]
      ensures "data.titles" !in properties ==> d.titles == [""]
      ensures "data.labels" !in properties ==> d.labels == [""]
    {
      Charts.Data.Data(
        PropertyDataset("data.values"),
        TitlesOf(PropertyDataset("data.titles")),
        DataColorsOf(PropertyDataset("data.colors")),
        Styles.StylesOf(symbols, PropertyDataset("data.styles")),
        PropertyDataset("data.labels")[0],
        DataFontsOf(PropertyDataset("data.fonts")),
        Styles.StylesOf(symbols, PropertyDataset("data.formats")))
    }

    /** `Config.DataValues`. */
    method DataValues() returns (ds: Datasets.Dataset)
      ensures ds == PropertyDataset("data.values")
    {
      ds := Dataset("data.values");
    }

    /** `Config.DataTitles`: one title per set, its first value. */
    method DataTitles() returns (titles: seq<Values.Value>)
      ensures titles == TitlesOf(PropertyDataset("data.titles"))
    {
      var ds := Dataset("data.titles");
      titles := seq(|ds|, _ => "");
      for i := 0 to |ds|
        invariant |titles| == |ds|
        invariant forall k :: 0 <= k < i ==> titles[k] == ds[k][0]
      {
        titles := titles[i := ds[i][0]];
      }
    }

    /** The colours of a list of values, one `loadColor` each. */
    method LoadColors(vals: seq<string>) returns (colors: seq<Colors.Color>)
      ensures |colors| == |vals|
      ensures forall i :: 0 <= i < |vals| ==> colors[i] == ColorOf(vals[i])
    {
      colors := seq(|vals|, _ => Colors.DefaultColor);
      for i := 0 to |vals|
        invariant |colors| == |vals|
        invariant forall k :: 0 <= k < i ==> colors[k] == ColorOf(vals[k])
      {
        var c := LoadColor(vals[i]);
        colors := colors[i := c];
      }
    }

    /** `Config.DataColors`. */
    method DataColors() returns (colors: seq<Colors.Color>)
      ensures colors == DataColorsOf(PropertyDataset("data.colors"))
    {
      var ds := Dataset("data.colors");
      if |ds| == 1 {
        colors := LoadColors(ds[0]);
      } else {
        colors := LoadColors(seq(|ds|, i requires 0 <= i < |ds| => ds[i][0]));
      }
    }

    /** `Config.DataStyles`. */
    method DataStyles() returns (styles: Styles.DataStyles)
      ensures styles == Styles.StylesOf(symbols, PropertyDataset("data.styles"))
    {
      var ds := Dataset("data.styles");
      styles := LoadDataStyles(ds);
    }

    /** `Config.DataLabels`: the values of the first set. */
    method DataLabels() returns (labels: seq<Values.Value>)
      ensures labels == PropertyDataset("data.labels")[0]
    {
      var ds := Dataset("data.labels");
      labels := ds[0];
    }

    /** The fonts of a list of values, one `loadFont` each. */
    method LoadFonts(vals: seq<string>) returns (fonts: seq<Fonts.Font>)
      ensures |fonts| == |vals|
      ensures forall i :: 0 <= i < |vals| ==> fonts[i] == FontOf(vals[i])
    {
      fonts := seq(|vals|, _ => Fonts.DefaultFont);
      for i := 0 to |vals|
        invariant |fonts| == |vals|
        invariant forall k :: 0 <= k < i ==> fonts[k] == FontOf(vals[k])
      {
        var f := LoadFont(vals[i]);
        fonts := fonts[i := f];
      }
    }

    /** `Config.DataFonts`: one font per value of the first set. */
    method DataFonts() returns (fonts: seq<Fonts.Font>)
      ensures fonts == DataFontsOf(PropertyDataset("data.fonts"))
    {
      var ds := Dataset("data.fonts");
      fonts := LoadFonts(ds[0]);
    }

    /** `Config.DataFormats`. */
    method DataFormats() returns (formats: Styles.DataStyles)
      ensures formats == Styles.StylesOf(symbols, PropertyDataset("data.formats"))
    {
      var ds := Dataset("data.formats");
      formats := LoadDataStyles(ds);
    }

    /** `Config.Data`. */
    method Data() returns (d: Charts.Data)
      ensures d == DataOf()
    {
      var values := DataValues();
      var titles := DataTitles();
      var colors := DataColors();
      var styles := DataStyles();
      var labels := DataLabels();
      var fonts := DataFonts();
      var formats := DataFormats();
      d := Charts.Data.Data(values, titles, colors, styles, labels, fonts, formats);
    }

    /** The style a font resolves to, whatever the caches hold. */
    function FontStyleOf(f: Fonts.Font): (fs: FontStyle)
      ensures f.isStyle ==> fs == StyleFor(f.guid)
      ensures !f.isStyle ==> fs.resource == ResourceFor(f.guid) && fs.color == f.color && fs.underline == f.underline
    {
      if f.isStyle then StyleFor(f.guid)
      else FontStyle(ResourceFor(f.guid), f.color, f.underline)
    }

    /** `resolveFontResource`: the cached resource of the identifier, or
        the host's answer (truetype font loaded; empty on error), cached.
        The host is asked only about an identifier not yet cached. */
    method ResolveFontResource(f: Fonts.Font) returns (fr: FontResource)
      requires Valid()
      modifies this, resolver
      ensures Valid()
      ensures fr == ResourceFor(f.guid)
      ensures fontResources == old(fontResources)[f.guid := fr] && fontStyles == old(fontStyles)
      ensures resolver.resourceCalls ==
        old(resolver.resourceCalls) + (if f.guid in old(fontResources) then [] else [f.guid])
      ensures resolver.styleCalls == old(resolver.styleCalls)
    {
      if f.guid in fontResources {
        return fontResources[f.guid];
      }
      ghost var calls := resolver.resourceCalls;
      var r := resolver.FetchFontResource(f.guid);
      if r.None? {
        fr := EmptyFontResource;
      } else {
        var loaded := LoadTruetype(r.value, fontFiles(r.value.filename));
        fr := loaded.0;
      }
      CachedAdd(fontResources, calls[resourceBase..], ResourceFor, f.guid);
      fontResources := fontResources[f.guid := fr];
      assert resolver.resourceCalls[resourceBase..] == calls[resourceBase..] + [f.guid];
    }

    /** `resolveFontStyle`: the cached style of the identifier, or the
        host's answer (truetype font loaded; an empty resource in the
        default colour on error), cached. The host is asked only about an
        identifier not yet cached. */
    method ResolveFontStyle(f: Fonts.Font) returns (fs: FontStyle)
      requires Valid()
      modifies this, resolver
      ensures Valid()
      ensures fs == StyleFor(f.guid)
      ensures fontStyles == old(fontStyles)[f.guid := fs] && fontResources == old(fontResources)
      ensures resolver.styleCalls ==
        old(resolver.styleCalls) + (if f.guid in old(fontStyles) then [] else [f.guid])
      ensures resolver.resourceCalls == old(resolver.resourceCalls)
    {
      if f.guid in fontStyles {
        return fontStyles[f.guid];
      }
      ghost var calls := resolver.styleCalls;
      var r := resolver.FetchFontStyle(f.guid);
      if r.None? {
        fs := FontStyle(EmptyFontResource, Colors.DefaultColor, false);
      } else {
        var loaded := LoadTruetype(r.value.resource, fontFiles(r.value.resource.filename));
        fs := r.value.(resource := loaded.0);
      }
      CachedAdd(fontStyles, calls[styleBase..], StyleFor, f.guid);
      fontStyles := fontStyles[f.guid := fs];
      assert resolver.styleCalls[styleBase..] == calls[styleBase..] + [f.guid];
    }

    /** `Config.ResolveFont`: a style reference resolves through the style
        cache; a resource font through the resource cache, keeping its own
        colour and underline. The answer does not depend on what is cached. */
    method ResolveFont(f: Fonts.Font) returns (fs: FontStyle)
      requires Valid()
      modifies this, resolver
      ensures Valid()
      ensures fs == FontStyleOf(f)
      ensures f.isStyle ==>
        fontResources == old(fontResources) && resolver.resourceCalls == old(resolver.resourceCalls)
      ensures !f.isStyle ==>
        fontStyles == old(fontStyles) && resolver.styleCalls == old(resolver.styleCalls)
      ensures old(f.guid in (if f.isStyle then fontStyles.Keys else fontResources.Keys)) ==>
        resolver.resourceCalls == old(resolver.resourceCalls) &&
        resolver.styleCalls == old(resolver.styleCalls)
      ensures f.isStyle ==>
        fontStyles == old(fontStyles)[f.guid := fs] &&
        resolver.styleCalls == old(resolver.styleCalls) + (if f.guid in old(fontStyles) then [] else [f.guid])
      ensures !f.isStyle ==>
        fontResources == old(fontResources)[f.guid := fs.resource] &&
        resolver.resourceCalls == old(resolver.resourceCalls) + (if f.guid in old(fontResources) then [] else [f.guid])
    {
      if f.isStyle {
        fs := ResolveFontStyle(f);
      } else {
        var fr := ResolveFontResource(f);
        fs := FontStyle(fr, f.color, f.underline);
      }
    }

    /** The cache tests' sequence: two fonts of one identifier and a third
        of another, all of one kind and none cached yet. The host is asked
        once after the first, still once after the second, and twice after
        the third. */
    method ResolveSameThenOther(f1: Fonts.Font, f2: Fonts.Font, f3: Fonts.Font)
      requires Valid()
      requires f1.isStyle == f2.isStyle == f3.isStyle
      requires f1.guid == f2.guid && f3.guid != f1.guid
      requires f1.guid !in (if f1.isStyle then fontStyles.Keys else fontResources.Keys)
      requires f3.guid !in (if f1.isStyle then fontStyles.Keys else fontResources.Keys)
      modifies this, resolver
      ensures Valid()
      ensures f1.isStyle ==> resolver.styleCalls == old(resolver.styleCalls) + [f1.guid, f3.guid]
      ensures !f1.isStyle ==> resolver.resourceCalls == old(resolver.resourceCalls) + [f1.guid, f3.guid]
    {
      var calls0 := if f1.isStyle then resolver.styleCalls else resolver.resourceCalls;
      var _ := ResolveFont(f1);
      assert (if f1.isStyle then resolver.styleCalls else resolver.resourceCalls) == calls0 + [f1.guid];
      var _ := ResolveFont(f2);
      assert (if f1.isStyle then resolver.styleCalls else resolver.resourceCalls) == calls0 + [f1.guid];
      var _ := ResolveFont(f3);
    }
  }

  /** The host has been asked once per cached identifier: as many calls as
      cache entries. */
  lemma CallsMatchCache(c: Config)
    requires c.Valid()
    ensures |c.fontResources| == |c.resolver.resourceCalls| - c.resourceBase
    ensures |c.fontStyles| == |c.resolver.styleCalls| - c.styleBase
  {
    CachedSize(c.fontResources, c.resolver.resourceCalls[c.resourceBase..], c.ResourceFor);
    CachedSize(c.fontStyles, c.resolver.styleCalls[c.styleBase..], c.StyleFor);
  }
}
