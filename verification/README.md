# Chart configuration decoder (`pic`), modelled in Dafny

The `pic` package sits between a host document system and a chart
plug-in. The host hands over the chart configuration as text: property and
symbol tables of `key=value` lines. `pic` turns that text into a typed data
model:

- values tagged with an ESC type letter;
- datasets of sets of values, in one of two delimiter regimes, with symbol
  references spliced in place;
- 16-byte identifiers written as 32 hex digits;
- colours, either a named-palette index or packed RGB/CMYK integers;
- font references, data styles, and enumeration names.

A `Config` object answers property queries with stated defaults. It caches
the host's font answers per identifier. At the C boundary, two routines
convert zero-terminated UTF-8 to UTF-16 and back.

The model follows the source file by file, in the source's own form:

- **Pure code becomes functions and lemmas.** This covers value tags,
  data-style accessors, enumeration names and font attribute tests.
- **Code that works step by step becomes methods proved against those
  functions:**
  - `GUID.parse` writes an `array` in place;
  - `Color.parse` and `Font.parse` fill the receiver field by field;
  - `loadSettings`, `loadDataset` and `loadDataStyles` are loops;
  - the UTF-8 converters walk arrays with counters.
- **`Config` and the host resolver become classes.** Their fields change in
  place, and the resolver keeps a ghost log of the font lookups made.

| file | module | models |
|---|---|---|
| prelude.dfy | `Prelude` | Option, byte/int32/uint16 ranges, `Distinct` |
| ascii.dfy | `Ascii` | control bytes of pic/ascii.go |
| strings.dfy | `Strings` | Go `strings.Split`, `SplitN(_, _, 2)`, `Trim` for one separator byte |
| decimal.dfy | `Decimal` | `strconv.ParseInt(s, 10, 32)`, `%d`, `strconv.ParseBool` |
| value.dfy | `Values` | pic/value.go |
| guid.dfy | `Guids` | pic/guid.go |
| color.dfy | `Colors` | pic/color.go |
| font.dfy | `Fonts` | pic/font.go |
| fontres.dfy | `FontResources` | pic/fontres.go and the `ENCH_Font*` flags |
| names.dfy | `Names` | pic/string.go and the enumerations of pic/enchapi.h |
| settings.dfy | `Settings` | `loadSettings`, `lookupSymbol` |
| dataset.dfy | `Datasets` | the tokenizer of `loadDataset` |
| datastyle.dfy | `Styles` | pic/datastyle.go, the text read by `loadDataStyle` |
| resolver.dfy | `Resolvers` | the resolver interface of pic/resolver.go |
| data.dfy | `Charts` | the `Data` record of pic/data.go |
| config.dfy | `Configs` | pic/config.go |
| utf8.dfy | `Utf8` | `Utf8ToWideChar`, `Utf8FromWideChar` of pic/c_interface.h |

## Model

| member | source | states |
|---|---|---|
| Values.Type | pic/value.go:9-28 | Each tag letter after ESC gives its own type (i, n, d, t, $); any other letter gives NotSet; an untagged value or one shorter than two bytes gives Neutral. All of these are stated as iffs. |
| Values.Text | pic/value.go:32-37 | A tagged value loses exactly its first two bytes; any other value is returned unchanged. |
| Values.True | pic/value.go:40-42 | True iff the value is exactly "true"; a true value is one `strconv.ParseBool` also reads as true. |
| Values.TrueIsNarrow | pic/value.go:40-42 | The converse fails: "True" and "1" parse as true but are not true values, so the test is case-sensitive and spelling-exact. |
| Values.TagRoundTrip | pic/value.go:9-37 | ESC, a tag and a body: Text gives back the body, and the type is set iff the tag is one of the five letters. |
| Values.TypeExamples | pic/value.go:9-42 | The concrete cases: integer, unknown tag, untagged, too short, and "true"/"false"/"1"/"True". |
| Guids.CharToByte | pic/guid.go:36-47 | Succeeds iff the character is a hex digit in either case; the value is below 16. |
| Guids.CharToByteCase | pic/guid.go:36-47 | Lower-casing a character does not change its value; every nibble's digit reads back as that nibble. |
| Guids.DecodeGuid | pic/guid.go:22-32 | Byte i is 16 times the value of digit 2i plus the value of digit 2i+1. |
| Guids.ParseInto | pic/guid.go:18-34 | Succeeds iff the text is 32 hex digits, giving DecodeGuid. A wrong length leaves the receiver untouched. |
| Guids.Parse | pic/guid.go:18-34 | The in-place array loop leaves exactly ParseInto's bytes and verdict. After a bad digit, the pairs before it are written and the rest keep their old bytes. |
| Guids.Stopped | pic/guid.go:22-33 | When the loop stops at pair n, the array and verdict are ParseInto's, and the verdict is success iff n is 16. |
| Guids.ParseIntoStops | pic/guid.go:22-33 | A failed parse of 32 characters has a pair k that is not two hex digits. Every pair before k is valid and already written with its decoded byte. Every byte from k on keeps its old value. |
| Guids.ParseGuid | pic/guid.go:18-34 | Some iff the text is 32 hex digits; the result does not depend on the receiver's old bytes. |
| Guids.IsZero | pic/guid.go:9-16 | The scan with early exit answers true iff all 16 bytes are zero. |
| Guids.GuidRoundTrip | pic/guid.go:22-32 | Parsing the 32-digit hex rendering of any identifier gives that identifier back. |
| Guids.ParseIgnoresCase | pic/guid.go:36-47 | Lower-casing the text does not change the parse result. |
| Guids.ParseExample | pic/guid.go:18-34 | "CAFE…F00D" parses to bytes CA FE … F0 0D. |
| Colors.ParseAttribute | pic/color.go:50-56 | Always an int32. It is the parsed value when the text is a base-10 int32, and 0 otherwise, including out-of-range text. |
| Decimal.SignsAndZeros | pic/color.go:51 | For any non-empty digit string t: "+t" and "0t" read as t does, and "-t" reads as minus that value. With DecimalRoundTrip this fixes the value of every accepted text. |
| Decimal.NonCanonicalExamples | pic/color.go:50-56 | "+255" and "0255" read as 255, and "-0" reads as 0. |
| Colors.AttributeRoundTrip | pic/color.go:50-56 | The decimal text of any int32 reads back as that number. |
| Colors.AttributeMalformed | pic/color.go:50-56 | Text without the syntax of a signed decimal reads as 0. |
| Colors.NegativeIndexEscapesPalette | pic/color.go:41-46 | As written, index "-1" passes the range check and would index the palette at -1. |
| Colors.NamedIndex | pic/color.go:41-46 | Corrected index: 0-15 unchanged, every other value 0. It agrees with the code as written wherever that index is non-negative. |
| Colors.NamedRgb | pic/color.go:77-81 | R is stored entry 0, G is stored entry 2, B is stored entry 1 (G and B swapped). |
| Colors.NamedCmyk | pic/color.go:102-106 | C, M, Y, K are the stored entries in order. |
| Colors.Palettes | pic/color.go:58-100 | Both palettes have 16 entries: RGB triples, and CMYK quadruples of percentages no larger than 100. |
| Colors.DefaultIsBlack | pic/color.go:14-15 | The default colour equals the named colour "0": palette entry 0, black. |
| Colors.NamedColor | pic/color.go:41-48 | For an index 0-15, R is stored RGB entry 0, G is entry 2 and B is entry 1, and C, M, Y, K are the CMYK entry at the same index. Any other index gives DefaultColor. |
| Colors.ParseNamedColor | pic/color.go:41-48 | All seven receiver fields are overwritten with both palettes' entries at the same index. |
| Colors.ParseColor | pic/color.go:17-39 | Succeeds iff the set has 1 or 4 elements. |
| Colors.Parse | pic/color.go:17-39 | The receiver is updated field by field to ParseColor's colour on success and left unchanged on failure; the flag matches ParseColor. |
| Colors.PackedBytes | pic/color.go:29-35 | `(x >> 8n) & 0xff` picks byte n of the packed value, whether that value is read unsigned or as the two's-complement int32. |
| Colors.ByteAt | pic/color.go:29-35 | The byte picked from an int32 is byte n of its low 32 bits, its unsigned reading. |
| Colors.PackedColor | pic/color.go:23-36 | The channels pack back to the attributes: R, G, B give the low 24 bits of the RGB integer, and C, M, Y, K give all 32 bits of the CMYK integer. PackedRoundTrip is the other direction. |
| Colors.PackedRoundTrip | pic/color.go:23-36 | Any 7 channels, written as the decimal packed RGB and int32 CMYK attributes, decode back to exactly those channels whatever elements 0 and 1 hold. |
| Colors.OutOfRangeNamedIsDefault | pic/color.go:41-48 | A malformed index, or one outside 0-15, gives palette entry 0, which equals DefaultColor. |
| Colors.NamedWhite | pic/color.go:74-99 | Named index 15 is R=G=B=255 and CMYK all 0. |
| Colors.NamedBlueRendersGreen | pic/color.go:77-85 | Entry 1 is CMYK blue but comes out RGB green because of the swap. |
| Colors.PackedExample | pic/color.go:17-39 | ["0","4","16711935","6553600"] decodes to R=255 G=0 B=255, C=0 M=100 Y=0 K=0. |
| Fonts.GuidTextOf | pic/font.go:24-31 | A style reference is ESC f $ followed by the identifier text; any other font value is ESC f followed by the identifier text. |
| Fonts.DefaultFontIsZero | pic/font.go:16-17 | The default font is the zero font: not a style, the all-zero identifier, the zero colour and no underline. |
| Fonts.HasFontTag | pic/font.go:20-23 | Holds iff the value is tagged with the letter f. Such a value has type NotSet, and its text is what follows the tag. |
| Fonts.IsStyleRef | pic/font.go:24-31 | Holds iff the value has the font tag and s, the text after the tag, is longer than one byte and starts with `$`. |
| Fonts.ParseFont | pic/font.go:19-52 | Fails without ESC f and leaves the receiver alone. IsStyle is set from the `$` marker. Succeeds iff the set count is 1 (style) or 3 (resource), the identifier parses and, for a resource, colour and underline parse. The identifier, colour and underline are those parsed. A style font keeps its old colour and underline. |
| Fonts.Parse | pic/font.go:19-52 | The field-by-field method with early returns ends in exactly ParseFont's receiver and verdict. |
| Fonts.StyleFontRoundTrip | pic/font.go:19-52 | A style reference to a rendered identifier parses to it, keeping colour and underline. |
| Fonts.ResourceFontRoundTrip | pic/font.go:19-52 | A resource font written as identifier, colour set and underline parses to exactly that font. |
| FontResources.Bold | pic/fontres.go:19-21 | Holds iff bit 0 (0x0001) is set. |
| FontResources.Italic | pic/fontres.go:24-26 | Holds iff bit 1 (0x0002) is set. |
| FontResources.EmulateBold | pic/fontres.go:29-31 | Holds iff bit 2 (0x0004) is set. |
| FontResources.EmulateItalic | pic/fontres.go:34-36 | Holds iff bit 3 (0x0008) is set. |
| FontResources.EmulateTypeface | pic/fontres.go:39-41 | Holds iff bit 4 (0x0010) is set. |
| FontResources.OwnBitOnly | pic/fontres.go:19-41 | Flipping any other bit leaves each test unchanged. |
| FontResources.AllFlags | pic/fontres.go:19-41 | With all five flags set, all five tests hold. |
| FontResources.LoadTruetype | pic/fontres.go:43-58 | Changes nothing when a font is already loaded or there is no file name. Otherwise it changes only the truetype field; success leaves a loaded font. |
| Names.NameOf | pic/string.go:19-24 | A known value gets its table name; any other value gets a name ending in ")". |
| Names.NameOfInjective | pic/string.go:19-24 | With an unambiguous table, equal names mean equal values, whether the values are known or unknown. |
| Names.UnambiguousByShape | pic/string.go:5-17 | Names that are non-empty, do not end in ")", and differ in their first letter when equally long form an unambiguous table. |
| Names.ReturnCodeName | pic/string.go:5-24 | Codes 0-10 get their names; every other code gets "Unknown (n)". |
| Names.ImageFormatName | pic/string.go:26-38 | BMP/PNG/JPG/SVG for 0-3; every other value gets "Unknown (n)". |
| Names.ColorSpaceName | pic/string.go:40-51 | Named/RGB/CMYK for 0-2; every other value gets "Unknown (n)". |
| Names.ReturnCodeNameInjective | pic/string.go:5-24 | Different return codes print differently. |
| Names.ImageFormatNameInjective | pic/string.go:26-38 | Different image formats print differently. |
| Names.ColorSpaceNameInjective | pic/string.go:40-51 | Different colour spaces print differently. |
| Names.NameExamples | pic/string.go:5-51 | Concrete names, including "Unknown (999)" and "Unknown (-1)". |
| Decimal.ParseDecimal | pic/color.go:51 | Some iff the text is an optional sign followed by at least one digit. |
| Decimal.ParseInt32 | pic/color.go:51 | Some iff the text is decimal and its value fits in int32. |
| Decimal.DecimalRoundTrip | pic/string.go:23 | Parsing the `%d` text of any integer gives it back. |
| Decimal.DecimalTextInjective | pic/string.go:23 | `%d` prints different numbers differently. |
| Decimal.DecimalTextChars | pic/string.go:23 | `%d` prints only digits and a minus sign. |
| Decimal.Int32RoundTrip | pic/color.go:51 | The same round trip through the int32 parser. |
| Decimal.ParseBool | pic/font.go:46 | True for exactly the six true spellings and false for exactly the six false spellings. |
| Strings.Split | pic/config.go:207 | One piece more than there are separators; no piece holds the separator. |
| Strings.JoinSplit | pic/config.go:207 | Joining the pieces of a split gives the text back. |
| Strings.SplitJoin | pic/config.go:240-243 | Splitting the join of separator-free pieces gives the pieces back. |
| Strings.TrimLeft | pic/config.go:208 | The text is some copies of c followed by the result, which does not start with c. |
| Strings.TrimRight | pic/config.go:208 | The text is the result followed by some copies of c, and the result does not end with c. |
| Strings.Trim | pic/config.go:208 | The result neither starts nor ends with c. |
| Strings.TrimSlice | pic/config.go:208 | The text is copies of c, then the trimmed result, then copies of c. |
| Strings.TrimUnchanged | pic/config.go:208 | Text that neither starts nor ends with c is unchanged. |
| Strings.SplitAtFirst | pic/config.go:209 | None iff c is absent; otherwise the text is head + c + tail, and the head has no c. |
| Strings.SplitAtFirstOf | pic/config.go:209 | Splitting a + c + b, where a has no c, gives (a, b). |
| Settings.KeyValue | pic/config.go:208-211 | None iff the CR-trimmed line has no `=`; otherwise the line is key `=` value, and the key has no `=`. |
| Settings.Entries | pic/config.go:207-211 | One entry per line, each that line's setting. |
| Settings.Build | pic/config.go:207-213 | Every entry in the table comes from an entry that sets that key to that value. BuildKeys and LastWins give the keys and which entry wins. |
| Settings.SettingsOf | pic/config.go:205-215 | Every key and value in the table comes from a line of the input that reads as that setting. |
| Settings.LoadSettings | pic/config.go:205-215 | The loop builds SettingsOf(input, sep). |
| Settings.BuildStep | pic/config.go:210-212 | One more line records its setting, replacing an earlier value of the same key; a line without `=` changes nothing. |
| Settings.BuildKeys | pic/config.go:205-215 | A key is in the table iff some line sets it. |
| Settings.LastWins | pic/config.go:210-212 | A key's value is the one on the last line that sets it. |
| Settings.LineRoundTrip | pic/config.go:208-211 | A rendered key=value line reads back as that setting. |
| Settings.RenderedEntries | pic/config.go:207-211 | Settings written one per line read back line by line as those settings. |
| Settings.EntriesKey | pic/config.go:205-215 | A key is in the table built from the given settings iff one of them has it. |
| Settings.LoadRendered | pic/config.go:205-215 | Writing settings with distinct keys and loading the text gives exactly those keys and values. |
| Settings.LookupSymbol | pic/config.go:217-225 | Empty or non-DLE text is returned unchanged. DLE + name gives that symbol's text, or "" when the symbol is absent. |
| Datasets.DelimitersOf | pic/config.go:231-238 | RS between sets and US between values iff the text starts with SOH; otherwise the pipe character and the comma. |
| Datasets.Body | pic/config.go:231-238 | In the control regime the leading SOH is consumed; otherwise the text is unchanged. |
| Datasets.ExpandStep | pic/config.go:245-250 | One more token appends the pieces of its resolved text, split at the value separator. |
| Datasets.Expand | pic/config.go:245-250 | At least one value per token, and no value contains the value separator. ExpandStep, ExpandAppend and SymbolSplice say which values, in order. |
| Datasets.ValuesOf | pic/config.go:244-250 | At least one value per separator-delimited token of the set, and no value contains the value separator. |
| Datasets.Tokenize | pic/config.go:227-253 | At least one set, every set non-empty; one set per set separator plus one. |
| Datasets.ExpandAppend | pic/config.go:245-250 | Tokens expand independently and in place. |
| Datasets.SymbolSplice | pic/config.go:245-250 | A reference is replaced in place by the pieces of the symbol's text. The pieces are not resolved again; an unknown symbol gives one empty value. |
| Datasets.ExpandPlain | pic/config.go:245-250 | Plain tokens are their own values. |
| Datasets.EmptyInput | pic/config.go:120-125 | The empty text gives exactly [[""]]. |
| Datasets.RenderRegime | pic/config.go:227-238 | A rendered dataset selects its own regime, and its body is the joined sets. |
| Datasets.RenderRoundTrip | pic/config.go:227-253 | Tokenizing the rendering of any well-formed dataset of plain values gives it back, in either regime. |
| Datasets.SymbolKeepsSetSeparator | pic/config.go:240-250 | A pipe character inside a symbol's text does not start a new set. |
| Datasets.ReferenceSplitsAtValues | pic/config.go:245-250 | A reference to a symbol holding a, pipe, b, comma, c expands to two values: a-pipe-b and c. |
| Styles.At | pic/datastyle.go:13-18 | None iff the row or column is negative or out of range; otherwise the style at that position. |
| Styles.Setting | pic/datastyle.go:21-31 | "" without a style or without the name; otherwise the stored value. |
| Styles.CustomFormat | pic/datastyle.go:34-44 | "" unless a style exists there and its type is exactly "custom". |
| Styles.CustomFormatIsSetting | pic/datastyle.go:34-44 | For a custom style, the custom format is its customFmt setting, or "" when that is absent. |
| Styles.Resolved | pic/config.go:275-277 | Same keys, each value symbol-resolved. |
| Styles.DataStyleOf | pic/config.go:266-280 | No `:` gives the empty style. Otherwise the type is the `:`-free text before the first `:`. |
| Styles.RowStyles | pic/config.go:258-261 | One style per value of a set. |
| Styles.StylesOf | pic/config.go:255-264 | One row of styles per set, in the dataset's shape. |
| Styles.StyleText | pic/config.go:266-280 | type:rest reads as that type, plus the settings of rest (its first byte as separator), symbol-resolved. |
| Styles.StyleRoundTrip | pic/config.go:266-280 | A type and distinct-key settings written as a style text read back as that type and exactly those keys, each value symbol-resolved. |
| Resolvers.Resolver.constructor | pic/resolver.go:3-9 | A resolver answers by the given functions and starts with empty call logs. |
| Resolvers.Resolver.FetchFontResource | pic/resolver.go:7 | Returns the host's answer and logs exactly one resource lookup. |
| Resolvers.Resolver.FetchFontStyle | pic/resolver.go:8 | Returns the host's answer and logs exactly one style lookup. |
| Configs.CachedAdd | pic/config.go:303-314 | Storing the answer for an uncached identifier keeps the cache in step with the calls: no repeats, keys equal to the calls made, each key holding its answer. |
| Configs.CachedSize | pic/config.go:303-314 | A cache has as many entries as calls made to fill it. |
| Configs.Config.constructor | pic/config.go:16-24 | Properties and symbols are loaded from LF-separated lines; the caches start empty and valid. |
| Configs.Config.Value | pic/config.go:32-37 | "" for an absent property; otherwise the symbol-resolved text. |
| Configs.Config.ResolveInteger | pic/config.go:59-69 | 0 for "" or a host error; otherwise the host's integer. |
| Configs.Config.Integer | pic/config.go:41-43 | 0 whenever the property's value is empty (absent, empty, or a symbol that resolves to ""); 0 on a host error; otherwise the host's integer. |
| Configs.Config.PropertyDataset | pic/config.go:120-125 | Always well formed. [[""]] for an absent or empty property; otherwise its tokenization. |
| Configs.Config.LoadDataset | pic/config.go:227-253 | The nested loops produce Tokenize(symbols, input). |
| Configs.Config.LoadSet | pic/config.go:243-250 | The values of one set, each token expanded in place. |
| Configs.Config.AppendAll | pic/config.go:247-249 | The append loop adds the pieces in order. |
| Configs.Config.Dataset | pic/config.go:120-125 | Returns PropertyDataset(name). |
| Configs.Config.ColorOf | pic/config.go:282-290 | The colour parsed from the first set, or DefaultColor when that set does not parse. |
| Configs.Config.LoadColor | pic/config.go:282-290 | Returns ColorOf(val). |
| Configs.Config.Color | pic/config.go:92-97 | DefaultColor for an absent or empty property; otherwise ColorOf. |
| Configs.Config.ColorTextRoundTrip | pic/config.go:282-290 | Any colour written as four plain attributes reads back channel for channel. |
| Configs.Config.FontOf | pic/config.go:292-300 | The font parsed into a zero font, or DefaultFont on failure. |
| Configs.Config.StyleFontText | pic/config.go:292-300 | A style reference text reads back as a style font with that identifier. |
| Configs.Config.LoadFont | pic/config.go:292-300 | Returns FontOf(val). |
| Configs.Config.Font | pic/config.go:100-105 | DefaultFont for an absent or empty property; otherwise FontOf. |
| Configs.Config.LoadDataStyle | pic/config.go:266-280 | Returns DataStyleOf(symbols, v). |
| Configs.Config.ResolveSettings | pic/config.go:275-277 | The loop gives Resolved(symbols, table). |
| Configs.Config.LoadDataStyles | pic/config.go:255-264 | Returns StylesOf(symbols, ds). |
| Configs.Config.LoadStyleRow | pic/config.go:258-261 | One style per value, each DataStyleOf that value. |
| Configs.Config.TitlesOf | pic/config.go:151-158 | One title per set: that set's first value. |
| Configs.Config.DataColorsOf | pic/config.go:161-177 | With exactly one set, one colour per value; otherwise one colour per set, from its first value. |
| Configs.Config.DataFontsOf | pic/config.go:191-198 | One font per value of set 0. |
| Configs.Config.DataValues | pic/config.go:146-148 | The dataset of "data.values". |
| Configs.Config.DataTitles | pic/config.go:151-158 | TitlesOf the "data.titles" dataset. |
| Configs.Config.LoadColors | pic/config.go:165-174 | One colour per value, each ColorOf that value. |
| Configs.Config.DataColors | pic/config.go:161-177 | DataColorsOf the "data.colors" dataset. |
| Configs.Config.DataStyles | pic/config.go:180-182 | The styles of the "data.styles" dataset. |
| Configs.Config.DataLabels | pic/config.go:185-188 | Set 0 of the "data.labels" dataset. |
| Configs.Config.LoadFonts | pic/config.go:193-196 | One font per value, each FontOf that value. |
| Configs.Config.DataFonts | pic/config.go:191-198 | DataFontsOf the "data.fonts" dataset. |
| Configs.Config.DataFormats | pic/config.go:201-203 | The styles of the "data.formats" dataset. |
| Configs.Config.Data | pic/config.go:133-143 | Every data property, each by its own rule. |
| Configs.Config.DataOf | pic/config.go:133-143 | Values is well formed. Titles has one entry per set of "data.titles", styles and formats one row per set of their properties, and fonts one entry per value of the first set of "data.fonts". Labels is never empty. An absent "data.values", "data.titles" or "data.labels" gives [[""]], [""] and [""]. |
| Configs.Config.ResolveFontResource | pic/config.go:302-316 | Returns the resource for the identifier: the host's answer with its font file loaded, or an empty resource on error. The host is asked only for an uncached identifier. Only that cache entry changes, and the caches stay valid. |
| Configs.Config.ResolveFontStyle | pic/config.go:318-335 | The same for styles; a failed lookup stores an empty resource in DefaultColor. |
| Configs.Config.ResolveFont | pic/config.go:108-117 | A style reference goes through the style cache. A resource font goes through the resource cache and keeps its own colour and underline. The answer does not depend on the cache, and a cached identifier makes no host call. Afterwards the cache of the font's kind holds the answer for its identifier, and that kind's call log grows by the identifier exactly when it was not cached before. |
| Configs.Config.ResolveSameThenOther | pic/config_test.go:189-201 | Resolving two fonts of one uncached identifier and then one of another asks the host exactly twice, first for the shared identifier and then for the other one. |
| Configs.Config.FontStyleOf | pic/config.go:108-117 | A style font gives the identifier's style. A resource font gives the identifier's resource with the font's own colour and underline. |
| Configs.Config.ResourceFor | pic/config.go:302-316 | A host error gives the empty resource. Otherwise it is the host's answer with only the truetype field changed. That field is unchanged when the answer is already loaded or has no file, and is the file's outcome otherwise. |
| Configs.Config.StyleFor | pic/config.go:318-335 | A host error gives an empty resource in DefaultColor without underline. Otherwise it is the host's answer, with colour and underline kept and only the resource's truetype field loaded. |
| Configs.CallsMatchCache | pic/config.go:302-335 | Each cache holds exactly as many entries as host calls made for this configuration. |
| Utf8.ExtraBytesCountsOnes | pic/c_interface.h:128-138 | The extra-byte table equals the count of leading one bits minus one: 0 for fewer than two, capped at 5. |
| Utf8.Units | pic/c_interface.h:189-205 | One unit for values up to 0xFFFF; 0xFFFD above 0x10FFFF; otherwise two units. |
| Utf8.UnitsPair | pic/c_interface.h:199-205 | Values 0x10000-0x10FFFF become a high and a low surrogate that combine back to the value. |
| Utf8.Decode | pic/c_interface.h:124-209 | The output has at most 2·cch units, so it fits the allocation with room for the terminator. DecodeStep, BomDropped, AsciiDecode and RoundTrip pin the output itself. |
| Utf8.AsciiDecode | pic/c_interface.h:153-209 | ASCII bytes decode to the same code units, one each. |
| Utf8.ExtraBytes | pic/c_interface.h:128-138 | At most 5 extra bytes, and none exactly for bytes below 0xC0 (ASCII and stray continuation bytes). ExtraBytesCountsOnes gives every entry. |
| Utf8.OffsetIsMarkers | pic/c_interface.h:140-144 | Each offset is the marker bits of its sequence length (the lead byte's mark and 0x80 per extra byte), accumulated as the decoder accumulates a sequence. |
| Utf8.Accumulate | pic/c_interface.h:169-183 | The accumulated value stays below 2^32: the shifts wrap around as unsigned int arithmetic does. |
| Utf8.SequenceValue | pic/c_interface.h:169-184 | The value after the offset is subtracted stays below 2^32. ReadBack2, ReadBack3 and ReadBack4 give its value on every sequence the encoder writes. |
| Utf8.DecodeStep | pic/c_interface.h:164-205 | One decoded sequence yields its units ahead of the decoding of the bytes after it. |
| Utf8.BomStep | pic/c_interface.h:156-161 | A byte order mark where a sequence starts produces nothing. |
| Utf8.AtBom | pic/c_interface.h:156 | The three-byte comparison is StartsWithBom. |
| Utf8.ReadSequence | pic/c_interface.h:164-187 | The fall-through switch consumes ExtraBytes(lead) extra bytes and yields the sequence value. |
| Utf8.WriteUnits | pic/c_interface.h:189-205 | Appends exactly Units(u) to the output. |
| Utf8.DecodeNext | pic/c_interface.h:154-207 | One loop pass advances and keeps written + still-to-decode equal to the whole decoding. |
| Utf8.DecodeInto | pic/c_interface.h:154-209 | The loop writes exactly Decode(s), at most 2·|s| units. |
| Utf8.Utf8ToWideChar | pic/c_interface.h:124-211 | A buffer of 2·cch+1 units holding Decode(s) and then a 0 terminator. |
| Utf8.DecodeConcat | pic/c_interface.h:154-207 | A fully framed text followed by more bytes decodes part by part. |
| Utf8.BomDropped | pic/c_interface.h:156-161 | A byte order mark between framed parts is dropped, not only at the start. |
| Utf8.EncodeValue2 | pic/c_interface.h:253-296 | For 0x80-0x7FF the bytes are C0+u/64, then 80+u%64. |
| Utf8.EncodeValue3 | pic/c_interface.h:257-296 | For 0x800-0xFFFF the bytes are E0 plus the top bits, then two continuation bytes, most significant first. |
| Utf8.EncodeValue4 | pic/c_interface.h:261-296 | For 0x10000-0x10FFFF the bytes are F0 plus the top bits, then three continuation bytes, most significant first. |
| Utf8.UnitsTaken | pic/c_interface.h:230-246 | Takes two units only for a high surrogate followed by a low one. |
| Utf8.FirstValue | pic/c_interface.h:227-246 | At most 0x10FFFF; a single unit is its own value. |
| Utf8.Encode | pic/c_interface.h:213-305 | At most 3 bytes per unit, within the 6·cwch allocation. EncodeNonZero, AsciiEncode and RoundTrip pin the bytes themselves. |
| Utf8.AsciiEncode | pic/c_interface.h:213-305 | ASCII units encode to the same bytes, one each. |
| Utf8.EncodeValue | pic/c_interface.h:249-296 | ByteCount(u) bytes. A value below 0x80 is its own byte, and every byte after the first is a continuation byte 0x80-0xBF. EncodeValue2-4 give the bytes. |
| Utf8.WriteSequence | pic/c_interface.h:279-298 | The backward writes produce exactly EncodeValue(u). |
| Utf8.WriteContinuations | pic/c_interface.h:282-294 | Writes the n-1 continuation bytes backwards and returns the value shifted n-1 times for the lead byte. |
| Utf8.EncodeStep | pic/c_interface.h:225-301 | One value's bytes come before the encoding of the units after it. |
| Utf8.ReadValue | pic/c_interface.h:227-246 | A high surrogate then a low one combine into one value and take two units; anything else is the unit itself. |
| Utf8.EncodeNext | pic/c_interface.h:225-301 | One loop pass keeps written + still-to-encode equal to the whole encoding. |
| Utf8.EncodeInto | pic/c_interface.h:225-301 | The loop writes exactly Encode(w), at most 3·|w| bytes. |
| Utf8.Utf8FromWideChar | pic/c_interface.h:213-305 | A buffer of 6·cwch+1 bytes holding Encode(w) and then a 0 terminator. |
| Utf8.UnitsCombine | pic/c_interface.h:202-244 | Splitting a combined surrogate pair gives the pair back. |
| Utf8.SingleSequence | pic/c_interface.h:164-205 | A text that is one sequence decodes to that sequence's units. |
| Utf8.ReadBack2 | pic/c_interface.h:128-296 | Two encoded bytes read back as one sequence of the value. |
| Utf8.ReadBack3 | pic/c_interface.h:128-296 | The same for three bytes; U+FEFF is the only value whose bytes form the byte order mark. |
| Utf8.ReadBack4 | pic/c_interface.h:128-296 | The same for four bytes. |
| Utf8.ValueRoundTrip | pic/c_interface.h:124-305 | Every value up to U+10FFFF except U+FEFF encodes to bytes that decode to its units. |
| Utf8.RoundTrip | pic/c_interface.h:124-305 | Decoding the encoder's output gives back any units without U+FEFF, including unpaired surrogates. |
| Utf8.ByteOrderMarkDropped | pic/c_interface.h:156-260 | U+FEFF encodes to EF BB BF, which decodes to nothing. |
| Utf8.ValueNonZero | pic/c_interface.h:279-296 | A non-zero value encodes to non-zero bytes. |
| Utf8.EncodeNonZero | pic/c_interface.h:213-305 | Non-zero units encode to non-zero bytes, so the returned string ends at its terminator. |

## Left out

- `Config.Number`, `ResolveNumber`, `Twiplet`, `Inches`, `Pixels`, the resolver's `number` and `numberFormat`, and `FontResource.PointSize`: floating-point arithmetic is not modelled.
- `Config.Name` and `Config.Twiplet`: thin wrappers over `Value` and `Integer`, which are modelled.
- Logging (`log.Println`/`log.Printf`): dropped. The soft-error paths keep only their default values.
- pic/c_exports.go, pic/c_interface.go and the callback wrappers in pic/c_interface.h (`EnchGetDataValue`, `EnchGetInteger`, `EnchGetNumber`, `EnchGetNumberFormat`, `EnchGetFont`, `EnchFreeFont`, `EnchGetStyle`) are not part of this model: they are foreign calls, raw pointers and C heap management.
- pic/logger.go, pic/options.go, pic/client.go, pic/builder.go, pic/doc.go and the go-chart example are not part of this model: they are process globals, log files, interfaces and rendering.
- `FontResource.loadTruetype`: reading and parsing the font file is foreign code. It is a parameter (`fontFiles` of the Config, `file` of `LoadTruetype`); only the guard and the field update are modelled.
- The resolver: its answers are fixed functions of the argument. Each font lookup is recorded in a ghost log, so "at most one call per identifier" can be stated. A host whose answers change over time is not modelled.
- Go pointers (`*FontResource`, `*FontStyle`): cached values are immutable records, so sharing one pointer between callers is not modelled. In the source no caller mutates the shared object.
- Go nil maps versus empty maps: a style without settings is `map[]` either way. Lookups behave the same.
- Go slices built with `make` and index assignment (`DataTitles`, `DataColors`, `DataFonts`, `loadDataStyles`) are sequence loops that assign element by element. Slice aliasing is not modelled.
- `Color.parse` and `Font.parse` take and return the receiver value rather than a pointer. Each field assignment is still a separate step.
- Strings are sequences of `char`, one per byte; no character above 0xFF matters to the decoder.
- `wchar_t` is modelled as a 16-bit code unit, as the `& 0xFFFF` masks make it.
- Utf8.Decode: returns None where a sequence runs past the terminator; the C code reads outside the string there. `Utf8ToWideChar` requires that this does not happen.
- Utf8.Accumulate and Utf8.SequenceValue: their own contracts state only that the value stays below 2^32. Their values are pinned only for the sequences the encoder writes (ReadBack2-4), not for arbitrary malformed input.
- Utf8.RoundTrip: stated for units without U+FEFF, because the decoder drops that mark. It does not claim `Encode(Decode(s)) == s`, because the decoder does not validate UTF-8 and accepts overlong or stray continuation bytes.
- Utf8.ContinuationByte and Utf8.LeadByte: written arithmetically (`0x80 + u % 64`, marker plus the low bits). Their equivalence to `(u | 0x80) & 0xBF` and `u | abByteMark[n]` is not proved.
- Guids.Nibbles: written as `16 * hi + lo`. Its equivalence to `(b1 << 4) | b2` on nibbles is not proved.
- The encoder's 5- and 6-byte branches and its `0xFFFD` branch cannot be reached from 16-bit units. They are modelled as written, and no property is stated about them.
- Colors.NamedIndex: the model uses the corrected index, which maps a negative index to entry 0, where Go would panic (see Findings).

## Findings

| source | as written | input that shows it | evidently intended | confidence | as-written member | corrected member |
|---|---|---|---|---|---|---|
| pic/color.go:41-46 | `parseNamedColor` replaces only an index above 15 with 0, so a negative index reaches `namedRgbColors[index]` | a named colour value "-1" | every index outside 0-15 selects entry 0 (black) | not executed | Colors.NegativeIndexEscapesPalette | Colors.NamedIndex |
