/** Datasets: sets of values tokenized from a property text, with symbol
    references spliced in place (`loadDataset` in pic/config.go). */
module Datasets {
  import opened Prelude
  import opened Ascii
  import opened Strings
  import opened Values
  import opened Settings

  /** A list of sets, each a list of values. */
  type Dataset = seq<seq<Value>>

  /** What tokenizing always produces: at least one set, and at least one
      value in every set. */
  predicate WellFormed(ds: Dataset)
  {
    |ds| > 0 && forall i :: 0 <= i < |ds| ==> |ds[i]| > 0
  }

  /** The set and value separators of one delimiter regime. */
  datatype Delimiters = Delimiters(setSep: char, valSep: char)

  /** `|` between sets and `,` between values. */
  const Plain: Delimiters := Delimiters('|', ',')
  /** RS between sets and US between values, selected by a leading SOH. */
  const Control: Delimiters := Delimiters(RS, US)

  /** A leading SOH selects the control-character regime. */
  function DelimitersOf(input: string): (d: Delimiters)
    ensures d == Control <==> input != [] && input[0] == SOH
    ensures d == Plain <==> !(input != [] && input[0] == SOH)
  {
    if input != [] && input[0] == SOH then Control else Plain
  }

  /** The text that is split: the input with its regime-selecting SOH
      consumed. */
  function Body(input: string): (b: string)
    ensures DelimitersOf(input) == Control ==> input == [SOH] + b
    ensures DelimitersOf(input) == Plain ==> b == input
  {
    if DelimitersOf(input) == Control then input[1..] else input
  }

  /** The values of a set: each token is resolved once and its replacement
      split at the value separator, the pieces spliced in order where the
      token stood. */
  function Expand(symbols: Table, tokens: seq<Value>, valSep: char): (r: seq<Value>)
    ensures |r| >= |tokens|
    ensures forall i :: 0 <= i < |r| ==> valSep !in r[i]
  {
    if tokens == [] then []
    else
      Expand(symbols, tokens[..|tokens| - 1], valSep)
        + Split(LookupSymbol(symbols, tokens[|tokens| - 1]), valSep)
  }

  /** Expanding one more token appends its pieces. */
  lemma ExpandStep(symbols: Table, tokens: seq<Value>, j: nat, valSep: char)
    requires j < |tokens|
    ensures Expand(symbols, tokens[..j + 1], valSep) ==
      Expand(symbols, tokens[..j], valSep) + Split(LookupSymbol(symbols, tokens[j]), valSep)
  {
    assert tokens[..j + 1][..j] == tokens[..j];
  }

  /** The values of one set's text. */
  function ValuesOf(symbols: Table, text: string, valSep: char): (r: seq<Value>)
    ensures |r| >= Count(text, valSep) + 1
    ensures forall i :: 0 <= i < |r| ==> valSep !in r[i]
  {
    Expand(symbols, Split(text, valSep), valSep)
  }

  /** What `loadDataset` returns for `input`: one set per set separator
      plus one, each never empty. */
  function Tokenize(symbols: Table, input: string): (ds: Dataset)
    ensures WellFormed(ds)
    ensures |ds| == Count(Body(input), DelimitersOf(input).setSep) + 1
  {
    var d := DelimitersOf(input);
    var sets := Split(Body(input), d.setSep);
    seq(|sets|, i requires 0 <= i < |sets| => ValuesOf(symbols, sets[i], d.valSep))
  }

  /** Expansion distributes over concatenation: each token expands on its
      own, in place. */
  lemma {:induction false} ExpandAppend(symbols: Table, a: seq<Value>, b: seq<Value>, valSep: char)
    ensures Expand(symbols, a + b, valSep) == Expand(symbols, a, valSep) + Expand(symbols, b, valSep)
    decreases |b|
  {
    if b == [] {
      assert a + b == a;
    } else {
      var b' := b[..|b| - 1];
      var pieces := Split(LookupSymbol(symbols, b[|b| - 1]), valSep);
      ExpandAppend(symbols, a, b', valSep);
      assert (a + b)[..|a + b| - 1] == a + b';
      assert (a + b)[|a + b| - 1] == b[|b| - 1];
      assert Expand(symbols, a + b, valSep) == Expand(symbols, a + b', valSep) + pieces;
      ConcatAssoc(Expand(symbols, a, valSep), Expand(symbols, b', valSep), pieces);
    }
  }

  /** A symbol reference is replaced, in place, by the pieces of the
      symbol's text split at the value separator; the pieces are not
      resolved again, and an unknown symbol gives one empty value. */
  lemma SymbolSplice(symbols: Table, a: seq<Value>, name: string, b: seq<Value>, valSep: char)
    ensures Expand(symbols, a + [[DLE] + name] + b, valSep) ==
      Expand(symbols, a, valSep)
        + Split(if name in symbols then symbols[name] else "", valSep)
        + Expand(symbols, b, valSep)
  {
    ExpandAppend(symbols, a + [[DLE] + name], b, valSep);
    ExpandAppend(symbols, a, [[DLE] + name], valSep);
    assert [[DLE] + name][..0] == [];
  }

  /** Tokens that are not references and hold no separator are the values. */
  lemma {:induction false} ExpandPlain(symbols: Table, tokens: seq<Value>, valSep: char)
    requires forall i :: 0 <= i < |tokens| ==> valSep !in tokens[i] && (tokens[i] == [] || tokens[i][0] != DLE)
    ensures Expand(symbols, tokens, valSep) == tokens
  {
    if tokens != [] {
      var init := tokens[..|tokens| - 1];
      var last := tokens[|tokens| - 1];
      assert valSep !in last && (last == [] || last[0] != DLE);
      ExpandPlain(symbols, init, valSep);
      SplitPlain(last, valSep);
      assert LookupSymbol(symbols, last) == last;
      assert Expand(symbols, tokens, valSep) == Expand(symbols, init, valSep) + Split(last, valSep);
      assert init + [last] == tokens;
    }
  }

  /** An absent, empty property text tokenizes to one set holding one empty
      value. */
  lemma EmptyInput(symbols: Table)
    ensures Tokenize(symbols, "") == [[""]]
  {
    assert Split("", ',') == [""];
    assert Expand(symbols, [""], ',') == [""];
  }

  /** A value a dataset text can carry unchanged: no separator of the
      regime, and not starting with DLE or SOH. */
  predicate PlainValue(v: Value, d: Delimiters)
  {
    d.setSep !in v && d.valSep !in v && (v == [] || (v[0] != DLE && v[0] != SOH))
  }

  /** The text of each set: its values joined by the value separator. */
  function Rows(ds: Dataset, valSep: char): (rows: seq<string>)
    ensures |rows| == |ds|
    ensures forall i :: 0 <= i < |ds| ==> rows[i] == Join(ds[i], valSep)
  {
    seq(|ds|, i requires 0 <= i < |ds| => Join(ds[i], valSep))
  }

  /** The text of a dataset in a regime: values joined by the value
      separator, sets by the set separator, SOH first for the control
      regime. */
  function Render(ds: Dataset, d: Delimiters): string
  {
    (if d == Control then [SOH] else []) + Join(Rows(ds, d.valSep), d.setSep)
  }

  /** The rendered text selects its own regime, and its body is the joined
      sets. */
  lemma RenderRegime(ds: Dataset, d: Delimiters)
    requires d == Plain || d == Control
    requires WellFormed(ds)
    requires forall j :: 0 <= j < |ds[0]| ==> PlainValue(ds[0][j], d)
    ensures DelimitersOf(Render(ds, d)) == d
    ensures Body(Render(ds, d)) == Join(Rows(ds, d.valSep), d.setSep)
  {
    var text := Join(Rows(ds, d.valSep), d.setSep);
    if d == Plain {
      JoinFirst(ds[0], d.valSep, SOH);
      JoinFirst(Rows(ds, d.valSep), d.setSep, SOH);
      assert Render(ds, d) == text;
    } else {
      assert Render(ds, d) == [SOH] + text;
    }
  }

  /** Tokenizing the text of a well-formed dataset of plain values gives
      back the dataset, in either regime. */
  lemma RenderRoundTrip(symbols: Table, ds: Dataset, d: Delimiters)
    requires d == Plain || d == Control
    requires WellFormed(ds)
    requires forall i, j :: 0 <= i < |ds| && 0 <= j < |ds[i]| ==> PlainValue(ds[i][j], d)
    ensures Tokenize(symbols, Render(ds, d)) == ds
  {
    var rows := Rows(ds, d.valSep);
    forall i | 0 <= i < |ds|
      ensures d.setSep !in rows[i]
      ensures ValuesOf(symbols, rows[i], d.valSep) == ds[i]
    {
      JoinFree(ds[i], d.valSep, d.setSep);
      SplitJoin(ds[i], d.valSep);
      ExpandPlain(symbols, ds[i], d.valSep);
    }
    RenderRegime(ds, d);
    SplitJoin(rows, d.setSep);
  }

  /** A set separator inside a symbol's text does not start a new set. */
  lemma SymbolKeepsSetSeparator()
    ensures Tokenize(map["s" := "a|b,c"], [DLE, 's']) == [["a|b", "c"]]
  {
    var symbols := map["s" := "a|b,c"];
    var input := [DLE, 's'];
    SplitPlain(input, '|');
    SplitPlain(input, ',');
    assert DelimitersOf(input) == Plain && Body(input) == input;
    ReferenceSplitsAtValues(symbols);
    assert ValuesOf(symbols, input, ',') == ["a|b", "c"];
  }

  /** The reference to the symbol "s" holding "a|b,c" expands to "a|b"
      and "c". */
  lemma ReferenceSplitsAtValues(symbols: Table)
    requires symbols == map["s" := "a|b,c"]
    ensures Expand(symbols, [[DLE, 's']], ',') == ["a|b", "c"]
  {
    assert LookupSymbol(symbols, [DLE, 's']) == "a|b,c" by {
      assert [DLE, 's'] == [DLE] + "s";
    }
    SplitPrefix("a|b", "c", ',');
    SplitPlain("c", ',');
    assert "a|b,c" == "a|b" + [','] + "c";
    assert [[DLE, 's']][..0] == [];
  }
}
