/** A configuration value and its escape-coded type tag (pic/value.go). */
module Values {
  import opened Ascii
  import opened Prelude
  import opened Decimal

  /** The raw text of a property value. */
  type Value = string

  /** The data types of the host API, with their numeric codes. */
  datatype DataType = NotSet | Neutral | Integer | Number | Date | Time | Currency
  {
    /** The `ENCH_Data*` code of the host API. */
    function Code(): int
    {
      match this
      case NotSet => -1
      case Neutral => 0
      case Integer => 1
      case Number => 2
      case Date => 3
      case Time => 4
      case Currency => 5
    }
  }

  /** A value carries a type tag when it is at least two bytes long and
      starts with ESC; the tag is its second byte. */
  predicate Tagged(v: Value) {
    |v| > 1 && v[0] == ESC
  }

  /** The value type: a known tag letter selects its type, an unknown tag
      gives NotSet, an untagged value is Neutral. */
  function Type(v: Value): (t: DataType)
    ensures t == Neutral <==> !Tagged(v)
    ensures t == Integer <==> Tagged(v) && v[1] == 'i'
    ensures t == Number <==> Tagged(v) && v[1] == 'n'
    ensures t == Date <==> Tagged(v) && v[1] == 'd'
    ensures t == Time <==> Tagged(v) && v[1] == 't'
    ensures t == Currency <==> Tagged(v) && v[1] == '$'
    ensures t == NotSet <==> Tagged(v) && v[1] !in {'i', 'n', 'd', 't', '$'}
  {
    if Tagged(v) then
      match v[1]
      case 'i' => Integer
      case 'n' => Number
      case 'd' => Date
      case 't' => Time
      case '$' => Currency
      case _ => NotSet
    else Neutral
  }

  /** The displayable text: a tagged value loses exactly its two-byte
      prefix, any other value is unchanged. */
  function Text(v: Value): (s: string)
    ensures Tagged(v) ==> |s| == |v| - 2
    ensures !Tagged(v) ==> s == v
    ensures v == v[..|v| - |s|] + s
  {
    if Tagged(v) then v[2..] else v
  }

  /** A boolean value is true only when its text is exactly "true". */
  function True(v: Value): (b: bool)
    ensures b <==> v == "true"
    ensures b ==> ParseBool(v) == Some(true)
  {
    v == "true"
  }

  /** Unlike `strconv.ParseBool`, `Value.True` is case-sensitive and knows
      no other spelling: "True", "TRUE", "t" and "1" are not true. */
  lemma TrueIsNarrow()
    ensures ParseBool("True") == Some(true) && !True("True")
    ensures ParseBool("1") == Some(true) && !True("1")
  {
  }

  /** Every tag letter, put after ESC, reads back as the type it names, and
      the text after the tag is whatever followed it. */
  lemma TagRoundTrip(tag: char, body: string)
    ensures var v := [ESC, tag] + body;
      Text(v) == body &&
      (Type(v) != NotSet <==> tag in {'i', 'n', 'd', 't', '$'})
  {
    var v := [ESC, tag] + body;
    assert v[2..] == body;
  }

  /** The cases of the value-type test and of the boolean test. */
  lemma TypeExamples()
    ensures Type([ESC, 'i', '4', '2']) == Integer
    ensures Type([ESC, '?', 'b']) == NotSet
    ensures Type("txt") == Neutral
    ensures Type([ESC]) == Neutral
    ensures True("true") && !True("false") && !True("1") && !True("True")
  {
  }
}
