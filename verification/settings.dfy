/** Settings tables (`key=value` lines) and symbol references
    (`loadSettings` and `lookupSymbol` in pic/config.go). */
module Settings {
  import opened Prelude
  import opened Ascii
  import opened Strings

  /** A settings table: property or symbol name to its text. */
  type Table = map<string, string>

  /** A line read as a setting: its key and value, or None. */
  type Entry = Option<(string, string)>

  /** The setting on one line: the line is trimmed of carriage returns at
      both ends and split at its first `=`; None when it has no `=`. */
  function KeyValue(line: string): (r: Entry)
    ensures r.None? <==> '=' !in Trim(line, CR)
    ensures r.Some? ==> Trim(line, CR) == r.value.0 + "=" + r.value.1 && '=' !in r.value.0
  {
    SplitAtFirst(Trim(line, CR), '=')
  }

  /** The settings read from each line, in order. */
  function Entries(lines: seq<string>): (r: seq<Entry>)
    ensures |r| == |lines|
    ensures forall i :: 0 <= i < |lines| ==> r[i] == KeyValue(lines[i])
  {
    seq(|lines|, i requires 0 <= i < |lines| => KeyValue(lines[i]))
  }

  /** The table built from `entries` in order, a later key replacing an
      earlier one. */
  function Build(entries: seq<Entry>): (t: Table)
    ensures forall k :: k in t ==> Some((k, t[k])) in entries
  {
    if entries == [] then map[]
    else
      var m := Build(entries[..|entries| - 1]);
      match entries[|entries| - 1]
      case None => m
      case Some(kv) => m[kv.0 := kv.1]
  }

  /** What `loadSettings(input, sep)` returns. */
  function SettingsOf(input: string, sep: char): (t: Table)
    ensures forall k :: k in t ==> exists line :: line in Split(input, sep) && KeyValue(line) == Some((k, t[k]))
  {
    FromSomeLine(Split(input, sep));
    Build(Entries(Split(input, sep)))
  }

  /** Every setting in the table comes from a line that sets it. */
  lemma FromSomeLine(lines: seq<string>)
    ensures var t := Build(Entries(lines));
      forall k :: k in t ==> exists line :: line in lines && KeyValue(line) == Some((k, t[k]))
  {
    var entries := Entries(lines);
    var t := Build(entries);
    forall k | k in t ensures exists line :: line in lines && KeyValue(line) == Some((k, t[k])) {
      assert Some((k, t[k])) in entries;
      var i :| 0 <= i < |entries| && entries[i] == Some((k, t[k]));
      assert lines[i] in lines && KeyValue(lines[i]) == entries[i];
    }
  }

  /** `loadSettings`: splits the input into lines at `sep` and records the
      setting of every line that has one. */
  method LoadSettings(input: string, sep: char) returns (out: Table)
    ensures out == SettingsOf(input, sep)
  {
    var lines := Split(input, sep);
    ghost var entries := Entries(lines);
    out := map[];
    for i := 0 to |lines|
      invariant out == Build(entries[..i])
    {
      var line := Trim(lines[i], CR);
      var setting := SplitAtFirst(line, '=');
      BuildStep(entries, i);
      if setting.Some? {
        out := out[setting.value.0 := setting.value.1];
      }
    }
    assert entries[..|lines|] == entries;
  }

  /** Building from one more entry records that entry's setting, if any. */
  lemma BuildStep(entries: seq<Entry>, i: nat)
    requires i < |entries|
    ensures Build(entries[..i + 1]) ==
      match entries[i]
      case None => Build(entries[..i])
      case Some(kv) => Build(entries[..i])[kv.0 := kv.1]
  {
    assert entries[..i + 1][..i] == entries[..i];
  }

  /** A key is in the table exactly when some entry sets it. */
  lemma {:induction false} BuildKeys(entries: seq<Entry>, k: string)
    ensures k in Build(entries) <==>
      exists i :: 0 <= i < |entries| && entries[i].Some? && entries[i].value.0 == k
  {
    if entries != [] {
      var init := entries[..|entries| - 1];
      BuildKeys(init, k);
      assert forall i :: 0 <= i < |init| ==> init[i] == entries[i];
    }
  }

  /** The value of a key is the one of the last entry that sets it. */
  lemma {:induction false} LastWins(entries: seq<Entry>, i: nat)
    requires i < |entries| && entries[i].Some?
    requires forall j :: i < j < |entries| && entries[j].Some? ==> entries[j].value.0 != entries[i].value.0
    ensures entries[i].value.0 in Build(entries)
    ensures Build(entries)[entries[i].value.0] == entries[i].value.1
  {
    var init := entries[..|entries| - 1];
    if i < |entries| - 1 {
      assert forall j :: 0 <= j < |init| ==> init[j] == entries[j];
      LastWins(init, i);
    }
  }

  /** One `key=value` line, rendered. */
  function Line(kv: (string, string)): string
  {
    kv.0 + "=" + kv.1
  }

  /** A key and value that survive being written as a line between `sep`
      separators: the key has no `=`, neither has `sep`, and neither end of
      the line is a carriage return. */
  predicate PlainSetting(kv: (string, string), sep: char)
  {
    '=' !in kv.0 && sep !in kv.0 && sep !in kv.1 && sep != '=' &&
    (kv.0 == [] || kv.0[0] != CR) && (kv.1 == [] || kv.1[|kv.1| - 1] != CR)
  }

  /** A rendered line is read back as its key and value. */
  lemma LineRoundTrip(kv: (string, string), sep: char)
    requires PlainSetting(kv, sep)
    ensures KeyValue(Line(kv)) == Some(kv)
  {
    TrimUnchanged(Line(kv), CR);
    SplitAtFirstOf(kv.0, kv.1, '=');
  }

  /** Settings written one `key=value` line each, in order. */
  function Lines(kvs: seq<(string, string)>): (lines: seq<string>)
    ensures |lines| == |kvs|
    ensures forall i :: 0 <= i < |kvs| ==> lines[i] == Line(kvs[i])
  {
    seq(|kvs|, i requires 0 <= i < |kvs| => Line(kvs[i]))
  }

  /** Settings written as a text, their lines joined with `sep`. */
  function Rendered(kvs: seq<(string, string)>, sep: char): string
  {
    Join(Lines(kvs), sep)
  }

  /** Every setting holds its own place in a table with distinct keys: a
      table where each setting is not overridden by a later one. */
  predicate PlainSettings(kvs: seq<(string, string)>, sep: char)
  {
    (forall i :: 0 <= i < |kvs| ==> PlainSetting(kvs[i], sep)) &&
    (forall i, j :: 0 <= i < j < |kvs| ==> kvs[i].0 != kvs[j].0)
  }

  /** Reading rendered settings back line by line gives each setting. */
  lemma RenderedEntries(kvs: seq<(string, string)>, sep: char)
    requires |kvs| > 0 && PlainSettings(kvs, sep)
    ensures var entries := Entries(Split(Rendered(kvs, sep), sep));
      |entries| == |kvs| && forall i :: 0 <= i < |kvs| ==> entries[i] == Some(kvs[i])
  {
    var lines := Lines(kvs);
    forall i | 0 <= i < |lines| ensures sep !in lines[i] {
    }
    SplitJoin(lines, sep);
    forall i | 0 <= i < |kvs| ensures KeyValue(lines[i]) == Some(kvs[i]) {
      LineRoundTrip(kvs[i], sep);
    }
  }

  /** When each entry holds a setting of `kvs`, a key is in the built table
      exactly when some setting has it. */
  lemma EntriesKey(entries: seq<Entry>, kvs: seq<(string, string)>, k: string)
    requires |entries| == |kvs| && forall i :: 0 <= i < |kvs| ==> entries[i] == Some(kvs[i])
    ensures k in Build(entries) <==> exists i :: 0 <= i < |kvs| && kvs[i].0 == k
  {
    BuildKeys(entries, k);
    if k in Build(entries) {
      var i :| 0 <= i < |entries| && entries[i].Some? && entries[i].value.0 == k;
      assert kvs[i].0 == k;
    }
    if exists i :: 0 <= i < |kvs| && kvs[i].0 == k {
      var i :| 0 <= i < |kvs| && kvs[i].0 == k;
      assert entries[i].Some? && entries[i].value.0 == k;
    }
  }

  /** Writing settings with distinct keys one per line and loading the text
      gives back exactly those settings. */
  lemma LoadRendered(kvs: seq<(string, string)>, sep: char)
    requires |kvs| > 0 && PlainSettings(kvs, sep)
    ensures var m := SettingsOf(Rendered(kvs, sep), sep);
      (forall k :: k in m <==> exists i :: 0 <= i < |kvs| && kvs[i].0 == k) &&
      (forall i :: 0 <= i < |kvs| ==> m[kvs[i].0] == kvs[i].1)
  {
    var entries := Entries(Split(Rendered(kvs, sep), sep));
    RenderedEntries(kvs, sep);
    assert SettingsOf(Rendered(kvs, sep), sep) == Build(entries);
    forall k ensures k in Build(entries) <==> exists i :: 0 <= i < |kvs| && kvs[i].0 == k {
      EntriesKey(entries, kvs, k);
    }
    forall i | 0 <= i < |kvs| ensures Build(entries)[kvs[i].0] == kvs[i].1 {
      LastWins(entries, i);
    }
  }

  /** `lookupSymbol`: a value starting with DLE is a reference to the
      symbol named by the rest of it and is replaced by that symbol's text,
      or by "" when there is no such symbol; any other value is itself. */
  function LookupSymbol(symbols: Table, val: string): (r: string)
    ensures val == [] || val[0] != DLE ==> r == val
    ensures forall name :: val == [DLE] + name ==>
      r == (if name in symbols then symbols[name] else "")
  {
    if val == [] || val[0] != DLE then val
    else if val[1..] in symbols then symbols[val[1..]]
    else ""
  }
}
