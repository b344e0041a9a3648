/** The parts of Go's `strings` package that the decoder relies on, for a
    single-byte separator: `Split`, `SplitN(s, sep, 2)` and `Trim`. */
module Strings {
  import opened Prelude

  /** Number of occurrences of `c` in `s`. */
  function Count(s: string, c: char): nat
  {
    if s == [] then 0 else (if s[0] == c then 1 else 0) + Count(s[1..], c)
  }

  lemma {:induction false} CountZero(s: string, c: char)
    ensures Count(s, c) == 0 <==> c !in s
  {
    if s != [] {
      CountZero(s[1..], c);
      assert c in s <==> s[0] == c || c in s[1..];
    }
  }

  /** `strings.Split(s, string(sep))`: the pieces between the separators,
      one more piece than there are separators. */
  function Split(s: string, sep: char): (r: seq<string>)
    ensures |r| == Count(s, sep) + 1
    ensures forall i :: 0 <= i < |r| ==> sep !in r[i]
    decreases |s|
  {
    if s == [] then [""]
    else
      var rest := Split(s[1..], sep);
      if s[0] == sep then [""] + rest
      else [[s[0]] + rest[0]] + rest[1..]
  }

  /** `strings.Join(parts, string(sep))`. */
  function Join(parts: seq<string>, sep: char): string
  {
    if parts == [] then ""
    else if |parts| == 1 then parts[0]
    else parts[0] + [sep] + Join(parts[1..], sep)
  }

  /** Joining the pieces of a split gives back the text. */
  lemma {:induction false} JoinSplit(s: string, sep: char)
    ensures Join(Split(s, sep), sep) == s
  {
    if s != [] {
      JoinSplit(s[1..], sep);
      var rest := Split(s[1..], sep);
      if s[0] == sep {
        assert Split(s, sep)[1..] == rest;
      } else {
        var r := Split(s, sep);
        if |rest| == 1 {
          assert r == [[s[0]] + rest[0]];
        } else {
          assert r[1..] == rest[1..];
          assert Join(r, sep) == [s[0]] + rest[0] + [sep] + Join(rest[1..], sep);
          assert Join(rest, sep) == rest[0] + [sep] + Join(rest[1..], sep);
        }
      }
    }
  }

  /** Splitting the join of separator-free pieces gives back the pieces. */
  lemma {:induction false} SplitJoin(parts: seq<string>, sep: char)
    requires |parts| > 0
    requires forall i :: 0 <= i < |parts| ==> sep !in parts[i]
    ensures Split(Join(parts, sep), sep) == parts
  {
    if |parts| == 1 {
      SplitPlain(parts[0], sep);
    } else {
      SplitJoin(parts[1..], sep);
      SplitPrefix(parts[0], Join(parts[1..], sep), sep);
      assert Join(parts, sep) == parts[0] + ([sep] + Join(parts[1..], sep));
      assert [parts[0]] + parts[1..] == parts;
    }
  }

  /** A character other than the separator that occurs in no piece does
      not occur in the join. */
  lemma {:induction false} JoinFree(parts: seq<string>, sep: char, c: char)
    requires c != sep
    requires forall i :: 0 <= i < |parts| ==> c !in parts[i]
    ensures c !in Join(parts, sep)
  {
    if |parts| > 1 {
      JoinFree(parts[1..], sep, c);
    }
  }

  /** The join starts like its first piece, or with the separator when the
      first piece is empty. */
  lemma JoinFirst(parts: seq<string>, sep: char, c: char)
    requires |parts| > 0 && c != sep
    requires parts[0] == [] || parts[0][0] != c
    ensures Join(parts, sep) == [] || Join(parts, sep)[0] != c
  {
  }

  /** A text without the separator splits into itself alone. */
  lemma {:induction false} SplitPlain(s: string, sep: char)
    requires sep !in s
    ensures Split(s, sep) == [s]
  {
    if s != [] {
      SplitPlain(s[1..], sep);
      assert [s[0]] + s[1..] == s;
    }
  }

  /** A separator-free head followed by a separator becomes the first piece. */
  lemma {:induction false} SplitPrefix(a: string, b: string, sep: char)
    requires sep !in a
    ensures Split(a + [sep] + b, sep) == [a] + Split(b, sep)
    decreases |a|
  {
    if a == [] {
      assert a + [sep] + b == [sep] + b;
      assert ([sep] + b)[1..] == b;
    } else {
      SplitPrefix(a[1..], b, sep);
      var s := a + [sep] + b;
      assert s[0] == a[0] && s[1..] == a[1..] + [sep] + b;
      assert [a[0]] + a[1..] == a;
    }
  }

  /** `n` copies of `c`. */
  function Repeat(c: char, n: nat): (r: string)
    ensures |r| == n
  {
    if n == 0 then [] else [c] + Repeat(c, n - 1)
  }

  /** Leading copies of `c` removed: `s` is some copies of `c` followed by
      the result, which does not start with `c`. */
  function TrimLeft(s: string, c: char): (r: string)
    ensures |r| <= |s| && s == Repeat(c, |s| - |r|) + r
    ensures r == [] || r[0] != c
  {
    if s != [] && s[0] == c then
      var r := TrimLeft(s[1..], c);
      assert Repeat(c, |s| - |r|) + r == [c] + (Repeat(c, |s| - 1 - |r|) + r);
      r
    else
      assert Repeat(c, 0) + s == s;
      s
  }

  /** Trailing copies of `c` removed: `s` is the result followed by some
      copies of `c`, and the result does not end with `c`. */
  function TrimRight(s: string, c: char): (r: string)
    ensures |r| <= |s| && s == r + Repeat(c, |s| - |r|)
    ensures r == [] || r[|r| - 1] != c
  {
    if s != [] && s[|s| - 1] == c then
      var r := TrimRight(s[..|s| - 1], c);
      RepeatSnoc(c, |s| - 1 - |r|);
      assert s == s[..|s| - 1] + [c];
      ConcatAssoc(r, Repeat(c, |s| - 1 - |r|), [c]);
      r
    else
      assert s + Repeat(c, 0) == s;
      s
  }

  /** One more copy of `c` can go at the end. */
  lemma {:induction false} RepeatSnoc(c: char, n: nat)
    ensures Repeat(c, n) + [c] == Repeat(c, n + 1)
  {
    if n > 0 {
      RepeatSnoc(c, n - 1);
      ConcatAssoc([c], Repeat(c, n - 1), [c]);
    }
  }

  /** `strings.Trim(s, string(c))`: every leading and trailing `c` removed;
      the result neither starts nor ends with `c`. */
  function Trim(s: string, c: char): (r: string)
    ensures r == [] || (r[0] != c && r[|r| - 1] != c)
    ensures |r| <= |s|
  {
    TrimRight(TrimLeft(s, c), c)
  }

  /** What `Trim` leaves is the middle of `s`: `s` is copies of `c`, the
      result, and copies of `c` again. */
  lemma TrimSlice(s: string, c: char)
    ensures var l := TrimLeft(s, c); var r := Trim(s, c);
      s == Repeat(c, |s| - |l|) + r + Repeat(c, |l| - |r|)
  {
    var l := TrimLeft(s, c);
    var r := Trim(s, c);
    ConcatAssoc(Repeat(c, |s| - |l|), r, Repeat(c, |l| - |r|));
  }

  /** Trimming a text that neither starts nor ends with `c` leaves it alone. */
  lemma TrimUnchanged(s: string, c: char)
    requires s == [] || (s[0] != c && s[|s| - 1] != c)
    ensures Trim(s, c) == s
  {
  }

  /** Position of the first `c` in `s`. */
  function IndexOf(s: string, c: char): (i: nat)
    requires c in s
    ensures i < |s| && s[i] == c && c !in s[..i]
  {
    if s[0] == c then 0 else 1 + IndexOf(s[1..], c)
  }

  /** `strings.SplitN(s, string(c), 2)` when it yields two parts: the text
      before the first `c` and the text after it; None when `c` is absent. */
  function SplitAtFirst(s: string, c: char): (r: Option<(string, string)>)
    ensures r.None? <==> c !in s
    ensures r.Some? ==> s == r.value.0 + [c] + r.value.1 && c !in r.value.0
  {
    if c in s then
      var i := IndexOf(s, c);
      assert s == s[..i] + [c] + s[i + 1..];
      Some((s[..i], s[i + 1..]))
    else None
  }

  /** A `c` at position `i` means the first `c` is at `i` or before. */
  lemma FirstIndexBefore(s: string, c: char, i: nat, j: nat)
    requires i < |s| && j <= |s| && s[i] == c && c !in s[..j]
    ensures j <= i
  {
  }

  /** Splitting `a + [c] + b` at its first `c`, when `a` has none, gives
      back `a` and `b`. */
  lemma SplitAtFirstOf(a: string, b: string, c: char)
    requires c !in a
    ensures SplitAtFirst(a + [c] + b, c) == Some((a, b))
  {
    var s := a + [c] + b;
    var i := IndexOf(s, c);
    assert s[..|a|] == a;
    FirstIndexBefore(s, c, i, |a|);
    FirstIndexBefore(s, c, |a|, i);
    assert s[..i] == a && s[i + 1..] == b;
  }
}
