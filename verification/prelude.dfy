/** Types shared by every module: an Option for lookups that may fail, and the
    fixed-width integer ranges the Go and C code works with. */
module Prelude {

  datatype Option<+T> = None | Some(value: T)

  /** An unsigned 8-bit value (Go `byte`/`uint8`, C `unsigned char`). */
  type byte = x: int | 0 <= x < 0x100

  /** A 16-bit UTF-16 code unit (`wchar_t` masked with 0xFFFF). */
  type uint16 = x: int | 0 <= x < 0x1_0000

  const MinInt32: int := -0x8000_0000
  const MaxInt32: int := 0x7FFF_FFFF

  /** Whether `n` fits in a Go `int32`. */
  predicate IsInt32(n: int) {
    MinInt32 <= n <= MaxInt32
  }

  /** A Go `int32`. */
  type int32 = x: int | MinInt32 <= x <= MaxInt32

  /** No element occurs twice. */
  predicate Distinct<T(==)>(s: seq<T>) {
    forall i, j :: 0 <= i < j < |s| ==> s[i] != s[j]
  }

  /** Concatenation is associative. */
  lemma ConcatAssoc<T>(a: seq<T>, b: seq<T>, c: seq<T>)
    ensures (a + b) + c == a + (b + c)
  {
  }
}
