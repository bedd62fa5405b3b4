/** Shared vocabulary: Go's `byte` and `int64`, its two's-complement
    wrap-around, and the Option/Result wrappers used for Go's
    `(value, error)` returns. */
module Base {

  /** Go's `byte`. Go strings are byte strings, so every Go `string` in the
      model is a `seq<byte>`. */
  newtype byte = b: int | 0 <= b < 256

  const MinInt64: int := -0x8000_0000_0000_0000
  const MaxInt64: int := 0x7fff_ffff_ffff_ffff

  /** Go's `int64`. */
  type int64 = x: int | MinInt64 <= x <= MaxInt64

  const TwoTo64: int := 0x1_0000_0000_0000_0000

  /** The int64 that Go's `+` and `-` produce for the mathematical result `x`:
      two's-complement wrap-around. */
  function Wrap64(x: int): (r: int64)
    ensures MinInt64 <= x <= MaxInt64 ==> r == x
  {
    (x - MinInt64) % TwoTo64 + MinInt64
  }

  /** Wrap64(x) is the one int64 that differs from x by a multiple of 2^64. */
  lemma Wrap64Congruent(x: int, y: int64)
    ensures Wrap64(x) == y <==> (x - y) % TwoTo64 == 0
  {
    var k := (x - MinInt64) / TwoTo64;
    assert x - Wrap64(x) == k * TwoTo64;
    if (x - y) % TwoTo64 == 0 {
      var j := (x - y) / TwoTo64;
      assert x - y == j * TwoTo64;
      assert Wrap64(x) - y == (j - k) * TwoTo64;
      assert -TwoTo64 < Wrap64(x) - y < TwoTo64;
    }
  }

  /** Wrapping after every addition is the same as wrapping once at the end. */
  lemma Wrap64Add(a: int, b: int)
    ensures Wrap64(Wrap64(a) + b) == Wrap64(a + b)
  {
  }

  datatype Option<+T> = None | Some(value: T)

  datatype Result<+T, +E> = Ok(value: T) | Err(error: E)

  /** The bytes of an ASCII string literal, for the fixed keys and event
      names the source spells as Go string literals. */
  function Ascii(s: string): (r: seq<byte>)
    requires forall i :: 0 <= i < |s| ==> s[i] < 128 as char
    ensures |r| == |s|
    ensures forall i :: 0 <= i < |s| ==> r[i] as int == s[i] as int
  {
    seq(|s|, i requires 0 <= i < |s| => s[i] as int as byte)
  }
}
