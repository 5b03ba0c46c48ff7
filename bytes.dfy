/**
 * Go strings are immutable byte strings; this module gives them a Dafny type.
 */
module Bytes {

  /** One byte of a Go string. */
  newtype byte = x: int | 0 <= x < 256

  /** A Go `string` or `[]byte`. */
  type Bytes = seq<byte>

  /** True when every character of `s` fits in one byte. */
  predicate IsLatin1(s: string) {
    forall i :: 0 <= i < |s| ==> s[i] as int < 256
  }

  /** The bytes of a Go string literal written with single-byte characters. */
  function Ascii(s: string): (b: Bytes)
    requires IsLatin1(s)
    ensures |b| == |s|
    ensures forall i :: 0 <= i < |s| ==> b[i] as int == s[i] as int
  {
    seq(|s|, i requires 0 <= i < |s| => s[i] as int as byte)
  }
}
