/** Go strings and byte slices, both modelled as sequences of bytes. */
module Bytes {

  /** One byte of a Go `string` or `[]byte`. */
  newtype byte = b: int | 0 <= b < 0x100

  const Slash: byte := 0x2F  // '/'
  const Dot: byte := 0x2E    // '.'

  /** The bytes of an ASCII string literal, as Go stores it. */
  function Ascii(s: string): (r: seq<byte>)
    requires forall i :: 0 <= i < |s| ==> s[i] as int < 0x80
    ensures |r| == |s|
    ensures forall i :: 0 <= i < |s| ==> r[i] as int == s[i] as int
  {
    seq(|s|, i requires 0 <= i < |s| => s[i] as int as byte)
  }

  /** The character class `[a-zA-Z0-9]` of Go's regexp syntax. */
  predicate IsAlnum(b: byte) {
    || 0x30 <= b <= 0x39  // '0'..'9'
    || 0x41 <= b <= 0x5A  // 'A'..'Z'
    || 0x61 <= b <= 0x7A  // 'a'..'z'
  }
}
