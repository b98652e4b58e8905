/** Byte strings, machine words and their little-endian encodings. */
module Bytes {
  type byte = b: int | 0 <= b < 256
  type bytes = seq<byte>
  type u16 = n: int | 0 <= n < 0x1_0000
  type u32 = n: int | 0 <= n < 0x1_0000_0000

  const U16_SIZE := 0x1_0000
  const U32_SIZE := 0x1_0000_0000

  datatype Option<+T> = None | Some(value: T)

  function Le16(n: u16): (b: bytes)
    ensures |b| == 2 && FromLe16(b) == n
  {
    [n % 256, n / 256]
  }

  function FromLe16(b: bytes): u16
    requires |b| == 2
  {
    b[0] as int + 0x100 * (b[1] as int)
  }

  function Le32(n: u32): (b: bytes)
    ensures |b| == 4 && FromLe32(b) == n
  {
    var q := n / 0x100;
    var p := q / 0x100;
    [n % 0x100, q % 0x100, p % 0x100, p / 0x100]
  }

  function FromLe32(b: bytes): u32
    requires |b| == 4
  {
    b[0] as int + 0x100 * (b[1] as int + 0x100 * (b[2] as int + 0x100 * (b[3] as int)))
  }

  /** Le32 and FromLe32 are inverse in the other direction too. */
  lemma Le32OfFromLe32(b: bytes)
    requires |b| == 4
    ensures Le32(FromLe32(b)) == b
  {
    var n := FromLe32(b);
    assert n / 0x100 == b[1] as int + 0x100 * (b[2] as int + 0x100 * (b[3] as int));
    assert n / 0x100 / 0x100 == b[2] as int + 0x100 * (b[3] as int);
  }

  /** Both words are little-endian. */
  lemma LittleEndian(a: byte, b: byte, c: byte, d: byte)
    ensures FromLe16([a, b]) as int == a as int + 256 * (b as int)
    ensures FromLe32([a, b, c, d]) as int == a as int + 256 * (b as int) + 65536 * (c as int) + 16777216 * (d as int)
  {
  }

  /** An in-place overwrite of the bytes from `at` on, as `copy_from_slice` does. */
  function Patch(s: bytes, at: nat, v: bytes): (r: bytes)
    requires at + |v| <= |s|
    ensures |r| == |s|
    ensures r[at..at + |v|] == v
    ensures forall i :: 0 <= i < |s| && !(at <= i < at + |v|) ==> r[i] == s[i]
  {
    s[..at] + v + s[at + |v|..]
  }

  lemma ConcatAssoc(a: bytes, b: bytes, c: bytes)
    ensures a + (b + c) == a + b + c
  {
  }

  predicate IsAscii(s: string) { forall i :: 0 <= i < |s| ==> s[i] as int < 128 }

  function CharByte(c: char): byte { c as int % 256 }

  /** The bytes of an ASCII string. */
  function Ascii(s: string): (b: bytes)
    requires IsAscii(s)
    ensures |b| == |s| && forall i :: 0 <= i < |s| ==> b[i] as int == s[i] as int < 128
  {
    seq(|s|, i requires 0 <= i < |s| => CharByte(s[i]))
  }

  /** The concatenation of a list of byte strings: a stream delivered in pieces. */
  function Flatten(pieces: seq<bytes>): bytes {
    if pieces == [] then [] else pieces[0] + Flatten(pieces[1..])
  }

  lemma {:induction false} FlattenAppend(a: seq<bytes>, b: seq<bytes>)
    ensures Flatten(a + b) == Flatten(a) + Flatten(b)
  {
    if a == [] {
      assert a + b == b;
    } else {
      assert (a + b)[1..] == a[1..] + b;
      FlattenAppend(a[1..], b);
    }
  }

  lemma FlattenSnoc(a: seq<bytes>, x: bytes)
    ensures Flatten(a + [x]) == Flatten(a) + x
  {
    FlattenAppend(a, [x]);
    assert Flatten([x]) == x;
  }
}
