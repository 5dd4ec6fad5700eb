/** What the squashfs tools share: the compressor, which is foreign, and the stored-block rule. */
module Squashfs {
  import opened BitStrings

  /** A compressor and its inverse.  Nothing comes out of `compress` when the data does not fit. */
  datatype Codec = Codec(compress: seq<Byte> -> seq<Byte>, expand: seq<Byte> -> seq<Byte>) {
    ghost predicate Valid() {
      forall data :: compress(data) != [] ==> expand(compress(data)) == data
    }
  }

  /** What mangle2 leaves: the bytes, and whether the bit that says uncompressed is set. */
  datatype Packed = Packed(raw: bool, bytes: seq<Byte>)

  /** mangle2 (mksquashfs.c:879-899): data that compression would not make smaller is stored as it is. */
  function Mangle(c: Codec, data: seq<Byte>, uncompressed: bool): (p: Packed)
    ensures |p.bytes| <= |data| && (data != [] ==> p.bytes != [])
  {
    var z := if uncompressed then [] else c.compress(data);
    if z == [] || |z| >= |data| then Packed(true, data) else Packed(false, z)
  }

  /** Data is stored as it is exactly when it shall not be compressed, or is no smaller then. */
  lemma MangleIs(c: Codec, data: seq<Byte>, uncompressed: bool)
    ensures var p, z := Mangle(c, data, uncompressed), c.compress(data);
            && (p.raw <==> uncompressed || z == [] || |data| <= |z|) && p.bytes == if p.raw then data else z
  {
  }

  function Unmangle(c: Codec, p: Packed): seq<Byte> {
    if p.raw then p.bytes else c.expand(p.bytes)
  }

  lemma MangleRoundTrip(c: Codec, data: seq<Byte>, uncompressed: bool)
    requires c.Valid()
    ensures Unmangle(c, Mangle(c, data, uncompressed)) == data
  {
  }
}
