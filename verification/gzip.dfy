/** Snapshot compression. `zlib.gzip`/`zlib.gunzip` are outside the model; they
    are replaced by a container with the real member header of section 2.3 of
    RFC 1952 (ID1 = 0x1F, ID2 = 0x8B, CM = 8, FLG = 0, MTIME = 0, XFL = 0,
    OS = 3) around an uncompressed payload. The DEFLATE stream and the CRC32 and
    ISIZE trailer are not modelled. */
module Gzip {
  import opened Wrappers
  import opened Codec

  const ID1: Byte := 0x1F
  const ID2: Byte := 0x8B
  const Header: Bytes := [ID1, ID2, 8, 0, 0, 0, 0, 0, 0, 3]

  function Compress(data: Bytes): (r: Bytes)
    ensures |r| > 2 && r[0] == ID1 && r[1] == ID2
  {
    Header + data
  }

  /** Fails, as `zlib.gunzip` does, on input that is not a gzip member. */
  function Decompress(b: Bytes): (r: Option<Bytes>)
    ensures r.Some? ==> b == Compress(r.value)
  {
    if |b| >= |Header| && b[..|Header|] == Header then Some(b[|Header|..]) else None
  }

  lemma {:induction false} RoundTrip(data: Bytes)
    ensures Decompress(Compress(data)) == Some(data)
  {
    assert Compress(data)[..|Header|] == Header;
  }

  /** The test the loader applies before trying to decompress stored content:
      longer than two bytes and starting with the two gzip magic bytes. */
  function LooksGzipped(content: Bytes): (r: bool)
    ensures Decompress(content).Some? ==> r
    ensures |content| <= 2 ==> !r
  {
    |content| > 2 && content[0] == ID1 && content[1] == ID2
  }

  /** Stored content as the loader hands it to `Y.applyUpdate`: decompressed
      when it carries the magic bytes and decompresses, raw otherwise (legacy
      uncompressed snapshots, or a failed decompression). */
  function Unwrap(content: Bytes): (r: Bytes)
    ensures !LooksGzipped(content) ==> r == content
    ensures LooksGzipped(content) && Decompress(content).None? ==> r == content
    ensures LooksGzipped(content) && Decompress(content).Some? ==> r == Decompress(content).value
  {
    if LooksGzipped(content) then Decompress(content).GetOr(content) else content
  }

  /** Every snapshot written by the service unwraps to what was compressed. */
  lemma {:induction false} UnwrapCompressed(data: Bytes)
    ensures Unwrap(Compress(data)) == data
  {
    RoundTrip(data);
  }
}
