/** The magic numbers both validators compare file bytes against. */
module Signatures {
  import opened Common

  /** JPEG start-of-image marker `FF D8` followed by the `FF` that opens the next
      marker (ITU-T T.81, Annex B, Table B.1). */
  const JpegStart: seq<byte> := [0xFF, 0xD8, 0xFF]

  /** JPEG end-of-image marker `FF D9` (ITU-T T.81, Annex B, Table B.1). */
  const JpegEnd: seq<byte> := [0xFF, 0xD9]

  /** PNG signature (section 5.2 of the PNG specification, ISO/IEC 15948). */
  const PngSignature: seq<byte> := [0x89, 0x50, 0x4E, 0x47, 0x0D, 0x0A, 0x1A, 0x0A]

  /** `RIFF` and `WEBP`, the four-character codes at offsets 0 and 8 of a WebP
      file ("RIFF Header" section of RFC 9649). */
  const Riff: seq<byte> := [0x52, 0x49, 0x46, 0x46]
  const WebpTag: seq<byte> := [0x57, 0x45, 0x42, 0x50]

  /** `GIF87a` and `GIF89a` (section 17 "Header" of the GIF89a specification). */
  const Gif87a: seq<byte> := [0x47, 0x49, 0x46, 0x38, 0x37, 0x61]
  const Gif89a: seq<byte> := [0x47, 0x49, 0x46, 0x38, 0x39, 0x61]

  /** `BM`, the first two bytes of a Windows bitmap file. */
  const BmpTag: seq<byte> := [0x42, 0x4D]

  /** `b[i] === v` in JavaScript: an index outside the buffer reads `undefined`,
      which equals no byte. */
  predicate ByteIs(b: seq<byte>, i: int, v: byte) {
    0 <= i < |b| && b[i] == v
  }
}
