/** The per-file check a worker of scanner.js runs (`validateImageSharp`): file
    size, then the magic bytes of the extension's format, then the decoder's
    dimensions and a down-scaled raw render. The file system and the sharp
    decoder are inputs; what the function does with their answers is modelled. */
module SharpValidator {
  import opened Common
  import opened Decimal
  import opened Paths
  import opened Signatures

  /** `{valid: true, error: null}` or `{valid: false, error}`. */
  datatype Validity = Valid | Invalid(error: string)

  /** What `fs.stat(path).size` and `fs.readFile(path)` give: two separate reads
      of the file, each of which may throw. */
  datatype FileView = FileView(size: Result<nat>, contents: Result<seq<byte>>)

  /** The `width` and `height` of sharp's `metadata()`; either may be missing. */
  datatype Metadata = Metadata(width: Option<int>, height: Option<int>)

  /** The decoder as the validator sees it: the metadata promise, and the raw
      pixel buffer that `resize(w, h).raw().toBuffer()` produces for a requested
      size (or the message of the exception either one throws). */
  datatype SharpDecoder = SharpDecoder(
    metadata: Result<Metadata>,
    resample: (int, int) -> Result<seq<byte>>)

  /** Files smaller than this many bytes are rejected before any read. */
  const MinimumSize: nat := 100

  /** The probe render is at most this many pixels along each axis. */
  const ProbeEdge: int := 100

  function SizeCheck(size: nat): (r: Option<string>)
    ensures r.Some? <==> size < MinimumSize
    ensures r.Some? ==> r.value != ""
  {
    if size == 0 then Some("Empty file")
    else if size < MinimumSize then Some("Too small: " + NatToString(size) + " bytes")
    else None
  }

  /** The magic-byte stage for the lower-cased extension `ext`. */
  function HeaderCheck(ext: string, b: seq<byte>): (r: Option<string>)
    ensures r.Some? ==> r.value != ""
  {
    if ext == ".jpg" || ext == ".jpeg" then
      if !(ByteIs(b, 0, 0xFF) && ByteIs(b, 1, 0xD8) && ByteIs(b, 2, 0xFF)) then
        Some("Invalid JPEG header")
      else if !(ByteIs(b, |b| - 2, 0xFF) && ByteIs(b, |b| - 1, 0xD9)) then
        Some("Incomplete JPEG ending")
      else None
    else if ext == ".png" then
      if b[..Min(8, |b|)] != PngSignature then Some("Invalid PNG header") else None
    else if ext == ".webp" then
      if |b| < 12 || b[..4] != Riff || b[8..12] != WebpTag then Some("Invalid WebP header") else None
    else None
  }

  /** `processed.some(byte => byte > 0)`. */
  function HasPositiveByte(px: seq<byte>): (r: bool)
    ensures r <==> exists i :: 0 <= i < |px| && px[i] > 0
  {
    if px == [] then false
    else if px[|px| - 1] > 0 then true
    else HasPositiveByte(px[..|px| - 1])
  }

  /** The size the probe render is requested at: `Math.min(width, 100)` by
      `Math.min(height, 100)`. */
  function ProbeSize(width: int, height: int): (r: (int, int))
    requires width > 0 && height > 0
    ensures 1 <= r.0 <= ProbeEdge && r.0 <= width && (r.0 == width || r.0 == ProbeEdge)
    ensures 1 <= r.1 <= ProbeEdge && r.1 <= height && (r.1 == height || r.1 == ProbeEdge)
  {
    (Min(width, ProbeEdge), Min(height, ProbeEdge))
  }

  predicate HasDimensions(m: Metadata) {
    m.width.Some? && m.width.value > 0 && m.height.Some? && m.height.value > 0
  }

  /** The stages after the header check: dimensions, then the probe render. */
  function DecodeCheck(d: SharpDecoder): (v: Validity)
    ensures v.Invalid? ==> v.error != ""
  {
    match d.metadata
    case Err(msg) => Invalid("Processing error: " + msg)
    case Ok(m) =>
      if !HasDimensions(m) then Invalid("Invalid image dimensions")
      else
        var size := ProbeSize(m.width.value, m.height.value);
        match d.resample(size.0, size.1)
        case Err(msg) => Invalid("Processing error: " + msg)
        case Ok(px) =>
          if |px| == 0 then Invalid("Failed to process image data")
          else if !HasPositiveByte(px) then Invalid("Image appears completely transparent/black")
          else Valid
  }

  /** `validateImageSharp(path)`: the stages in order, the first failure wins,
      and an exception from any read becomes `Processing error: <message>`. */
  function ValidateImageSharp(path: string, file: FileView, decoder: SharpDecoder): (v: Validity)
    ensures v.Invalid? ==> v.error != ""
    ensures v == Valid ==> file.size.Ok? && file.size.value >= MinimumSize && file.contents.Ok?
  {
    match file.size
    case Err(msg) => Invalid("Processing error: " + msg)
    case Ok(size) =>
      if SizeCheck(size).Some? then Invalid(SizeCheck(size).value)
      else
        match file.contents
        case Err(msg) => Invalid("Processing error: " + msg)
        case Ok(b) =>
          var header := HeaderCheck(Lower(ExtName(path)), b);
          if header.Some? then Invalid(header.value) else DecodeCheck(decoder)
  }

  // ---------------------------------------------------------------------------
  // Properties

  /** A file is valid exactly when every stage passes. */
  lemma ValidExactlyWhenAllStagesPass(path: string, file: FileView, decoder: SharpDecoder)
    ensures ValidateImageSharp(path, file, decoder) == Valid <==>
      && file.size.Ok? && file.size.value >= MinimumSize
      && file.contents.Ok? && HeaderCheck(Lower(ExtName(path)), file.contents.value) == None
      && decoder.metadata.Ok? && HasDimensions(decoder.metadata.value)
      && var m := decoder.metadata.value;
         var px := decoder.resample(Min(m.width.value, 100), Min(m.height.value, 100));
         px.Ok? && |px.value| > 0 && exists i :: 0 <= i < |px.value| && px.value[i] > 0
  {
  }

  /** The size stage runs first: its verdict does not depend on the bytes, the
      extension or the decoder. */
  lemma SizeStageComesFirst(path: string, size: nat, contents: Result<seq<byte>>, decoder: SharpDecoder)
    requires size < MinimumSize
    ensures var v := ValidateImageSharp(path, FileView(Ok(size), contents), decoder);
      && (size == 0 ==> v == Invalid("Empty file"))
      && (size > 0 ==> v == Invalid("Too small: " + NatToString(size) + " bytes"))
  {
  }

  /** JPEG: a start that is not `FF D8 FF` is reported before the ending is
      looked at; a good start with an end other than `FF D9` is an incomplete
      ending; both good means the header stage passes. */
  lemma JpegHeader(ext: string, b: seq<byte>)
    requires ext == ".jpg" || ext == ".jpeg"
    ensures (|b| < 3 || b[..3] != JpegStart) ==> HeaderCheck(ext, b) == Some("Invalid JPEG header")
    ensures (|b| >= 3 && b[..3] == JpegStart && b[|b| - 2..] != JpegEnd) ==>
      HeaderCheck(ext, b) == Some("Incomplete JPEG ending")
    ensures HeaderCheck(ext, b) == None <==> |b| >= 3 && b[..3] == JpegStart && b[|b| - 2..] == JpegEnd
  {
    if |b| >= 3 && b[..3] == JpegStart {
      assert b[0] == 0xFF && b[1] == 0xD8 && b[2] == 0xFF;
      var tail := b[|b| - 2..];
      assert tail == JpegEnd <==> b[|b| - 2] == 0xFF && b[|b| - 1] == 0xD9 by {
        if b[|b| - 2] == 0xFF && b[|b| - 1] == 0xD9 {
          assert tail == [b[|b| - 2], b[|b| - 1]];
        }
      }
    }
  }

  /** PNG: the header stage passes exactly when the file starts with the
      eight-byte signature. */
  lemma PngHeader(b: seq<byte>)
    ensures HeaderCheck(".png", b) == None <==> |b| >= 8 && b[..8] == PngSignature
    ensures HeaderCheck(".png", b) != None ==> HeaderCheck(".png", b) == Some("Invalid PNG header")
  {
  }

  /** WebP: at least twelve bytes, `RIFF` at 0..3 and `WEBP` at 8..11; the
      four bytes in between (the RIFF size field) are never looked at. */
  lemma WebpHeader(b: seq<byte>, sizeField: seq<byte>)
    requires |sizeField| == 4
    ensures HeaderCheck(".webp", b) == None <==> |b| >= 12 && b[..4] == Riff && b[8..12] == WebpTag
    ensures HeaderCheck(".webp", b) != None ==> HeaderCheck(".webp", b) == Some("Invalid WebP header")
    ensures |b| >= 12 ==> HeaderCheck(".webp", b) == HeaderCheck(".webp", b[..4] + sizeField + b[8..])
  {
    if |b| >= 12 {
      var b' := b[..4] + sizeField + b[8..];
      assert b'[..4] == b[..4];
      assert b'[8..12] == b[8..12];
    }
  }

  /** Every extension other than the four checked ones skips the header stage. */
  lemma OtherExtensionsSkipHeader(ext: string, b: seq<byte>)
    requires ext != ".jpg" && ext != ".jpeg" && ext != ".png" && ext != ".webp"
    ensures HeaderCheck(ext, b) == None
  {
  }

  /** After the header stage the checks run in this order: dimensions, empty
      render, all-zero render; passing them all is the only way to be valid. */
  lemma DecodeStageOrder(m: Metadata, resample: (int, int) -> Result<seq<byte>>)
    ensures var v := DecodeCheck(SharpDecoder(Ok(m), resample));
      && (!HasDimensions(m) ==> v == Invalid("Invalid image dimensions"))
      && (HasDimensions(m) ==>
            var px := resample(Min(m.width.value, ProbeEdge), Min(m.height.value, ProbeEdge));
            && (px.Err? ==> v == Invalid("Processing error: " + px.message))
            && (px == Ok([]) ==> v == Invalid("Failed to process image data"))
            && (px.Ok? && |px.value| > 0 && (forall i :: 0 <= i < |px.value| ==> px.value[i] == 0) ==>
                  v == Invalid("Image appears completely transparent/black"))
            && (v == Valid <==> px.Ok? && HasPositiveByte(px.value)))
  {
  }
}
