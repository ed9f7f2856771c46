/** The per-file check of scanner.py (`check_image_corruption`, with
    `validate_webgl_style`): file size, then the first twenty bytes against the
    magic number of the extension's format, then an RGBA render of the decoded
    image, then the decoded size, the decoder's own verification and a full
    load. The file system and Pillow are inputs; what the functions do with
    their answers is modelled. Unlike scanner.js the polarity is "corrupt". */
module PilValidator {
  import opened Common
  import opened Decimal
  import opened Paths
  import opened Signatures

  /** `(False, None)` or `(True, message)`. */
  datatype Corruption = Clean | Corrupt(message: string)

  /** `os.path.getsize(path)` and the bytes `open(path, 'rb')` reads; either may
      raise. The header is the first twenty of those bytes, the ending the last
      two (`f.seek(-2, 2)`). */
  datatype PyFileView = PyFileView(size: Result<nat>, contents: Result<seq<byte>>)

  /** `img.convert('RGBA')`: its size and `tobytes()`. */
  datatype RgbaImage = RgbaImage(width: nat, height: nat, data: seq<byte>)

  /** What Pillow does with the file. `rgba` is the first open and conversion
      (or the message of the exception it raises); the size of the converted
      image is the size of the decoded one, so the later opens report the same
      size. The other fields are the messages of the exceptions the random
      pixel sampling, the second open, `img.verify()` and the third open with
      `load`, `getpixel` and `thumbnail` raise, if they do. */
  datatype PilDecoder = PilDecoder(
    rgba: Result<RgbaImage>,
    samplingError: Option<string>,
    reopenError: Option<string>,
    verifyError: Option<string>,
    loadError: Option<string>)

  const MinimumSize: nat := 100
  const HeaderLength: nat := 20
  const MaximumEdge: nat := 50000

  function SizeCheck(size: nat): (r: Option<string>)
    ensures r.Some? <==> size < MinimumSize
    ensures r.Some? ==> r.value != ""
  {
    if size == 0 then Some("Archivo vacío")
    else if size < MinimumSize then Some("Demasiado pequeño (" + NatToString(size) + " bytes)")
    else None
  }

  /** `header = f.read(20)`. */
  function Header(b: seq<byte>): (h: seq<byte>)
    ensures |h| == Min(HeaderLength, |b|) && h <= b
  {
    b[..Min(HeaderLength, |b|)]
  }

  /** The magic-number stage for the lower-cased suffix `ext`; `b` is the whole
      file, of which only the header and, for JPEG, the last two bytes are read. */
  function PyHeaderCheck(ext: string, b: seq<byte>): (r: Option<string>)
    ensures r.Some? ==> r.value != ""
  {
    var header := Header(b);
    if |header| < 4 then Some("Header incompleto")
    else if ext == ".jpg" || ext == ".jpeg" then
      if Slice(header, 0, 3) != JpegStart then Some("Header JPEG inválido")
      else if b[|b| - 2..] != JpegEnd then Some("Final JPEG incompleto")
      else None
    else if ext == ".png" then
      if Slice(header, 0, 8) != PngSignature then Some("Header PNG inválido") else None
    else if ext == ".gif" then
      if !(Slice(header, 0, 6) == Gif87a || Slice(header, 0, 6) == Gif89a) then Some("Header GIF inválido")
      else None
    else if ext == ".bmp" then
      if Slice(header, 0, 2) != BmpTag then Some("Header BMP inválido") else None
    else if ext == ".webp" then
      if !(Slice(header, 0, 4) == Riff && Slice(header, 8, 12) == WebpTag) then Some("Header WebP inválido")
      else None
    else None
  }

  /** `sum(1 for b in raw_data if b != 0)`. */
  function NonZeroCount(data: seq<byte>): (n: nat)
    ensures n <= |data|
    ensures n == 0 <==> forall i :: 0 <= i < |data| ==> data[i] == 0
  {
    if data == [] then 0
    else NonZeroCount(data[..|data| - 1]) + (if data[|data| - 1] != 0 then 1 else 0)
  }

  /** `validate_webgl_style(path)`: `None` for `(True, None)`, or the message. */
  function ValidateWebglStyle(pil: PilDecoder): (r: Option<string>)
    ensures r.Some? ==> r.value != ""
    ensures r.None? ==> pil.rgba.Ok? && NonZeroCount(pil.rgba.value.data) > 0
  {
    match pil.rgba
    case Err(msg) => Some("Error WebGL simulation: " + msg)
    case Ok(img) =>
      var rgbaLength := img.width * img.height * 4;
      if |img.data| != rgbaLength then
        Some("Datos RGBA incompletos: " + NatToString(|img.data|) + "/" + NatToString(rgbaLength))
      else if NonZeroCount(img.data) == 0 then Some("Imagen completamente vacía")
      else if Min(100, img.width * img.height) > 0 && pil.samplingError.Some? then
        Some("Error leyendo pixel: " + pil.samplingError.value)
      else None
  }

  /** The stages after the WebGL-style render, for a decoded size of
      `width` by `height`. */
  function DecodedCheck(width: nat, height: nat, pil: PilDecoder): (c: Corruption)
    ensures c.Corrupt? ==> c.message != ""
  {
    if pil.reopenError.Some? then Corrupt("Error: " + pil.reopenError.value)
    else if width <= 0 || height <= 0 then
      Corrupt("Dimensiones inválidas: " + NatToString(width) + "x" + NatToString(height))
    else if width > MaximumEdge || height > MaximumEdge then
      Corrupt("Dimensiones excesivas: " + NatToString(width) + "x" + NatToString(height))
    else if pil.verifyError.Some? then Corrupt("Error: " + pil.verifyError.value)
    else if pil.loadError.Some? then Corrupt("Error: " + pil.loadError.value)
    else Clean
  }

  /** `check_image_corruption(path)`: the stages in order, the first failure
      wins, and an exception outside the render becomes `Error: <message>`. */
  function CheckImageCorruption(path: string, file: PyFileView, pil: PilDecoder): (c: Corruption)
    ensures c.Corrupt? ==> c.message != ""
    ensures c == Clean ==> file.size.Ok? && file.size.value >= MinimumSize && file.contents.Ok?
                           && pil.rgba.Ok? && NonZeroCount(pil.rgba.value.data) > 0
  {
    match file.size
    case Err(msg) => Corrupt("Error: " + msg)
    case Ok(size) =>
      if SizeCheck(size).Some? then Corrupt(SizeCheck(size).value)
      else
        match file.contents
        case Err(msg) => Corrupt("Error: " + msg)
        case Ok(b) =>
          var header := PyHeaderCheck(Lower(Suffix(path)), b);
          if header.Some? then Corrupt(header.value)
          else
            var webgl := ValidateWebglStyle(pil);
            if webgl.Some? then Corrupt("WebGL validation: " + webgl.value)
            else DecodedCheck(pil.rgba.value.width, pil.rgba.value.height, pil)
  }

  // ---------------------------------------------------------------------------
  // Properties

  /** A file is clean exactly when every stage passes. */
  lemma CleanExactlyWhenAllStagesPass(path: string, file: PyFileView, pil: PilDecoder)
    ensures CheckImageCorruption(path, file, pil) == Clean <==>
      && file.size.Ok? && file.size.value >= MinimumSize
      && file.contents.Ok? && PyHeaderCheck(Lower(Suffix(path)), file.contents.value) == None
      && pil.rgba.Ok?
      && var img := pil.rgba.value;
         && |img.data| == img.width * img.height * 4
         && (exists i :: 0 <= i < |img.data| && img.data[i] != 0)
         && pil.samplingError.None? && pil.reopenError.None?
         && img.width <= MaximumEdge && img.height <= MaximumEdge
         && pil.verifyError.None? && pil.loadError.None?
  {
    if pil.rgba.Ok? {
      var img := pil.rgba.value;
      if |img.data| == img.width * img.height * 4 && NonZeroCount(img.data) > 0 {
        RenderedImageHasArea(img);
      }
    }
  }

  /** A render of the expected length with a non-zero byte has a positive
      width and height. */
  lemma RenderedImageHasArea(img: RgbaImage)
    requires |img.data| == img.width * img.height * 4
    requires NonZeroCount(img.data) > 0
    ensures img.width > 0 && img.height > 0
  {
  }

  /** The size stage runs first. */
  lemma PySizeStageComesFirst(path: string, size: nat, contents: Result<seq<byte>>, pil: PilDecoder)
    requires size < MinimumSize
    ensures var v := CheckImageCorruption(path, PyFileView(Ok(size), contents), pil);
      && (size == 0 ==> v == Corrupt("Archivo vacío"))
      && (size > 0 ==> v == Corrupt("Demasiado pequeño (" + NatToString(size) + " bytes)"))
  {
  }

  /** At most twenty bytes are looked at by the magic-number checks (apart
      from the JPEG ending), and fewer than four is a failure for every
      extension. */
  lemma HeaderIncomplete(ext: string, b: seq<byte>)
    requires |b| < 4
    ensures PyHeaderCheck(ext, b) == Some("Header incompleto")
  {
  }

  lemma HeaderReadsTwentyBytes(ext: string, b: seq<byte>, tail: seq<byte>)
    requires |b| >= HeaderLength && ext != ".jpg" && ext != ".jpeg"
    ensures PyHeaderCheck(ext, b[..HeaderLength] + tail) == PyHeaderCheck(ext, b)
  {
    var b' := b[..HeaderLength] + tail;
    assert Header(b') == Header(b);
  }

  /** JPEG: the start `FF D8 FF` is checked before the ending `FF D9`. */
  lemma PyJpegHeader(ext: string, b: seq<byte>)
    requires ext == ".jpg" || ext == ".jpeg"
    requires |b| >= 4
    ensures b[..3] != JpegStart ==> PyHeaderCheck(ext, b) == Some("Header JPEG inválido")
    ensures b[..3] == JpegStart && b[|b| - 2..] != JpegEnd ==>
      PyHeaderCheck(ext, b) == Some("Final JPEG incompleto")
    ensures PyHeaderCheck(ext, b) == None <==> b[..3] == JpegStart && b[|b| - 2..] == JpegEnd
  {
    assert Slice(Header(b), 0, 3) == b[..3];
  }

  /** PNG: the eight-byte signature at the start. */
  lemma PyPngHeader(b: seq<byte>)
    requires |b| >= 4
    ensures PyHeaderCheck(".png", b) == None <==> |b| >= 8 && b[..8] == PngSignature
    ensures PyHeaderCheck(".png", b) != None ==> PyHeaderCheck(".png", b) == Some("Header PNG inválido")
  {
    if |b| >= 8 {
      assert Slice(Header(b), 0, 8) == b[..8];
    }
  }

  /** GIF: either version string. */
  lemma PyGifHeader(b: seq<byte>)
    requires |b| >= 4
    ensures PyHeaderCheck(".gif", b) == None <==> |b| >= 6 && (b[..6] == Gif87a || b[..6] == Gif89a)
    ensures PyHeaderCheck(".gif", b) != None ==> PyHeaderCheck(".gif", b) == Some("Header GIF inválido")
  {
    if |b| >= 6 {
      assert Slice(Header(b), 0, 6) == b[..6];
    }
  }

  /** BMP: `BM` at the start. */
  lemma PyBmpHeader(b: seq<byte>)
    requires |b| >= 4
    ensures PyHeaderCheck(".bmp", b) == None <==> b[..2] == BmpTag
    ensures PyHeaderCheck(".bmp", b) != None ==> PyHeaderCheck(".bmp", b) == Some("Header BMP inválido")
  {
    assert Slice(Header(b), 0, 2) == b[..2];
  }

  /** WebP: `RIFF` at 0..3 and `WEBP` at 8..11. */
  lemma PyWebpHeader(b: seq<byte>)
    requires |b| >= 4
    ensures PyHeaderCheck(".webp", b) == None <==> |b| >= 12 && b[..4] == Riff && b[8..12] == WebpTag
    ensures PyHeaderCheck(".webp", b) != None ==> PyHeaderCheck(".webp", b) == Some("Header WebP inválido")
  {
    assert Slice(Header(b), 0, 4) == b[..4];
    if |b| >= 12 {
      assert Slice(Header(b), 8, 12) == b[8..12];
    }
  }

  /** Any other suffix has no magic-number check beyond the four-byte minimum. */
  lemma OtherSuffixesSkipMagic(ext: string, b: seq<byte>)
    requires ext !in {".jpg", ".jpeg", ".png", ".gif", ".bmp", ".webp"}
    requires |b| >= 4
    ensures PyHeaderCheck(ext, b) == None
  {
  }

  /** The render is judged before the decoded size: a wrong RGBA length or an
      all-zero render is reported whatever the size, and once the render has
      passed the size is positive, so the "invalid dimensions" message can only
      be reached if a later open reported a different size than the first. */
  lemma RenderBeforeDimensions(pil: PilDecoder)
    requires pil.rgba.Ok?
    ensures var img := pil.rgba.value;
      && (|img.data| != img.width * img.height * 4 ==>
            ValidateWebglStyle(pil).Some? && ValidateWebglStyle(pil).value[..24] == "Datos RGBA incompletos: ")
      && (|img.data| == img.width * img.height * 4 && (forall i :: 0 <= i < |img.data| ==> img.data[i] == 0) ==>
            ValidateWebglStyle(pil) == Some("Imagen completamente vacía"))
      && (ValidateWebglStyle(pil) == None ==> img.width > 0 && img.height > 0)
  {
    var img := pil.rgba.value;
    if |img.data| != img.width * img.height * 4 {
      var m := "Datos RGBA incompletos: ";
      var rest := NatToString(|img.data|) + "/" + NatToString(img.width * img.height * 4);
      assert ValidateWebglStyle(pil).value == m + rest;
      assert (m + rest)[..24] == m;
    }
    if ValidateWebglStyle(pil) == None {
      RenderedImageHasArea(img);
    }
  }

  /** With the size of the render, the dimension stage only rejects sizes above
      the limit. */
  lemma OversizeRejected(path: string, file: PyFileView, pil: PilDecoder)
    requires file.size.Ok? && file.size.value >= MinimumSize && file.contents.Ok?
    requires PyHeaderCheck(Lower(Suffix(path)), file.contents.value) == None
    requires pil.rgba.Ok? && ValidateWebglStyle(pil) == None && pil.reopenError.None?
    ensures var img := pil.rgba.value;
      CheckImageCorruption(path, file, pil) ==
        if img.width > MaximumEdge || img.height > MaximumEdge then
          Corrupt("Dimensiones excesivas: " + NatToString(img.width) + "x" + NatToString(img.height))
        else if pil.verifyError.Some? then Corrupt("Error: " + pil.verifyError.value)
        else if pil.loadError.Some? then Corrupt("Error: " + pil.loadError.value)
        else Clean
  {
    RenderBeforeDimensions(pil);
  }
}
