/** How the two scanners of the repository relate on the same files: which
    extensions each recognises, where their magic-number checks agree, and
    that the Python collector finds every path the Node collector finds. */
module CrossChecks {
  import opened Common
  import opened Paths
  import opened FileTree
  import opened Signatures
  import SharpValidator
  import PilValidator
  import opened JsScanner
  import opened PyScanner

  /** scanner.py recognises every extension scanner.js does, and in addition
      the four Netpbm formats. */
  lemma ExtensionSetsCompared()
    ensures ImageExtensions <= PyImageExtensions
    ensures PyImageExtensions - ImageExtensions == {".ppm", ".pgm", ".pbm", ".pnm"}
  {
  }

  /** A file the Node collector keeps passes `is_image_file`: its extension is
      at least two characters long, so Python's suffix is the same string. */
  lemma CandidateIsImageFile(e: Entry)
    requires IsCandidate(e)
    ensures IsImageFile(e.name)
  {
    var ext := ExtName(e.name);
    SuffixAgreesWithExtName(e.name);
    ExtensionsAreLong(Lower(ext));
    ExtensionSetsCompared();
    assert Suffix(e.name) == ext;
  }

  lemma ExtensionsAreLong(x: string)
    requires x in ImageExtensions
    ensures |x| >= 2
  {
  }

  /** For the formats both validators check, a file of at least four bytes
      passes the Node magic-byte stage exactly when it passes the Python one. */
  lemma HeaderChecksAgree(ext: string, b: seq<byte>)
    requires ext == ".jpg" || ext == ".jpeg" || ext == ".png" || ext == ".webp"
    requires |b| >= 4
    ensures SharpValidator.HeaderCheck(ext, b) == None <==> PilValidator.PyHeaderCheck(ext, b) == None
  {
    if ext == ".jpg" || ext == ".jpeg" {
      SharpValidator.JpegHeader(ext, b);
      PilValidator.PyJpegHeader(ext, b);
    } else if ext == ".png" {
      SharpValidator.PngHeader(b);
      PilValidator.PyPngHeader(b);
    } else {
      SharpValidator.WebpHeader(b, [0, 0, 0, 0]);
      PilValidator.PyWebpHeader(b);
    }
  }

  /** GIF and BMP signatures are looked at by the Python validator only. */
  lemma GifAndBmpCheckedOnlyByPython(b: seq<byte>)
    requires |b| >= 6
    ensures SharpValidator.HeaderCheck(".gif", b) == None && SharpValidator.HeaderCheck(".bmp", b) == None
    ensures PilValidator.PyHeaderCheck(".gif", b) == None <==> b[..6] == Gif87a || b[..6] == Gif89a
    ensures PilValidator.PyHeaderCheck(".bmp", b) == None <==> b[..2] == BmpTag
  {
    SharpValidator.OtherExtensionsSkipHeader(".gif", b);
    SharpValidator.OtherExtensionsSkipHeader(".bmp", b);
    PilValidator.PyGifHeader(b);
    PilValidator.PyBmpHeader(b);
  }

  // ---------------------------------------------------------------------------
  // The collectors

  lemma {:induction false} WalkAllConcat(top: string, a: seq<Entry>, b: seq<Entry>)
    ensures WalkAll(top, a + b) == WalkAll(top, a) + WalkAll(top, b)
    decreases |b|
  {
    if b == [] {
      assert a + b == a;
    } else {
      var b' := b[..|b| - 1];
      assert (a + b)[..|a + b| - 1] == a + b';
      assert (a + b)[|a + b| - 1] == b[|b| - 1];
      WalkAllConcat(top, a, b');
    }
  }

  /** The walk of a listing is the walk of the entries before `i`, then the
      walk below entry `i`, then the walk of the entries after it. */
  lemma WalkAllAround(top: string, es: seq<Entry>, i: nat)
    requires i < |es|
    ensures WalkAll(top, es) == WalkAll(top, es[..i]) + WalkEntry(top, es[i]) + WalkAll(top, es[i + 1..])
  {
    var before, after := es[..i], es[i + 1..];
    assert es == before + [es[i]] + after;
    WalkAllConcat(top, before + [es[i]], after);
    WalkAllConcat(top, before, [es[i]]);
    assert WalkAll(top, [es[i]]) == WalkEntry(top, es[i]) by {
      assert [es[i]][..0] == [];
    }
  }

  lemma CollectedInMiddle(x: seq<WalkStep>, y: seq<WalkStep>, z: seq<WalkStep>, p: string)
    requires p in Collected(y)
    ensures p in Collected(x + y + z)
  {
    CollectedConcat(x + y, z);
    CollectedConcat(x, y);
  }

  /** What the walk of one sub-directory collects is collected by the walk of
      the listing that holds it. */
  lemma SubwalkCollected(top: string, es: seq<Entry>, i: nat, p: string)
    requires i < |es|
    requires p in Collected(WalkEntry(top, es[i]))
    ensures p in Collected(WalkAll(top, es))
  {
    WalkAllAround(top, es, i);
    CollectedInMiddle(WalkAll(top, es[..i]), WalkEntry(top, es[i]), WalkAll(top, es[i + 1..]), p);
  }

  /** Below a normalised directory path, the Python scanner collects every
      path the Node scanner collects (and, besides, the files
      `os.walk` lists that are not regular, and the Netpbm files). */
  lemma {:induction false} PythonCollectsEveryJsCandidate(dir: string, l: Listing, p: string)
    requires IsNormalisedDirectory(dir) && WellFormedListing(l)
    requires p in CandidatesIn(dir, l)
    ensures p in Collected(Walk(dir, l))
    decreases l
  {
    var i := CandidateSource(dir, l.entries, p);
    assert WellFormedEntry(l.entries[i]);
    if l.entries[i].kind.Directory? {
      SubdirectoryCandidate(dir, l.entries[i], p);
      PythonCollectsEveryJsCandidate(Join(dir, l.entries[i].name), l.entries[i].kind.listing, p);
      SubwalkCollected(dir, l.entries, i, p);
      TopFilesFirst(dir, l.entries);
    } else {
      FileCandidateCollected(dir, l.entries, i, p);
    }
  }

  /** A path the Node collector finds below a sub-directory is found there by
      a walk that both joins spell the same way. */
  lemma SubdirectoryCandidate(dir: string, e: Entry, p: string)
    requires IsNormalisedDirectory(dir) && WellFormedEntry(e) && e.kind.Directory?
    requires p in CandidatesOfEntry(dir, e)
    ensures IsNormalisedDirectory(Join(dir, e.name)) && WellFormedListing(e.kind.listing)
    ensures p in CandidatesIn(Join(dir, e.name), e.kind.listing)
    ensures WalkEntry(dir, e) == Walk(Join(dir, e.name), e.kind.listing)
  {
    JoinKeepsNormalised(dir, e.name);
  }

  /** A file the Node collector keeps is among the top files of the walk. */
  lemma FileCandidateCollected(dir: string, es: seq<Entry>, i: nat, p: string)
    requires IsNormalisedDirectory(dir) && i < |es| && WellFormedEntry(es[i]) && !es[i].kind.Directory?
    requires p in CandidatesOfEntry(dir, es[i])
    ensures p in Collected(Walk(dir, Listed(es)))
  {
    JoinKeepsNormalised(dir, es[i].name);
    FileEntryCandidates(dir, es[i], p);
    CandidateIsImageFile(es[i]);
    var j := FileNameListed(es, i);
    ImagePathsComplete(dir, FileNames(es), j);
    TopFilesFirst(dir, es);
  }

  /** For the default directory `.` the two scanners name the same file
      differently: Node's join drops the `.`, Python's keeps it. */
  lemma DefaultDirectorySpelling(name: string)
    requires IsEntryName(name)
    ensures Join(".", name) == name && PyJoin(".", name) == "./" + name
    ensures Join(".", name) != PyJoin(".", name)
  {
    assert |PyJoin(".", name)| == |name| + 2;
  }
}
