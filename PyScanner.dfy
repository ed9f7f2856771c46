/** The collection and the thread-pool scan of scanner.py: `is_image_file`,
    `collect_image_files` over `os.walk`, `process_image`, and
    `scan_directory_multithreaded`. The threads are not modelled: the order in
    which `as_completed` hands back the futures is an input (a permutation of
    the positions of the collected paths), and so are the verdicts and the
    sizes the file system reports. */
module PyScanner {
  import opened Common
  import opened Paths
  import opened FileTree
  import opened PilValidator

  /** `IMAGE_EXTENSIONS`. */
  const PyImageExtensions: set<string> :=
    {".jpg", ".jpeg", ".png", ".gif", ".bmp", ".tiff", ".tif",
     ".webp", ".ico", ".ppm", ".pgm", ".pbm", ".pnm"}

  /** A lower-cased suffix `is_image_file` recognises. */
  predicate IsImageSuffix(x: string) {
    x in PyImageExtensions
  }

  /** `is_image_file(filename)`: the lower-cased `Path.suffix` is recognised. */
  predicate IsImageFile(name: string) {
    IsImageSuffix(Lower(Suffix(name)))
  }

  // ---------------------------------------------------------------------------
  // `os.walk`, top-down, not following links, errors ignored

  /** One triple `os.walk` yields, without the sub-directory names, which the
      collector does not read. */
  datatype WalkStep = WalkStep(root: string, files: seq<string>)

  /** `os.walk` puts an entry among the directories when `is_dir()` is true,
      which follows a symbolic link; everything else is a file. */
  predicate IsWalkDirectory(k: Kind) {
    k.Directory? || k.SymlinkToDirectory?
  }

  /** The file names of a listing, in listing order. */
  function FileNames(es: seq<Entry>): (names: seq<string>)
    ensures |names| <= |es|
  {
    if es == [] then []
    else FileNames(es[..|es| - 1]) + (if IsWalkDirectory(es[|es| - 1].kind) then [] else [es[|es| - 1].name])
  }

  /** The triples `os.walk(top)` yields when `top` lists as `l`: the top first,
      then the walk of each real sub-directory in listing order; a link to a
      directory is not entered, and a listing that fails yields nothing. */
  function Walk(top: string, l: Listing): (w: seq<WalkStep>)
    ensures w == [] <==> l.Unreadable?
    decreases l
  {
    match l
    case Unreadable => []
    case Listed(es) => [WalkStep(top, FileNames(es))] + WalkAll(top, es)
  }

  function WalkAll(top: string, es: seq<Entry>): seq<WalkStep>
    decreases es
  {
    if es == [] then []
    else WalkAll(top, es[..|es| - 1]) + WalkEntry(top, es[|es| - 1])
  }

  function WalkEntry(top: string, e: Entry): seq<WalkStep>
    decreases e
  {
    match e.kind
    case Directory(sub) => Walk(PyJoin(top, e.name), sub)
    case _ => []
  }

  // ---------------------------------------------------------------------------
  // `collect_image_files`

  /** The paths the inner loop appends for one triple. */
  function ImagePaths(root: string, files: seq<string>): (ps: seq<string>)
    ensures |ps| <= |files|
  {
    if files == [] then []
    else
      var name := files[|files| - 1];
      ImagePaths(root, files[..|files| - 1]) + (if IsImageFile(name) then [PyJoin(root, name)] else [])
  }

  /** The paths the inner loop appends, triple by triple. */
  function StepPaths(steps: seq<WalkStep>): (parts: seq<seq<string>>)
    ensures |parts| == |steps|
  {
    seq(|steps|, k requires 0 <= k < |steps| => ImagePaths(steps[k].root, steps[k].files))
  }

  /** The paths collected from a sequence of triples. */
  function Collected(steps: seq<WalkStep>): seq<string>
  {
    Concat(StepPaths(steps))
  }

  /** `collect_image_files(directory_path)` where the directory lists as `l`:
      the loop over the triples of the walk. */
  method CollectImageFiles(directoryPath: string, l: Listing) returns (imageFiles: seq<string>)
    ensures imageFiles == Collected(Walk(directoryPath, l))
  {
    var steps := Walk(directoryPath, l);
    imageFiles := [];
    for s := 0 to |steps|
      invariant imageFiles == Concat(StepPaths(steps)[..s])
    {
      CollectedStep(steps, s);
      var found := ImageFilesOf(steps[s].root, steps[s].files);
      imageFiles := imageFiles + found;
    }
    assert StepPaths(steps)[..|steps|] == StepPaths(steps);
  }

  /** The inner loop of `collect_image_files`: the image files of one triple,
      joined to its root, in order. */
  method ImageFilesOf(root: string, files: seq<string>) returns (found: seq<string>)
    ensures found == ImagePaths(root, files)
  {
    found := [];
    for f := 0 to |files|
      invariant found == ImagePaths(root, files[..f])
    {
      ImagePathsStep(root, files, f);
      var kept := if IsImageFile(files[f]) then [PyJoin(root, files[f])] else [];
      found := found + kept;
    }
    TakeAll(files);
  }

  lemma ImagePathsStep(root: string, files: seq<string>, f: nat)
    requires f < |files|
    ensures ImagePaths(root, files[..f + 1]) ==
      ImagePaths(root, files[..f]) + if IsImageFile(files[f]) then [PyJoin(root, files[f])] else []
  {
    assert files[..f + 1][..f] == files[..f];
  }

  lemma CollectedStep(steps: seq<WalkStep>, s: nat)
    requires s < |steps|
    ensures Concat(StepPaths(steps)[..s + 1]) ==
      Concat(StepPaths(steps)[..s]) + ImagePaths(steps[s].root, steps[s].files)
  {
    ConcatTake(StepPaths(steps), s);
  }

  lemma CollectedConcat(a: seq<WalkStep>, b: seq<WalkStep>)
    ensures Collected(a + b) == Collected(a) + Collected(b)
  {
    var pa, pb, pab := StepPaths(a), StepPaths(b), StepPaths(a + b);
    assert |pab| == |pa + pb|;
    forall k | 0 <= k < |pab|
      ensures pab[k] == (pa + pb)[k]
    {
      if k < |a| {
        assert (a + b)[k] == a[k];
      } else {
        assert (a + b)[k] == b[k - |a|];
      }
    }
    assert pab == pa + pb;
    ConcatAppend(pa, pb);
  }

  /** The paths of a single triple. */
  lemma CollectedSingle(step: WalkStep)
    ensures Collected([step]) == ImagePaths(step.root, step.files)
  {
    assert StepPaths([step]) == [ImagePaths(step.root, step.files)];
    ConcatSingle(ImagePaths(step.root, step.files));
  }

  /** One step of the inner loop, seen from the last file of the triple. */
  lemma ImagePathsLast(root: string, files: seq<string>)
    requires files != []
    ensures ImagePaths(root, files) ==
      ImagePaths(root, files[..|files| - 1]) + if IsImageFile(files[|files| - 1]) then [PyJoin(root, files[|files| - 1])] else []
  {
  }

  /** Every collected path of a triple is an image file of it joined to the
      root. */
  lemma {:induction false} ImagePathsSound(root: string, files: seq<string>, p: string) returns (i: nat)
    requires p in ImagePaths(root, files)
    ensures i < |files| && IsImageFile(files[i]) && p == PyJoin(root, files[i])
    decreases |files|
  {
    if p in ImagePaths(root, files[..|files| - 1]) {
      i := ImagePathsSound(root, files[..|files| - 1], p);
      assert files[..|files| - 1][i] == files[i];
    } else {
      ImagePathsNewIsLast(root, files, p);
      i := |files| - 1;
    }
  }

  /** Every image file of a triple is collected, joined to the root. */
  lemma {:induction false} ImagePathsComplete(root: string, files: seq<string>, i: nat)
    requires i < |files| && IsImageFile(files[i])
    ensures PyJoin(root, files[i]) in ImagePaths(root, files)
    decreases |files|
  {
    if i < |files| - 1 {
      assert files[..|files| - 1][i] == files[i];
      ImagePathsComplete(root, files[..|files| - 1], i);
      ImagePathsKeepsPrefix(root, files, PyJoin(root, files[i]));
    } else {
      ImagePathsHasLast(root, files);
    }
  }

  lemma ImagePathsNewIsLast(root: string, files: seq<string>, p: string)
    requires files != [] && p in ImagePaths(root, files) && p !in ImagePaths(root, files[..|files| - 1])
    ensures IsImageFile(files[|files| - 1]) && p == PyJoin(root, files[|files| - 1])
  {
    ImagePathsLast(root, files);
  }

  lemma ImagePathsKeepsPrefix(root: string, files: seq<string>, p: string)
    requires files != [] && p in ImagePaths(root, files[..|files| - 1])
    ensures p in ImagePaths(root, files)
  {
    ImagePathsLast(root, files);
  }

  lemma ImagePathsHasLast(root: string, files: seq<string>)
    requires files != [] && IsImageFile(files[|files| - 1])
    ensures PyJoin(root, files[|files| - 1]) in ImagePaths(root, files)
  {
    ImagePathsLast(root, files);
  }

  lemma ImagePathsMembership(root: string, files: seq<string>, p: string)
    ensures p in ImagePaths(root, files) <==>
      exists i :: 0 <= i < |files| && IsImageFile(files[i]) && p == PyJoin(root, files[i])
  {
    if p in ImagePaths(root, files) {
      var i := ImagePathsSound(root, files, p);
    }
    if exists i :: 0 <= i < |files| && IsImageFile(files[i]) && p == PyJoin(root, files[i]) {
      var i :| 0 <= i < |files| && IsImageFile(files[i]) && p == PyJoin(root, files[i]);
      ImagePathsComplete(root, files, i);
    }
  }

  lemma FileNamesMembership(es: seq<Entry>, name: string)
    ensures name in FileNames(es) <==>
      exists i :: 0 <= i < |es| && !IsWalkDirectory(es[i].kind) && es[i].name == name
  {
    if name in FileNames(es) {
      var i := FileNameSource(es, name);
    }
    if exists i :: 0 <= i < |es| && !IsWalkDirectory(es[i].kind) && es[i].name == name {
      var i :| 0 <= i < |es| && !IsWalkDirectory(es[i].kind) && es[i].name == name;
      var j := FileNameListed(es, i);
    }
  }

  lemma FileNamesLast(es: seq<Entry>)
    requires es != []
    ensures FileNames(es) ==
      FileNames(es[..|es| - 1]) + if IsWalkDirectory(es[|es| - 1].kind) then [] else [es[|es| - 1].name]
  {
  }

  /** Every file name of a listing is the name of one of its non-directory
      entries. */
  lemma {:induction false} FileNameSource(es: seq<Entry>, name: string) returns (i: nat)
    requires name in FileNames(es)
    ensures i < |es| && !IsWalkDirectory(es[i].kind) && es[i].name == name
    decreases |es|
  {
    FileNamesLast(es);
    if name in FileNames(es[..|es| - 1]) {
      i := FileNameSource(es[..|es| - 1], name);
      assert es[..|es| - 1][i] == es[i];
    } else {
      i := |es| - 1;
    }
  }

  /** Every non-directory entry has its name among the file names, at the
      position `j`. */
  lemma {:induction false} FileNameListed(es: seq<Entry>, i: nat) returns (j: nat)
    requires i < |es| && !IsWalkDirectory(es[i].kind)
    ensures j < |FileNames(es)| && FileNames(es)[j] == es[i].name
    decreases |es|
  {
    FileNamesLast(es);
    if i < |es| - 1 {
      assert es[..|es| - 1][i] == es[i];
      j := FileNameListed(es[..|es| - 1], i);
    } else {
      j := |FileNames(es[..|es| - 1])|;
    }
  }

  /** `os.walk` hands over the files of a directory before anything below it,
      so all image files of the top directory come before any from a
      sub-directory. */
  lemma TopFilesFirst(top: string, es: seq<Entry>)
    ensures Collected(Walk(top, Listed(es))) ==
      ImagePaths(top, FileNames(es)) + Collected(WalkAll(top, es))
  {
    var first := WalkStep(top, FileNames(es));
    CollectedConcat([first], WalkAll(top, es));
    CollectedSingle(first);
  }

  /** In a directory without sub-directories the collected paths are exactly the
      joined names of the image files and of the other non-directory entries
      with an image suffix. */
  lemma FlatDirectoryMembership(top: string, es: seq<Entry>, p: string)
    requires forall i :: 0 <= i < |es| ==> !es[i].kind.Directory?
    ensures p in Collected(Walk(top, Listed(es))) <==>
      exists i :: 0 <= i < |es| && !IsWalkDirectory(es[i].kind) && IsImageFile(es[i].name)
                  && p == PyJoin(top, es[i].name)
  {
    TopFilesFirst(top, es);
    NoSubwalks(top, es);
    var names := FileNames(es);
    assert Collected(Walk(top, Listed(es))) == ImagePaths(top, names);
    ImagePathsMembership(top, names, p);
    if p in ImagePaths(top, names) {
      var j :| 0 <= j < |names| && IsImageFile(names[j]) && p == PyJoin(top, names[j]);
      FileNamesMembership(es, names[j]);
    }
    if exists i :: 0 <= i < |es| && !IsWalkDirectory(es[i].kind) && IsImageFile(es[i].name)
                   && p == PyJoin(top, es[i].name) {
      var i :| 0 <= i < |es| && !IsWalkDirectory(es[i].kind) && IsImageFile(es[i].name)
               && p == PyJoin(top, es[i].name);
      FileNamesMembership(es, es[i].name);
      var j :| 0 <= j < |names| && names[j] == es[i].name;
      assert IsImageFile(names[j]) && p == PyJoin(top, names[j]);
    }
  }

  lemma {:induction false} NoSubwalks(top: string, es: seq<Entry>)
    requires forall i :: 0 <= i < |es| ==> !es[i].kind.Directory?
    ensures WalkAll(top, es) == []
    decreases |es|
  {
    if es != [] {
      NoSubwalks(top, es[..|es| - 1]);
    }
  }

  /** Every collected path has a recognised suffix, and so passes
      `is_image_file` itself. */
  lemma {:induction false} CollectedAreImageFiles(steps: seq<WalkStep>, p: string)
    requires NamesWellFormed(steps)
    requires p in Collected(steps)
    ensures IsImageFile(p)
    decreases |steps|
  {
    CollectedLast(steps);
    if p in Collected(steps[..|steps| - 1]) {
      NamesWellFormedPrefix(steps);
      CollectedAreImageFiles(steps[..|steps| - 1], p);
    } else {
      NamesWellFormedPrefix(steps);
      JoinedImageIsImage(steps[|steps| - 1], p);
    }
  }

  lemma CollectedLast(steps: seq<WalkStep>)
    requires steps != []
    ensures Collected(steps) ==
      Collected(steps[..|steps| - 1]) + ImagePaths(steps[|steps| - 1].root, steps[|steps| - 1].files)
  {
    assert StepPaths(steps)[..|steps| - 1] == StepPaths(steps[..|steps| - 1]);
  }

  lemma NamesWellFormedPrefix(steps: seq<WalkStep>)
    requires steps != [] && NamesWellFormed(steps)
    ensures NamesWellFormed(steps[..|steps| - 1])
    ensures StepNamesWellFormed(steps[|steps| - 1])
  {
    NamesWellFormedTake(steps, |steps| - 1);
  }

  lemma NamesWellFormedTake(steps: seq<WalkStep>, n: nat)
    requires n <= |steps| && NamesWellFormed(steps)
    ensures NamesWellFormed(steps[..n])
  {
    forall k | 0 <= k < n
      ensures StepNamesWellFormed(steps[..n][k])
    {
      assert steps[..n][k] == steps[k];
    }
  }

  /** A path collected from a triple of well-formed names has an image suffix:
      joining keeps the name as the final component. */
  lemma JoinedImageIsImage(step: WalkStep, p: string)
    requires StepNamesWellFormed(step)
    requires p in ImagePaths(step.root, step.files)
    ensures IsImageFile(p)
  {
    var i := ImagePathsSound(step.root, step.files, p);
    ExtensionOfJoin(step.root, step.files[i]);
  }

  /** Every file name in the triples is one a directory listing can hold. */
  predicate NamesWellFormed(steps: seq<WalkStep>) {
    forall k :: 0 <= k < |steps| ==> StepNamesWellFormed(steps[k])
  }

  predicate StepNamesWellFormed(step: WalkStep) {
    forall i :: 0 <= i < |step.files| ==> IsEntryName(step.files[i])
  }

  lemma NamesWellFormedConcat(a: seq<WalkStep>, b: seq<WalkStep>)
    requires NamesWellFormed(a) && NamesWellFormed(b)
    ensures NamesWellFormed(a + b)
  {
    forall k | 0 <= k < |a + b|
      ensures StepNamesWellFormed((a + b)[k])
    {
      if k < |a| {
        assert (a + b)[k] == a[k];
      } else {
        assert (a + b)[k] == b[k - |a|];
      }
    }
  }

  /** The names a walk of a well-formed tree yields are entry names. */
  lemma {:induction false} WalkNamesWellFormed(top: string, l: Listing)
    requires WellFormedListing(l)
    ensures NamesWellFormed(Walk(top, l))
    decreases l
  {
    match l
    case Unreadable =>
    case Listed(es) =>
      var first := WalkStep(top, FileNames(es));
      forall i | 0 <= i < |first.files| ensures IsEntryName(first.files[i]) {
        FileNamesMembership(es, first.files[i]);
      }
      WalkAllNamesWellFormed(top, es);
      NamesWellFormedConcat([first], WalkAll(top, es));
  }

  lemma {:induction false} WalkAllNamesWellFormed(top: string, es: seq<Entry>)
    requires forall i :: 0 <= i < |es| ==> WellFormedEntry(es[i])
    ensures NamesWellFormed(WalkAll(top, es))
    decreases es
  {
    if es != [] {
      var n := |es|;
      WalkAllNamesWellFormed(top, es[..n - 1]);
      var e := es[n - 1];
      assert WellFormedEntry(e);
      match e.kind {
        case Directory(sub) =>
          WalkNamesWellFormed(PyJoin(top, e.name), sub);
          NamesWellFormedConcat(WalkAll(top, es[..n - 1]), Walk(PyJoin(top, e.name), sub));
        case _ =>
          assert WalkAll(top, es) == WalkAll(top, es[..n - 1]) + [];
      }
    }
  }

  /** What `collect_image_files` returns for a well-formed tree passes
      `is_image_file`. */
  lemma CollectedImageFilesAreImages(top: string, l: Listing, p: string)
    requires WellFormedListing(l)
    requires p in Collected(Walk(top, l))
    ensures IsImageFile(p)
  {
    WalkNamesWellFormed(top, l);
    CollectedAreImageFiles(Walk(top, l), p);
  }

  // ---------------------------------------------------------------------------
  // `process_image`

  /** `{'path': ..., 'error': ..., 'size': ...}`. */
  datatype PyRecord = PyRecord(path: string, error: string, size: nat)

  /** `process_image(path)` for the verdict `check_image_corruption` gives.
      `sizeNow` is what the size lookup after the check sees: `None` when the
      file no longer exists, otherwise the result of `os.path.getsize`, whose
      exception is caught and drops the record. */
  function ProcessImage(path: string, verdict: Corruption, sizeNow: Option<Result<nat>>): (r: Option<PyRecord>)
    ensures r.Some? ==> verdict.Corrupt? && r.value.path == path && r.value.error == verdict.message
  {
    match verdict
    case Clean => None
    case Corrupt(message) =>
      match sizeNow
      case None => Some(PyRecord(path, message, 0))
      case Some(Err(_)) => None
      case Some(Ok(size)) => Some(PyRecord(path, message, size))
  }

  lemma ProcessImageRecordsCorruption(path: string, verdict: Corruption, sizeNow: Option<Result<nat>>)
    ensures var r := ProcessImage(path, verdict, sizeNow);
      && (r.Some? <==> verdict.Corrupt? && !(sizeNow.Some? && sizeNow.value.Err?))
      && (r.Some? ==> r.value.path == path && r.value.error == verdict.message
                      && r.value.size == (if sizeNow.None? then 0 else sizeNow.value.value))
  {
  }

  // ---------------------------------------------------------------------------
  // `scan_directory_multithreaded`

  /** `0, 1, ..., n - 1`. */
  function Positions(n: nat): (ps: seq<nat>)
    ensures |ps| == n && forall i :: 0 <= i < n ==> ps[i] == i
  {
    seq(n, i => i)
  }

  /** `as_completed` hands back every future exactly once. */
  predicate IsCompletionOrder(order: seq<nat>, n: nat) {
    multiset(order) == multiset(Positions(n))
  }

  datatype PyScanOutcome = Scanned(corrupt: seq<PyRecord>, total: nat) | PoolRefused

  /** The records of the futures in the order they complete; `outcome(k)` is
      what `process_image` returns for the `k`-th collected path. */
  function RecordsInOrder(order: seq<nat>, outcome: nat -> Option<PyRecord>): (rs: seq<PyRecord>)
    ensures |rs| <= |order|
  {
    if order == [] then []
    else RecordsInOrder(order[..|order| - 1], outcome) + RecordOf(order[|order| - 1], outcome)
  }

  /** The record the future of position `k` adds, if any. */
  function RecordOf(k: nat, outcome: nat -> Option<PyRecord>): (rs: seq<PyRecord>)
    ensures |rs| <= 1
  {
    if outcome(k).Some? then [outcome(k).value] else []
  }

  /** `ThreadPoolExecutor(max_workers)` raises for a worker count that is not
      positive; `None` picks a default. */
  predicate PoolAccepts(maxWorkers: Option<int>) {
    maxWorkers.None? || maxWorkers.value > 0
  }

  /** What `process_image` returns for each collected path. */
  function Outcomes(files: seq<string>, verdicts: nat -> Corruption, sizes: nat -> Option<Result<nat>>)
    : nat -> Option<PyRecord>
  {
    (k: nat) => if k < |files| then ProcessImage(files[k], verdicts(k), sizes(k)) else None
  }

  /** `scan_directory_multithreaded(directory_path, verbose, max_workers)`:
      collect, then gather the records of the corrupt paths in completion order.
      The third element of the Python result is always the empty list. */
  method ScanDirectoryMultithreaded(directoryPath: string, l: Listing, maxWorkers: Option<int>,
                                    verdicts: nat -> Corruption, sizes: nat -> Option<Result<nat>>,
                                    order: seq<nat>)
    returns (result: PyScanOutcome)
    requires IsCompletionOrder(order, |Collected(Walk(directoryPath, l))|)
    ensures var files := Collected(Walk(directoryPath, l));
      result == if PoolAccepts(maxWorkers)
                then Scanned(RecordsInOrder(order, Outcomes(files, verdicts, sizes)), |files|)
                else PoolRefused
  {
    var imageFiles := CollectImageFiles(directoryPath, l);
    var totalImages := |imageFiles|;
    var corruptImages := [];
    var processed := 0;
    if !PoolAccepts(maxWorkers) {
      return PoolRefused;
    }
    var outcome := Outcomes(imageFiles, verdicts, sizes);
    while processed < |order|
      invariant 0 <= processed <= |order|
      invariant corruptImages == RecordsInOrder(order[..processed], outcome)
    {
      var k := order[processed];
      RecordsTakeStep(order, processed, outcome);
      var r := outcome(k);
      processed := processed + 1;
      if r.Some? {
        corruptImages := corruptImages + [r.value];
      }
    }
    TakeAll(order);
    return Scanned(corruptImages, totalImages);
  }

  // ---------------------------------------------------------------------------
  // Properties of the scan

  lemma {:induction false} RecordsConcat(a: seq<nat>, b: seq<nat>, outcome: nat -> Option<PyRecord>)
    ensures RecordsInOrder(a + b, outcome) == RecordsInOrder(a, outcome) + RecordsInOrder(b, outcome)
    decreases |b|
  {
    if b == [] {
      assert a + b == a;
    } else {
      var b' := b[..|b| - 1];
      assert a + b == (a + b') + [b[|b| - 1]];
      assert (a + b)[..|a + b| - 1] == a + b';
      RecordsConcat(a, b', outcome);
    }
  }

  /** The records depend on the completion order only through their order:
      two completion orders that are permutations of each other give the same
      records, each as often. */
  lemma {:induction false} RecordsPermutation(a: seq<nat>, b: seq<nat>, outcome: nat -> Option<PyRecord>)
    requires multiset(a) == multiset(b)
    ensures multiset(RecordsInOrder(a, outcome)) == multiset(RecordsInOrder(b, outcome))
    decreases |a|
  {
    if a == [] {
      assert |b| == |multiset(b)| == 0;
    } else {
      var j := OccurrenceOfLast(a, b);
      RemoveOne(a, b, j);
      RecordsPermutation(a[..|a| - 1], b[..j] + b[j + 1..], outcome);
      RecordsWithout(b, j, outcome);
    }
  }

  lemma OccurrenceOfLast(a: seq<nat>, b: seq<nat>) returns (j: nat)
    requires multiset(a) == multiset(b) && a != []
    ensures j < |b| && b[j] == a[|a| - 1]
  {
    assert a[|a| - 1] in multiset(b);
    j :| 0 <= j < |b| && b[j] == a[|a| - 1];
  }

  /** Taking position `j` out of an order takes its record, if any, out of the
      records. */
  lemma RecordsWithout(b: seq<nat>, j: nat, outcome: nat -> Option<PyRecord>)
    requires j < |b|
    ensures multiset(RecordsInOrder(b, outcome)) ==
      multiset(RecordsInOrder(b[..j] + b[j + 1..], outcome)) + multiset(RecordOf(b[j], outcome))
  {
    RecordsSplitAt(b, j + 1, outcome);
    RecordsTakeStep(b, j, outcome);
    RecordsConcat(b[..j], b[j + 1..], outcome);
    MultisetOfMiddle(RecordsInOrder(b[..j], outcome), RecordOf(b[j], outcome), RecordsInOrder(b[j + 1..], outcome));
  }

  lemma RecordsSplitAt(b: seq<nat>, n: nat, outcome: nat -> Option<PyRecord>)
    requires n <= |b|
    ensures RecordsInOrder(b, outcome) == RecordsInOrder(b[..n], outcome) + RecordsInOrder(b[n..], outcome)
  {
    RecordsOfParts(b, b[..n], b[n..], outcome);
  }

  lemma RecordsOfParts(c: seq<nat>, a: seq<nat>, b: seq<nat>, outcome: nat -> Option<PyRecord>)
    requires c == a + b
    ensures RecordsInOrder(c, outcome) == RecordsInOrder(a, outcome) + RecordsInOrder(b, outcome)
  {
    RecordsConcat(a, b, outcome);
  }

  lemma RecordsTakeStep(b: seq<nat>, j: nat, outcome: nat -> Option<PyRecord>)
    requires j < |b|
    ensures RecordsInOrder(b[..j + 1], outcome) == RecordsInOrder(b[..j], outcome) + RecordOf(b[j], outcome)
  {
    assert b[..j + 1][..j] == b[..j];
  }

  /** A record comes from a position the order visits, with that position's
      outcome. */
  lemma {:induction false} RecordsComeFromOrder(order: seq<nat>, outcome: nat -> Option<PyRecord>, r: PyRecord)
    requires r in RecordsInOrder(order, outcome)
    ensures exists i :: 0 <= i < |order| && outcome(order[i]) == Some(r)
    decreases |order|
  {
    var n := |order|;
    var k := order[n - 1];
    if r in RecordsInOrder(order[..n - 1], outcome) {
      RecordsComeFromOrder(order[..n - 1], outcome, r);
      var i :| 0 <= i < n - 1 && outcome(order[..n - 1][i]) == Some(r);
      assert order[..n - 1][i] == order[i];
    } else {
      assert outcome(order[n - 1]) == Some(r);
    }
  }

  /** The scan reports at most one record per collected path, the number of
      records does not depend on the completion order, and every record is the
      verdict of a collected path that was found corrupt. */
  lemma ScanResultProperties(files: seq<string>, verdicts: nat -> Corruption,
                             sizes: nat -> Option<Result<nat>>, order: seq<nat>, order2: seq<nat>)
    requires IsCompletionOrder(order, |files|) && IsCompletionOrder(order2, |files|)
    ensures var outcome := Outcomes(files, verdicts, sizes);
      var rs := RecordsInOrder(order, outcome);
      && |rs| <= |files|
      && |rs| == |RecordsInOrder(order2, outcome)|
      && multiset(rs) == multiset(RecordsInOrder(order2, outcome))
      && (forall r :: r in rs ==> exists k :: 0 <= k < |files| && r.path == files[k]
                                    && verdicts(k) == Corrupt(r.error))
      && (forall k :: 0 <= k < |files| && IsReported(verdicts(k), sizes(k)) ==>
            ProcessImage(files[k], verdicts(k), sizes(k)).value in rs)
      && |rs| == ReportedCount(|files|, verdicts, sizes)
  {
    var outcome := Outcomes(files, verdicts, sizes);
    var rs := RecordsInOrder(order, outcome);
    assert |order| == |files| by {
      assert |multiset(order)| == |multiset(Positions(|files|))|;
    }
    RecordsPermutation(order, order2, outcome);
    assert |rs| == |multiset(rs)|;
    assert |RecordsInOrder(order2, outcome)| == |multiset(RecordsInOrder(order2, outcome))|;
    forall r | r in rs
      ensures exists k :: 0 <= k < |files| && r.path == files[k] && verdicts(k) == Corrupt(r.error)
    {
      RecordsComeFromOrder(order, outcome, r);
      var i :| 0 <= i < |order| && outcome(order[i]) == Some(r);
      var k := order[i];
      assert k < |files|;
    }
    ScanIsComplete(files, verdicts, sizes, order);
  }

  /** No omissions: every position whose future returns a record has its
      record among the records, so there are as many records as such
      positions, whatever the completion order. */
  lemma ScanIsComplete(files: seq<string>, verdicts: nat -> Corruption,
                       sizes: nat -> Option<Result<nat>>, order: seq<nat>)
    requires IsCompletionOrder(order, |files|)
    ensures var rs := RecordsInOrder(order, Outcomes(files, verdicts, sizes));
      && (forall k :: 0 <= k < |files| && IsReported(verdicts(k), sizes(k)) ==>
            ProcessImage(files[k], verdicts(k), sizes(k)).value in rs)
      && |rs| == ReportedCount(|files|, verdicts, sizes)
  {
    var outcome := Outcomes(files, verdicts, sizes);
    var rs := RecordsInOrder(order, outcome);
    forall k | 0 <= k < |files| && IsReported(verdicts(k), sizes(k))
      ensures ProcessImage(files[k], verdicts(k), sizes(k)).value in rs
    {
      var i := CompletedPosition(order, |files|, k);
      RecordOfCompletedIn(order, outcome, i);
    }
    RecordsPermutation(order, Positions(|files|), outcome);
    var inPositionOrder := RecordsInOrder(Positions(|files|), outcome);
    assert |rs| == |multiset(rs)|;
    assert |inPositionOrder| == |multiset(inPositionOrder)|;
    RecordsInPositionOrder(files, verdicts, sizes, |files|);
  }

  /** `process_image` returns a record: the verdict is corrupt and the size
      lookup after the check does not raise. */
  predicate IsReported(verdict: Corruption, sizeNow: Option<Result<nat>>) {
    verdict.Corrupt? && !(sizeNow.Some? && sizeNow.value.Err?)
  }

  /** The number of positions below `n` whose future returns a record. */
  function ReportedCount(n: nat, verdicts: nat -> Corruption, sizes: nat -> Option<Result<nat>>): (c: nat)
    ensures c <= n
  {
    if n == 0 then 0
    else ReportedCount(n - 1, verdicts, sizes) + (if IsReported(verdicts(n - 1), sizes(n - 1)) then 1 else 0)
  }

  /** Every submitted position completes somewhere in a completion order. */
  lemma CompletedPosition(order: seq<nat>, n: nat, k: nat) returns (i: nat)
    requires IsCompletionOrder(order, n) && k < n
    ensures i < |order| && order[i] == k
  {
    assert Positions(n)[k] == k;
    assert k in multiset(Positions(n));
    assert k in multiset(order);
    i :| 0 <= i < |order| && order[i] == k;
  }

  /** The record of a completed future is among the records. */
  lemma {:induction false} RecordOfCompletedIn(order: seq<nat>, outcome: nat -> Option<PyRecord>, i: nat)
    requires i < |order| && outcome(order[i]).Some?
    ensures outcome(order[i]).value in RecordsInOrder(order, outcome)
    decreases |order|
  {
    var front := order[..|order| - 1];
    if i == |order| - 1 {
      assert RecordOf(order[i], outcome) == [outcome(order[i]).value];
    } else {
      assert front[i] == order[i];
      RecordOfCompletedIn(front, outcome, i);
    }
  }

  /** Completing in submission order, the first `n` futures give one record
      for each reported position. */
  lemma {:induction false} RecordsInPositionOrder(files: seq<string>, verdicts: nat -> Corruption,
                                                  sizes: nat -> Option<Result<nat>>, n: nat)
    requires n <= |files|
    ensures |RecordsInOrder(Positions(n), Outcomes(files, verdicts, sizes))| == ReportedCount(n, verdicts, sizes)
  {
    if n > 0 {
      var outcome := Outcomes(files, verdicts, sizes);
      assert Positions(n)[..n - 1] == Positions(n - 1);
      RecordsInPositionOrder(files, verdicts, sizes, n - 1);
      ProcessImageRecordsCorruption(files[n - 1], verdicts(n - 1), sizes(n - 1));
      assert |RecordOf(n - 1, outcome)| == if IsReported(verdicts(n - 1), sizes(n - 1)) then 1 else 0;
    }
  }
}
