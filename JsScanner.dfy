/** The coordinator of scanner.js (`class ImageScanner`): candidate collection,
    the worker pool's creation, the batch loop, and the two reports.

    The pool is dispatched sequentially. A reply is delivered to a `'message'`
    listener of the worker the path was posted to, and every listener pending on
    that worker fires on the first reply, so the record that resolves a path's
    promise need not be that path's own verdict. The verdicts that resolve the
    promises are therefore an input (`replies`, by the position of the path in
    the candidate list), and the model claims counts, lengths and the dispatch
    log, not which verdict belongs to which path. */
module JsScanner {
  import opened Common
  import opened Decimal
  import opened Paths
  import opened FileTree
  import opened SharpValidator

  /** `imageExtensions`. */
  const ImageExtensions: set<string> :=
    {".jpg", ".jpeg", ".png", ".gif", ".bmp", ".webp", ".tiff", ".tif", ".ico"}

  /** Paths are dispatched this many at a time. */
  const BatchSize: nat := 100

  // ---------------------------------------------------------------------------
  // Candidate collection (`findImageFiles`)

  /** A directory entry `findImageFiles` keeps: a regular file whose lower-cased
      extension is recognised. */
  predicate IsCandidate(e: Entry) {
    e.kind.RegularFile? && IsImageExtension(Lower(ExtName(e.name)))
  }

  /** A lower-cased extension `findImageFiles` recognises. */
  predicate IsImageExtension(x: string) {
    x in ImageExtensions
  }

  /** The paths collected under `dir`, whose listing is `l`: depth first, in
      listing order; a listing that fails contributes nothing. */
  function CandidatesIn(dir: string, l: Listing): seq<string>
    decreases l
  {
    match l
    case Unreadable => []
    case Listed(es) => CandidatesOf(dir, es)
  }

  function CandidatesOf(dir: string, es: seq<Entry>): seq<string>
    decreases es
  {
    if es == [] then []
    else CandidatesOf(dir, es[..|es| - 1]) + CandidatesOfEntry(dir, es[|es| - 1])
  }

  function CandidatesOfEntry(dir: string, e: Entry): seq<string>
    decreases e
  {
    match e.kind
    case Directory(sub) => CandidatesIn(Join(dir, e.name), sub)
    case _ => if IsCandidate(e) then [Join(dir, e.name)] else []
  }

  /** `traverse(dir)`: the entries of `dir` are visited in order, directories
      are recursed into, candidates are pushed onto `imageFiles`, and a listing
      that throws is logged and skipped. */
  method Traverse(dir: string, l: Listing, imageFiles: seq<string>) returns (result: seq<string>)
    ensures result == imageFiles + CandidatesIn(dir, l)
    decreases l
  {
    result := imageFiles;
    match l {
      case Unreadable =>
      case Listed(entries) =>
        for k := 0 to |entries|
          invariant result == imageFiles + CandidatesOf(dir, entries[..k])
        {
          var entry := entries[k];
          CandidatesOfStep(dir, entries, k);
          EntryCandidates(dir, entry);
          ghost var before := result;
          var fullPath := Join(dir, entry.name);
          match entry.kind {
            case Directory(sub) =>
              result := Traverse(fullPath, sub, result);
            case RegularFile =>
              var ext := Lower(ExtName(entry.name));
              if ext in ImageExtensions {
                result := result + [fullPath];
              }
            case _ =>
          }
          assert result == before + CandidatesOfEntry(dir, entry);
          AppendAssoc(imageFiles, CandidatesOf(dir, entries[..k]), CandidatesOfEntry(dir, entry));
        }
        TakeAll(entries);
    }
  }

  lemma CandidatesOfStep(dir: string, es: seq<Entry>, k: nat)
    requires k < |es|
    ensures CandidatesOf(dir, es[..k + 1]) == CandidatesOf(dir, es[..k]) + CandidatesOfEntry(dir, es[k])
  {
    assert es[..k + 1][..k] == es[..k];
  }

  /** What one entry contributes, by its kind. */
  lemma EntryCandidates(dir: string, e: Entry)
    ensures e.kind.Directory? ==> CandidatesOfEntry(dir, e) == CandidatesIn(Join(dir, e.name), e.kind.listing)
    ensures e.kind.RegularFile? ==>
      CandidatesOfEntry(dir, e) == if Lower(ExtName(e.name)) in ImageExtensions then [Join(dir, e.name)] else []
    ensures !e.kind.Directory? && !e.kind.RegularFile? ==> CandidatesOfEntry(dir, e) == []
  {
  }

  // ---------------------------------------------------------------------------
  // Batches and worker slots

  /** Consecutive slices of at most `BatchSize` paths: `imageFiles.slice(i, i + 100)`
      for `i = 0, 100, 200, ...`. */
  function Batches(files: seq<string>): (bs: seq<seq<string>>)
    ensures Flatten(bs) == files
    decreases |files|
  {
    if files == [] then []
    else
      var k := Min(BatchSize, |files|);
      [files[..k]] + Batches(files[k..])
  }

  function Flatten(bs: seq<seq<string>>): seq<string>
  {
    if bs == [] then [] else bs[0] + Flatten(bs[1..])
  }

  /** JavaScript's `index % m` for a non-negative `index`: the remainder keeps
      the sign of the dividend, and a zero divisor gives `NaN` (here `None`). */
  function JsRemainder(index: nat, m: int): Option<nat>
  {
    if m == 0 then None
    else if m > 0 then Some(index % m)
    else Some(index % (-m))
  }

  /** The message posted for a path: the path and the worker slot it went to. */
  datatype Dispatch = Dispatch(path: string, slot: nat)

  /** The slot of the `k`-th candidate: its position within its batch, modulo
      the number of workers. */
  function DispatchLog(files: seq<string>, maxWorkers: int): (log: seq<Dispatch>)
    requires maxWorkers > 0
    ensures |log| == |files|
    ensures forall k :: 0 <= k < |log| ==> log[k].path == files[k] && log[k].slot < maxWorkers
  {
    seq(|files|, k requires 0 <= k < |files| => Dispatch(files[k], (k % BatchSize) % maxWorkers))
  }

  /** The messages one batch posts: the path at position `j` of the batch goes
      to slot `j % maxWorkers`. */
  function BatchDispatches(batch: seq<string>, maxWorkers: int): seq<Dispatch>
    requires maxWorkers > 0
  {
    seq(|batch|, j requires 0 <= j < |batch| => Dispatch(batch[j], j % maxWorkers))
  }

  lemma BatchesStep(files: seq<string>, i: nat)
    requires i < |files|
    ensures Batches(files[i..]) ==
      [files[i..Min(i + BatchSize, |files|)]] + Batches(files[Min(i + BatchSize, |files|)..])
  {
    var n := |files|;
    assert files[i..][..Min(BatchSize, n - i)] == files[i..Min(i + BatchSize, n)];
    assert files[i..][Min(BatchSize, n - i)..] == files[Min(i + BatchSize, n)..];
  }

  /** What one iteration of the batch loop adds to each log. */
  lemma BatchStep(files: seq<string>, i: nat, maxWorkers: int, replies: nat -> WorkerReply,
                  batchResults: seq<WorkerReply>)
    requires i < |files| && i % BatchSize == 0 && maxWorkers > 0
    requires var end := Min(i + BatchSize, |files|);
      batchResults == seq(end - i, j requires 0 <= j < end - i => replies(i + j))
    ensures var end := Min(i + BatchSize, |files|);
      && Batches(files[i..]) == [files[i..end]] + Batches(files[end..])
      && DispatchLog(files[..end], maxWorkers)
           == DispatchLog(files[..i], maxWorkers) + BatchDispatches(files[i..end], maxWorkers)
      && Replies(replies, end) == Replies(replies, i) + batchResults
  {
    BatchesStep(files, i);
    DispatchLogStep(files, i, maxWorkers);
  }

  /** What the loop of `scan` knows after one more batch, given what it knew
      before it. */
  lemma AdvanceBatch(files: seq<string>, i: nat, maxWorkers: int, replies: nat -> WorkerReply,
                     batchResults: seq<WorkerReply>, posted0: seq<Dispatch>, posted: seq<Dispatch>,
                     log0: seq<seq<string>>, log: seq<seq<string>>)
    requires i < |files| && i % BatchSize == 0 && maxWorkers > 0
    requires var end := Min(i + BatchSize, |files|);
      batchResults == seq(end - i, j requires 0 <= j < end - i => replies(i + j))
    requires posted == posted0 + DispatchLog(files[..i], maxWorkers)
    requires log + Batches(files[i..]) == log0 + Batches(files)
    ensures var end := Min(i + BatchSize, |files|);
      && posted + BatchDispatches(files[i..end], maxWorkers) == posted0 + DispatchLog(files[..end], maxWorkers)
      && (log + [files[i..end]]) + Batches(files[end..]) == log0 + Batches(files)
      && Replies(replies, end) == Replies(replies, i) + batchResults
  {
    var end := Min(i + BatchSize, |files|);
    BatchStep(files, i, maxWorkers, replies, batchResults);
    AppendAssoc(log, [files[i..end]], Batches(files[end..]));
    AppendAssoc(posted0, DispatchLog(files[..i], maxWorkers), BatchDispatches(files[i..end], maxWorkers));
  }

  lemma DispatchLogStep(files: seq<string>, i: nat, maxWorkers: int)
    requires i < |files| && i % BatchSize == 0 && maxWorkers > 0
    ensures var end := Min(i + BatchSize, |files|);
      DispatchLog(files[..end], maxWorkers)
        == DispatchLog(files[..i], maxWorkers) + BatchDispatches(files[i..end], maxWorkers)
  {
    var end := Min(i + BatchSize, |files|);
    var lhs := DispatchLog(files[..end], maxWorkers);
    var rhs := DispatchLog(files[..i], maxWorkers) + BatchDispatches(files[i..end], maxWorkers);
    assert |lhs| == |rhs|;
    forall k | 0 <= k < |lhs| ensures lhs[k] == rhs[k] {
      if k >= i {
        assert k % BatchSize == k - i;
      }
    }
  }

  // ---------------------------------------------------------------------------
  // The scanner object

  /** The options `main` hands to the constructor: `verbose` is only ever set to
      false, `workers` is `parseInt`'s result (`None` when absent or `NaN`). */
  datatype Options = Options(verbose: Option<bool>, workers: Option<int>)

  /** `options.workers || os.cpus().length`: `NaN`, an absent option and `0` are
      falsy and fall back to the CPU count; any other number is kept, negative
      ones included. */
  function WorkerCount(workers: Option<int>, cpus: nat): (n: int)
    ensures n == 0 ==> cpus == 0
    ensures n < 0 ==> workers == Some(n)
  {
    if workers.None? || workers.value == 0 then cpus else workers.value
  }

  /** The record a worker posts back: `{path, ...validateImageSharp(path)}`. */
  datatype WorkerReply = WorkerReply(path: string, verdict: Validity)

  datatype WorkerHandle = WorkerHandle(id: nat)

  /** `{corrupt, total}` as `scan` returns it. */
  datatype ScanResult = ScanResult(corrupt: seq<WorkerReply>, total: nat)

  /** A scan either returns, or throws out of `scan`: the latter happens when no
      worker exists for a slot (`this.workers[index % maxWorkers]` is
      `undefined` and `worker.on` throws inside the promise executor). */
  datatype ScanOutcome = Finished(result: ScanResult) | Crashed

  function NewHandles(first: nat, count: int): (hs: seq<WorkerHandle>)
    ensures |hs| == if count > 0 then count else 0
  {
    if count <= 0 then [] else seq(count, i requires 0 <= i < count => WorkerHandle(first + i))
  }

  /** The results `scan` pushes, in order: the record resolving the promise of
      the `k`-th dispatched path is `replies(k)`. */
  function Replies(replies: nat -> WorkerReply, n: nat): (rs: seq<WorkerReply>)
    ensures |rs| == n
  {
    seq(n, k requires 0 <= k < n => replies(k))
  }

  /** `results.filter(r => !r.valid)`. */
  function Corrupt(rs: seq<WorkerReply>): (c: seq<WorkerReply>)
    ensures |c| <= |rs|
    ensures forall r :: r in c <==> r in rs && r.verdict.Invalid?
  {
    if rs == [] then []
    else Corrupt(rs[..|rs| - 1]) + Kept(rs[|rs| - 1])
  }

  /** The record itself when `results.filter` keeps it, nothing otherwise. */
  function Kept(r: WorkerReply): (c: seq<WorkerReply>)
    ensures |c| <= 1
  {
    if r.verdict.Invalid? then [r] else []
  }

  /** `${img.error}`: a missing error renders as `null`. */
  function ErrorText(v: Validity): string
  {
    if v.Invalid? then v.error else "null"
  }

  /** One numbered entry of the saved report: its number and path, then its error. */
  function CorruptEntry(number: nat, r: WorkerReply): string
  {
    EntryLine(number, r) + ErrorLine(r)
  }

  function EntryLine(number: nat, r: WorkerReply): string
  {
    NatToString(number) + ". " + r.path + "\n"
  }

  function ErrorLine(r: WorkerReply): string
  {
    "   Error: " + ErrorText(r.verdict) + "\n\n"
  }

  /** The entries for `rs`, numbered consecutively from `first`. */
  function EntryTexts(rs: seq<WorkerReply>, first: nat): (es: seq<string>)
    ensures |es| == |rs|
  {
    seq(|rs|, i requires 0 <= i < |rs| => CorruptEntry(first + i, rs[i]))
  }

  function CorruptEntries(rs: seq<WorkerReply>, first: nat): string
  {
    Concat(EntryTexts(rs, first))
  }

  lemma CorruptEntriesStep(rs: seq<WorkerReply>, k: nat, prefix: string)
    requires k < |rs|
    ensures prefix + CorruptEntries(rs[..k + 1], 1)
         == prefix + CorruptEntries(rs[..k], 1) + EntryLine(k + 1, rs[k]) + ErrorLine(rs[k])
  {
    var es := EntryTexts(rs[..k + 1], 1);
    assert es[..k] == EntryTexts(rs[..k], 1);
    assert es[k] == CorruptEntry(k + 1, rs[k]);
  }

  const ReportTitle := "SHARP IMAGE CORRUPTION SCAN REPORT"
  const NoCorruptLine := "✅ No corrupt images found."

  /** The text `saveReport` writes. The date, the elapsed time and the speed
      are rendered by the clock and by `toFixed`; they are inputs here. */
  function ReportText(date: string, total: nat, corrupt: seq<WorkerReply>, time: string, speed: string): (r: string)
    ensures ReportHeader(date, total, |corrupt|, time, speed) <= r
  {
    if |corrupt| > 0 then
      CorruptSectionStart(date, total, |corrupt|, time, speed) + CorruptEntries(corrupt, 1)
    else ReportHeader(date, total, 0, time, speed) + NoCorruptLine + "\n"
  }

  function CorruptSectionStart(date: string, total: nat, corruptCount: nat, time: string, speed: string): string
  {
    ReportHeader(date, total, corruptCount, time, speed) + "CORRUPT IMAGES:\n" + Repeat('-', 40) + "\n"
  }

  function ReportHeader(date: string, total: nat, corruptCount: nat, time: string, speed: string): string
  {
    ReportTitle + "\n" + Repeat('=', 60) + "\n" +
    "Date: " + date + "\n" +
    "Total images: " + NatToString(total) + "\n" +
    "Corrupt images: " + NatToString(corruptCount) + "\n" +
    "Time: " + time + "s\n" +
    "Speed: " + speed + " img/s\n\n"
  }

  // ---------------------------------------------------------------------------
  // Properties of collection, batching and reporting

  lemma {:induction false} CandidatesConcat(dir: string, a: seq<Entry>, b: seq<Entry>)
    ensures CandidatesOf(dir, a + b) == CandidatesOf(dir, a) + CandidatesOf(dir, b)
    decreases |b|
  {
    if b == [] {
      assert a + b == a;
    } else {
      var b' := b[..|b| - 1];
      assert (a + b)[..|a + b| - 1] == a + b';
      CandidatesConcat(dir, a, b');
    }
  }

  /** A directory whose listing fails contributes nothing, and the entries
      around it are collected as if it were absent. */
  lemma UnreadableDirectorySkipped(dir: string, before: seq<Entry>, name: string, after: seq<Entry>)
    ensures CandidatesOf(dir, before + [Entry(name, Directory(Unreadable))] + after)
         == CandidatesOf(dir, before) + CandidatesOf(dir, after)
  {
    var bad := [Entry(name, Directory(Unreadable))];
    assert CandidatesOf(dir, bad) == [] by {
      assert bad[..0] == [];
      assert CandidatesOfEntry(dir, bad[0]) == [];
    }
    CandidatesConcat(dir, before, bad);
    CandidatesConcat(dir, before + bad, after);
  }

  /** In a listing without subdirectories, a path is collected exactly when it
      joins the directory to the name of a regular file with a recognised
      extension. */
  lemma FlatListingMembership(dir: string, es: seq<Entry>, p: string)
    requires forall i :: 0 <= i < |es| ==> !es[i].kind.Directory?
    ensures p in CandidatesOf(dir, es) <==>
      exists i :: 0 <= i < |es| && IsCandidate(es[i]) && p == Join(dir, es[i].name)
  {
    if p in CandidatesOf(dir, es) {
      var i := CandidateSource(dir, es, p);
      FileEntryCandidates(dir, es[i], p);
    }
    if exists i :: 0 <= i < |es| && IsCandidate(es[i]) && p == Join(dir, es[i].name) {
      var i :| 0 <= i < |es| && IsCandidate(es[i]) && p == Join(dir, es[i].name);
      FlatCandidateCollected(dir, es, i);
    }
  }

  /** What an entry that is not a directory contributes. */
  lemma FileEntryCandidates(dir: string, e: Entry, p: string)
    requires !e.kind.Directory?
    ensures p in CandidatesOfEntry(dir, e) <==> IsCandidate(e) && p == Join(dir, e.name)
  {
  }

  /** Every collected path comes from one entry of the listing. */
  lemma {:induction false} CandidateSource(dir: string, es: seq<Entry>, p: string) returns (i: nat)
    requires p in CandidatesOf(dir, es)
    ensures i < |es| && p in CandidatesOfEntry(dir, es[i])
    decreases |es|
  {
    CandidatesOfMember(dir, es, p);
    if p in CandidatesOf(dir, es[..|es| - 1]) {
      i := CandidateSource(dir, es[..|es| - 1], p);
      assert es[..|es| - 1][i] == es[i];
    } else {
      i := |es| - 1;
    }
  }

  lemma CandidatesOfMember(dir: string, es: seq<Entry>, p: string)
    requires es != []
    ensures p in CandidatesOf(dir, es) <==>
      p in CandidatesOf(dir, es[..|es| - 1]) || p in CandidatesOfEntry(dir, es[|es| - 1])
  {
  }

  /** A candidate entry of a listing is collected, whatever else the listing holds. */
  lemma {:induction false} FlatCandidateCollected(dir: string, es: seq<Entry>, i: nat)
    requires i < |es| && IsCandidate(es[i])
    ensures Join(dir, es[i].name) in CandidatesOf(dir, es)
    decreases |es|
  {
    if i < |es| - 1 {
      assert es[..|es| - 1][i] == es[i];
      FlatCandidateCollected(dir, es[..|es| - 1], i);
      CollectedBeforeLast(dir, es, Join(dir, es[i].name));
    } else {
      LastCandidateCollected(dir, es);
    }
  }

  lemma CollectedBeforeLast(dir: string, es: seq<Entry>, p: string)
    requires es != [] && p in CandidatesOf(dir, es[..|es| - 1])
    ensures p in CandidatesOf(dir, es)
  {
    CandidatesOfMember(dir, es, p);
  }

  lemma LastCandidateCollected(dir: string, es: seq<Entry>)
    requires es != [] && IsCandidate(es[|es| - 1])
    ensures Join(dir, es[|es| - 1].name) in CandidatesOf(dir, es)
  {
    CandidatesOfMember(dir, es, Join(dir, es[|es| - 1].name));
    CandidateEntry(dir, es[|es| - 1]);
  }

  lemma CandidateEntry(dir: string, e: Entry)
    requires IsCandidate(e)
    ensures CandidatesOfEntry(dir, e) == [Join(dir, e.name)]
  {
  }

  /** Every collected path, however deep, has a recognised extension. */
  lemma {:induction false} CollectedHaveImageExtensions(dir: string, l: Listing)
    requires WellFormedListing(l)
    ensures forall p :: p in CandidatesIn(dir, l) ==> IsImageExtension(Lower(ExtName(p)))
    decreases l
  {
    match l
    case Unreadable =>
    case Listed(es) => CollectedOfEntriesHaveImageExtensions(dir, es);
  }

  lemma {:induction false} CollectedOfEntriesHaveImageExtensions(dir: string, es: seq<Entry>)
    requires forall i :: 0 <= i < |es| ==> WellFormedEntry(es[i])
    ensures forall p :: p in CandidatesOf(dir, es) ==> IsImageExtension(Lower(ExtName(p)))
    decreases es
  {
    forall p | p in CandidatesOf(dir, es)
      ensures IsImageExtension(Lower(ExtName(p)))
    {
      var i := CandidateSource(dir, es, p);
      EntryHasImageExtension(dir, es[i], p);
    }
  }

  lemma {:induction false} EntryHasImageExtension(dir: string, e: Entry, p: string)
    requires WellFormedEntry(e) && p in CandidatesOfEntry(dir, e)
    ensures IsImageExtension(Lower(ExtName(p)))
    decreases e
  {
    if e.kind.Directory? {
      CollectedHaveImageExtensions(Join(dir, e.name), e.kind.listing);
    } else {
      FileEntryCandidates(dir, e, p);
      ExtensionOfJoin(dir, e.name);
    }
  }

  /** The batches partition the candidate list: read in order they give it
      back, each holds between 1 and `BatchSize` paths, all but the last hold
      exactly `BatchSize`, and there are `ceil(n / BatchSize)` of them. */
  lemma {:induction false} BatchesPartition(files: seq<string>)
    ensures Flatten(Batches(files)) == files
    ensures forall k :: 0 <= k < |Batches(files)| ==> 1 <= |Batches(files)[k]| <= BatchSize
    ensures forall k :: 0 <= k < |Batches(files)| - 1 ==> |Batches(files)[k]| == BatchSize
    ensures |Batches(files)| == (|files| + BatchSize - 1) / BatchSize
    decreases |files|
  {
    if files != [] {
      var k := Min(BatchSize, |files|);
      var rest := files[k..];
      BatchesPartition(rest);
      var bs := Batches(files);
      assert bs == [files[..k]] + Batches(rest);
      assert bs[1..] == Batches(rest);
      assert files[..k] + rest == files;
      if |files| < BatchSize {
        assert rest == [];
      }
    }
  }

  /** The filter keeps order: it distributes over concatenation, and a single
      record is kept exactly when its verdict is invalid. */
  lemma {:induction false} CorruptConcat(a: seq<WorkerReply>, b: seq<WorkerReply>)
    ensures Corrupt(a + b) == Corrupt(a) + Corrupt(b)
    decreases |b|
  {
    if b == [] {
      assert a + b == a;
    } else {
      CorruptConcat(a, b[..|b| - 1]);
      AppendButLast(a, b);
      CorruptSnoc(a + b, a + b[..|b| - 1], b[|b| - 1]);
      AppendAssoc(Corrupt(a), Corrupt(b[..|b| - 1]), Kept(b[|b| - 1]));
    }
  }

  lemma CorruptSnoc(c: seq<WorkerReply>, front: seq<WorkerReply>, r: WorkerReply)
    requires c == front + [r]
    ensures Corrupt(c) == Corrupt(front) + Kept(r)
  {
    assert c[..|c| - 1] == front;
  }

  lemma CorruptSingle(r: WorkerReply)
    ensures Corrupt([r]) == if r.verdict.Invalid? then [r] else []
  {
    assert [r][..0] == [];
  }

  lemma CorruptEntriesConcat(a: seq<WorkerReply>, b: seq<WorkerReply>, first: nat)
    ensures CorruptEntries(a + b, first) == CorruptEntries(a, first) + CorruptEntries(b, first + |a|)
  {
    assert EntryTexts(a + b, first) == EntryTexts(a, first) + EntryTexts(b, first + |a|);
    ConcatAppend(EntryTexts(a, first), EntryTexts(b, first + |a|));
  }

  /** The entry of the `k`-th corrupt record carries the number `k + 1`. */
  lemma NumberedFromOne(rs: seq<WorkerReply>, k: nat)
    requires k < |rs|
    ensures CorruptEntries(rs, 1) ==
      CorruptEntries(rs[..k], 1) + CorruptEntry(k + 1, rs[k]) + CorruptEntries(rs[k + 1..], k + 2)
  {
    var front, entry, back := EntryTexts(rs[..k], 1), [CorruptEntry(k + 1, rs[k])], EntryTexts(rs[k + 1..], k + 2);
    assert EntryTexts(rs, 1) == (front + entry) + back;
    ConcatAppend(front + entry, back);
    ConcatAppend(front, entry);
    assert Concat(entry) == Concat([]) + entry[0];
  }

  /** Only the invalid verdicts are reported, and each of them is. */
  lemma ErrorLinesNeverNull(rs: seq<WorkerReply>)
    ensures forall r :: r in Corrupt(rs) ==> ErrorText(r.verdict) == r.verdict.error
  {
  }

  /** After the header, the report is the confirmation line alone when nothing
      is corrupt, and the list section otherwise. */
  lemma ReportBody(date: string, total: nat, corrupt: seq<WorkerReply>, time: string, speed: string)
    ensures var header := ReportHeader(date, total, |corrupt|, time, speed);
      var text := ReportText(date, total, corrupt, time, speed);
      && header <= text
      && (corrupt == [] ==> text[|header|..] == NoCorruptLine + "\n")
      && (corrupt != [] ==>
            text[|header|..] == "CORRUPT IMAGES:\n" + Repeat('-', 40) + "\n" + CorruptEntries(corrupt, 1))
  {
    var header := ReportHeader(date, total, |corrupt|, time, speed);
    if corrupt == [] {
      AppendAssoc(header, NoCorruptLine, "\n");
      TextAfterPrefix(ReportText(date, total, corrupt, time, speed), header, NoCorruptLine + "\n");
    } else {
      var title, rule, entries := "CORRUPT IMAGES:\n", Repeat('-', 40), CorruptEntries(corrupt, 1);
      AppendAssoc(header, title, rule);
      AppendAssoc(header, title + rule, "\n");
      AppendAssoc(header, title + rule + "\n", entries);
      TextAfterPrefix(ReportText(date, total, corrupt, time, speed), header, title + rule + "\n" + entries);
    }
  }

  lemma TextAfterPrefix(text: string, prefix: string, rest: string)
    requires text == prefix + rest
    ensures prefix <= text && text[|prefix|..] == rest
  {
  }

  class ImageScanner {
    var verbose: bool
    var maxWorkers: int
    var workers: seq<WorkerHandle>
    var results: seq<WorkerReply>
    var processed: int
    var total: int
    /** The messages posted to the workers, in the order they were posted. */
    ghost var posted: seq<Dispatch>
    /** The batches whose results have been pushed onto `results`. */
    ghost var batchLog: seq<seq<string>>

    /** `new ImageScanner(options)` on a machine with `cpus` logical CPUs. */
    constructor (options: Options, cpus: nat)
      ensures verbose == (options.verbose != Some(false))
      ensures maxWorkers == WorkerCount(options.workers, cpus)
      ensures workers == [] && results == [] && processed == 0 && total == 0
      ensures posted == [] && batchLog == []
    {
      verbose := options.verbose != Some(false);
      maxWorkers := WorkerCount(options.workers, cpus);
      workers := [];
      results := [];
      processed := 0;
      total := 0;
      posted := [];
      batchLog := [];
    }

    /** `findImageFiles(directory)`, where `root` is what listing `directory` gives. */
    method FindImageFiles(directory: string, root: Listing) returns (imageFiles: seq<string>)
      ensures imageFiles == CandidatesIn(directory, root)
    {
      imageFiles := Traverse(directory, root, []);
    }

    /** `createWorkers()`: one new handle per slot; none when `maxWorkers <= 0`. */
    method CreateWorkers()
      modifies this`workers
      ensures workers == old(workers) + NewHandles(|old(workers)|, maxWorkers)
    {
      var i := 0;
      ghost var start := |workers|;
      while i < maxWorkers
        invariant 0 <= i && (maxWorkers > 0 ==> i <= maxWorkers)
        invariant maxWorkers <= 0 ==> i == 0
        invariant |workers| == start + i
        invariant workers == old(workers) + seq(i, j requires 0 <= j < i => WorkerHandle(start + j))
      {
        workers := workers + [WorkerHandle(|workers|)];
        i := i + 1;
      }
    }

    /** One batch: `batch.map(...)` posts every path to the worker in slot
        `index % maxWorkers` and registers a handler that counts the reply, and
        `Promise.all` collects the records in batch order. The `first`-th
        candidate of the scan is the first path of the batch. */
    method DispatchBatch(batch: seq<string>, first: nat, replies: nat -> WorkerReply)
      returns (batchResults: seq<WorkerReply>, crashed: bool)
      requires |batch| > 0
      requires |workers| == if maxWorkers > 0 then maxWorkers else 0
      modifies this`processed, this`posted
      ensures crashed <==> maxWorkers <= 0
      ensures crashed ==> processed == old(processed) && posted == old(posted)
      ensures !crashed ==>
        && processed == old(processed) + |batch|
        && posted == old(posted) + BatchDispatches(batch, maxWorkers)
        && batchResults == seq(|batch|, j requires 0 <= j < |batch| => replies(first + j))
    {
      batchResults := [];
      crashed := false;
      for index := 0 to |batch|
        invariant maxWorkers <= 0 ==> index == 0
        invariant index == 0 ==> posted == old(posted)
        invariant processed == old(processed) + index
        invariant maxWorkers > 0 ==> posted == old(posted) + BatchDispatches(batch[..index], maxWorkers)
        invariant batchResults == seq(index, j requires 0 <= j < index => replies(first + j))
      {
        var slot := JsRemainder(index, maxWorkers);
        assert maxWorkers > 0 ==> slot == Some(index % maxWorkers);
        if slot.None? || slot.value >= |workers| {
          // `worker` is undefined: `worker.on` throws and the promise rejects
          return batchResults, true;
        }
        posted := posted + [Dispatch(batch[index], slot.value)];
        // the handler: the reply resolving this path's promise is counted
        processed := processed + 1;
        batchResults := batchResults + [replies(first + index)];
        assert BatchDispatches(batch[..index + 1], maxWorkers)
            == BatchDispatches(batch[..index], maxWorkers) + [Dispatch(batch[index], index % maxWorkers)];
      }
      TakeAll(batch);
    }

    /** The `for` loop of `scan`: the candidates in batches of `BatchSize`, each
        batch awaited before the next one starts. */
    method RunBatches(imageFiles: seq<string>, replies: nat -> WorkerReply) returns (crashed: bool)
      requires |imageFiles| > 0
      requires |workers| == if maxWorkers > 0 then maxWorkers else 0
      requires results == []
      modifies this`results, this`processed, this`posted, this`batchLog
      ensures crashed <==> maxWorkers <= 0
      ensures crashed ==>
        && results == [] && processed == old(processed)
        && posted == old(posted) && batchLog == old(batchLog)
      ensures !crashed ==>
        && results == Replies(replies, |imageFiles|)
        && processed == old(processed) + |imageFiles|
        && posted == old(posted) + DispatchLog(imageFiles, maxWorkers)
        && batchLog == old(batchLog) + Batches(imageFiles)
    {
      var n := |imageFiles|;
      ghost var processed0, posted0, log0 := processed, posted, batchLog;
      var i, done := 0, 0;
      while i < n
        invariant i % BatchSize == 0 && done == Min(i, n)
        invariant maxWorkers <= 0 ==> i == 0
        invariant processed == processed0 + done
        invariant results == Replies(replies, done)
        invariant i == 0 ==> posted == posted0 && batchLog == log0
        invariant maxWorkers > 0 ==> posted == posted0 + DispatchLog(imageFiles[..done], maxWorkers)
        invariant batchLog + Batches(imageFiles[done..]) == log0 + Batches(imageFiles)
      {
        var end := Min(i + BatchSize, n);
        var batch := imageFiles[i..end];
        ghost var postedBefore := posted;
        var batchResults, batchCrashed := DispatchBatch(batch, i, replies);
        if batchCrashed {
          return true;
        }
        AdvanceBatch(imageFiles, i, maxWorkers, replies, batchResults, posted0, postedBefore, log0, batchLog);
        results := results + batchResults;
        batchLog := batchLog + [batch];
        i, done := i + BatchSize, end;
      }
      assert imageFiles[..n] == imageFiles;
      return false;
    }

    /** `scan(directory)` on a scanner whose pool has not been created yet.
        `replies(k)` is the record that resolves the promise of the `k`-th
        dispatched path. */
    method Scan(directory: string, root: Listing, replies: nat -> WorkerReply) returns (outcome: ScanOutcome)
      requires workers == []
      modifies this
      ensures verbose == old(verbose) && maxWorkers == old(maxWorkers)
      ensures total == |CandidatesIn(directory, root)|
      ensures CandidatesIn(directory, root) == [] ==>
        && outcome == Finished(ScanResult([], 0))
        && workers == [] && results == old(results) && processed == old(processed)
        && posted == old(posted) && batchLog == old(batchLog)
      ensures CandidatesIn(directory, root) != [] && maxWorkers <= 0 ==>
        && outcome == Crashed
        && workers == [] && results == [] && processed == old(processed)
        && posted == old(posted) && batchLog == old(batchLog)
      ensures CandidatesIn(directory, root) != [] && maxWorkers > 0 ==>
        var files := CandidatesIn(directory, root);
        && outcome == Finished(ScanResult(Corrupt(results), |files|))
        && workers == NewHandles(0, maxWorkers)
        && results == Replies(replies, |files|)
        && processed == old(processed) + |files|
        && posted == old(posted) + DispatchLog(files, maxWorkers)
        && batchLog == old(batchLog) + Batches(files)
    {
      var imageFiles := FindImageFiles(directory, root);
      total := |imageFiles|;
      if total == 0 {
        return Finished(ScanResult([], 0));
      }
      CreateWorkers();
      results := [];
      var crashed := RunBatches(imageFiles, replies);
      if crashed {
        return Crashed;
      }
      outcome := Finished(GenerateReport());
    }
    /** `generateReport()` without its console output and timing. */
    function GenerateReport(): (r: ScanResult)
      reads this
      requires total >= 0
      ensures r.total == total && |r.corrupt| <= |results|
      ensures forall x :: x in r.corrupt <==> x in results && x.verdict.Invalid?
    {
      ScanResult(Corrupt(results), total)
    }

    /** `saveReport(filename)`: the text that is written to the file. */
    method SaveReport(date: string, time: string, speed: string) returns (report: string)
      requires total >= 0
      ensures report == ReportText(date, total, Corrupt(results), time, speed)
    {
      var corrupt := Corrupt(results);
      report := ReportTitle + "\n";
      report := report + Repeat('=', 60) + "\n";
      report := report + "Date: " + date + "\n";
      report := report + "Total images: " + NatToString(total) + "\n";
      report := report + "Corrupt images: " + NatToString(|corrupt|) + "\n";
      report := report + "Time: " + time + "s\n";
      report := report + "Speed: " + speed + " img/s\n\n";
      assert report == ReportHeader(date, total, |corrupt|, time, speed);
      if |corrupt| > 0 {
        report := report + "CORRUPT IMAGES:\n";
        report := report + Repeat('-', 40) + "\n";
        ghost var prefix := report;
        assert prefix == CorruptSectionStart(date, total, |corrupt|, time, speed);
        for index := 0 to |corrupt|
          invariant report == prefix + CorruptEntries(corrupt[..index], 1)
        {
          report := report + EntryLine(index + 1, corrupt[index]);
          report := report + ErrorLine(corrupt[index]);
          CorruptEntriesStep(corrupt, index, prefix);
        }
        TakeAll(corrupt);
      } else {
        report := report + NoCorruptLine + "\n";
      }
    }
  }
}
