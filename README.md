# A Dafny model of the spacemap image scanners and the access gate

The repository ships two command-line tools that walk a directory tree,
check every image file for corruption and report the corrupt ones, plus a
Cloudflare Pages middleware that admits only allow-listed users.

- **spacemap/scanner.js** (Node). `ImageScanner` collects candidate files
  depth first (`findImageFiles`). It creates one worker per slot and posts
  the paths in batches of 100. A path goes to the worker in slot
  `index % maxWorkers`. Each worker runs `validateImageSharp`: size, then
  magic bytes, then sharp's metadata, then a 100×100 raw probe render. The
  scanner then filters the corrupt results and writes a text report. `main`
  parses `-q/-w/-o/-d/-h`. Its exit status is the number of corrupt
  results, or 1 when the scan throws.
- **spacemap/scanner.py** (Python). `collect_image_files` walks with
  `os.walk`. `scan_directory_multithreaded` runs `process_image` on a
  thread pool and gathers records in completion order. Each record comes
  from `check_image_corruption`: size, then the magic number in the first
  20 bytes, then `validate_webgl_style`'s RGBA render, then the
  dimensions, Pillow's `verify` and a full load. `main` builds the report
  lines, writes them joined by newlines, and exits with the number of
  corrupt images.
- **functions/_middleware.js**. `onRequest` extracts `discordId=<digits>`
  from the raw `Cookie` header. It lets the request through only when the
  `ALLOWED_USERS` store holds a non-empty value for that id. Every other
  request gets a 403 response.

## How things are modelled

- **Modules.**
  - `SharpValidator` and `PilValidator` are pure functions over the answers
    of the file system and the decoder. Those answers are `Result` values
    that carry an exception's message.
  - `JsScanner` holds the class `ImageScanner` with the source's fields and
    imperative methods: the traversal, `createWorkers`, the batch loop and
    `saveReport`. Each method is proved against specification functions.
  - `PyScanner` has an `os.walk` model, the loop-based collector, and the
    scan loop over a completion order.
  - `JsCli` and `PyCli` hold the two `main` functions, `Middleware` the gate.
  - `CrossChecks` relates the two scanners to each other.
- **Worker replies are an input.** In scanner.js every `'message'` listener
  that is pending on one worker fires on that worker's first reply. So the
  record that resolves a path's promise need not be that path's own verdict.
  The model takes the resolving records as an input, `replies(k)`, and
  claims counts, order of dispatch, the slot of each dispatch and the
  report text. It does not claim which verdict belongs to which path.
- **Completion order is an input.** Python's `as_completed` order is a
  permutation of the positions `0..n-1`. The scan's properties are proved
  for every such permutation.
- **The file system is a tree input.**
  - A listing either succeeds with its entries in the order the system
    gives them, or fails (`Unreadable`).
  - An entry is a regular file, a directory, a symbolic link to a
    directory, or something else.
  - Node keeps only `isFile()` entries.
  - `os.walk` lists everything that is not `is_dir()` as a file and does
    not descend into linked directories.

## Model

| member | source | states |
|---|---|---|
| SharpValidator.ValidateImageSharp | spacemap/scanner.js:16-76 | Every rejection carries a non-empty message. A valid file has a readable size of at least 100 bytes and readable contents. |
| SharpValidator.SizeCheck | spacemap/scanner.js:19-21 | The size stage fails exactly for files under 100 bytes, always with a non-empty message. |
| SharpValidator.HeaderCheck | spacemap/scanner.js:24-45 | A failing magic-byte stage always has a non-empty message. |
| SharpValidator.DecodeCheck | spacemap/scanner.js:48-75 | A failing decode stage always has a non-empty message. |
| SharpValidator.ValidExactlyWhenAllStagesPass | spacemap/scanner.js:16-76 | A file is valid exactly when all of these hold: its size is readable and at least 100 bytes; its contents are readable and pass the magic-byte stage for its lower-cased extension; sharp's metadata has a positive width and height; the probe render at min(width,100)×min(height,100) succeeds and yields a non-empty buffer with a non-zero byte. |
| SharpValidator.SizeStageComesFirst | spacemap/scanner.js:19-21 | A file under 100 bytes is rejected as "Empty file" when it has 0 bytes and as "Too small: N bytes" otherwise. The contents and the decoder do not matter. |
| SharpValidator.JpegHeader | spacemap/scanner.js:27-33 | For .jpg/.jpeg: without FF D8 FF at the start the error is "Invalid JPEG header". With that start but without FF D9 at the end it is "Incomplete JPEG ending". The stage passes exactly when both markers are there. |
| SharpValidator.PngHeader | spacemap/scanner.js:34-38 | For .png the stage passes exactly when the first eight bytes are the PNG signature. Otherwise the error is "Invalid PNG header". |
| SharpValidator.WebpHeader | spacemap/scanner.js:39-44 | For .webp the stage passes exactly when bytes 0-3 are RIFF and bytes 8-11 are WEBP. Otherwise the error is "Invalid WebP header". The four size bytes in between never change the outcome. |
| SharpValidator.OtherExtensionsSkipHeader | spacemap/scanner.js:24-45 | Extensions other than .jpg, .jpeg, .png and .webp pass the magic-byte stage whatever the bytes. |
| SharpValidator.DecodeStageOrder | spacemap/scanner.js:48-75 | The error is "Invalid image dimensions" when width or height is missing or not positive. A failing render gives "Processing error: " plus the render's message. An empty buffer gives "Failed to process image data". An all-zero buffer gives the transparent/black error. The file is valid exactly when the render has a positive byte. |
| SharpValidator.HasPositiveByte | spacemap/scanner.js:66-69 | `some(byte => byte > 0)` is true exactly when some byte of the buffer is positive. |
| SharpValidator.ProbeSize | spacemap/scanner.js:56-59 | The probe size is between 1 and 100 on each axis, at most the image's size, and equal either to the image's size or to 100. |
| PilValidator.CheckImageCorruption | spacemap/scanner.py:75-138 | Every corrupt verdict carries a non-empty message. A clean file has a readable size of at least 100 bytes, readable contents, and an RGBA render with a non-zero byte. |
| PilValidator.ValidateWebglStyle | spacemap/scanner.py:38-73 | Every failure carries a non-empty message. A pass means the RGBA render succeeded and has a non-zero byte. |
| PilValidator.SizeCheck | spacemap/scanner.py:81-85 | The size stage fails exactly for files under 100 bytes, always with a non-empty message. |
| PilValidator.PyHeaderCheck | spacemap/scanner.py:88-111 | A failing magic-number stage always has a non-empty message. |
| PilValidator.DecodedCheck | spacemap/scanner.py:118-138 | A failing dimension, `verify` or load stage always has a non-empty message. |
| PilValidator.CleanExactlyWhenAllStagesPass | spacemap/scanner.py:75-138 | A file is clean exactly when all of these hold: the size is readable and at least 100; the bytes are readable and pass the magic check for the lower-cased suffix; the RGBA render has width·height·4 bytes, one of them non-zero; the sampling and the reopen raise nothing; both edges are at most 50000; `verify` and the full load raise nothing. |
| PilValidator.PySizeStageComesFirst | spacemap/scanner.py:81-85 | Under 100 bytes the verdict is "Archivo vacío" for an empty file and "Demasiado pequeño (N bytes)" otherwise. |
| PilValidator.HeaderIncomplete | spacemap/scanner.py:88-91 | Fewer than four header bytes give "Header incompleto" for every suffix. |
| PilValidator.Header | spacemap/scanner.py:89 | The header is the first min(20, size) bytes of the file. |
| PilValidator.HeaderReadsTwentyBytes | spacemap/scanner.py:89-111 | Except for JPEG, whose check also reads the last two bytes, only the first 20 bytes decide the magic check. |
| PilValidator.PyJpegHeader | spacemap/scanner.py:94-99 | For .jpg/.jpeg: "Header JPEG inválido" unless the file starts with FF D8 FF; otherwise "Final JPEG incompleto" unless it ends with FF D9. The check passes exactly when both hold. |
| PilValidator.PyPngHeader | spacemap/scanner.py:100-102 | .png passes exactly when it starts with the eight-byte PNG signature. Otherwise the message is "Header PNG inválido". |
| PilValidator.PyGifHeader | spacemap/scanner.py:103-105 | .gif passes exactly when it starts with GIF87a or GIF89a. Otherwise the message is "Header GIF inválido". |
| PilValidator.PyBmpHeader | spacemap/scanner.py:106-108 | .bmp passes exactly when it starts with BM. Otherwise the message is "Header BMP inválido". |
| PilValidator.PyWebpHeader | spacemap/scanner.py:109-111 | .webp passes exactly when bytes 0-3 are RIFF and bytes 8-11 are WEBP. Otherwise the message is "Header WebP inválido". |
| PilValidator.OtherSuffixesSkipMagic | spacemap/scanner.py:93-111 | Any other suffix with at least four header bytes passes the magic check. |
| PilValidator.NonZeroCount | spacemap/scanner.py:57 | The count of non-zero bytes is at most the length, and is zero exactly when every byte is zero. |
| PilValidator.RenderBeforeDimensions | spacemap/scanner.py:38-73 | A render of the wrong length gives "Datos RGBA incompletos: …". An all-zero render gives "Imagen completamente vacía". A render that passes has positive width and height. |
| PilValidator.RenderedImageHasArea | spacemap/scanner.py:52-59 | A render whose length is width·height·4 and which has a non-zero byte has a positive width and a positive height. So, with the decoder's later opens reporting the render's size, the "Dimensiones inválidas" branch at lines 121-122 cannot fire in the model. |
| PilValidator.OversizeRejected | spacemap/scanner.py:119-135 | Once the magic and render stages pass: an edge over 50000 gives "Dimensiones excesivas: WxH"; otherwise a `verify` error, then a load error, gives "Error: " plus its message; otherwise the file is clean. |
| Paths.TrimTrailingSlashes | spacemap/scanner.js:120 | The result is a prefix of the path with no trailing slash, and only slashes were removed. Node's `extname` starts this way. |
| Paths.LastIndexOf | spacemap/scanner.js:120 | The result is the last position of the character, and is `None` exactly when the character does not occur. |
| Paths.ExtNameShape | spacemap/scanner.js:120 | A non-empty `path.extname` is a dot and then non-dot characters. It ends the last component and is shorter than that component. |
| Paths.SuffixAgreesWithExtName | spacemap/scanner.py:36 | Python's `Path.suffix` equals Node's `extname` except that a lone trailing dot gives the empty suffix. |
| Paths.PyJoin | spacemap/scanner.py:165 | `os.path.join` spells the same path as Node's `path.join` when the directory is empty, or is not `.` and has no trailing slash. For `.` it keeps the `./` that Node drops. |
| Paths.JoinKeepsNormalised | spacemap/scanner.js:115 | On a normalised directory path (no trailing or doubled slash, no `.` or `..` component), both joins add one separator before the entry name, and the result is normalised again. |
| Paths.ExtensionOfJoin | spacemap/scanner.js:115-120 | Joining a directory and an entry name keeps the name's base name, extension and suffix. |
| Decimal.NatToString | spacemap/scanner.js:233-234 | The decimal rendering of a number is a non-empty run of digits without a leading zero. |
| Decimal.NatToStringRoundTrip | spacemap/scanner.js:233-234 | Reading the decimal rendering gives back the number. |
| Decimal.NatToStringInjective | spacemap/scanner.py:241-242 | Distinct counts render differently. |
| JsScanner.Traverse | spacemap/scanner.js:110-129 | The recursive traversal appends exactly the candidates under the directory to what was collected so far. |
| JsScanner.ImageScanner.FindImageFiles | spacemap/scanner.js:107-133 | The collected list is the depth-first, listing-order list of regular files with a recognised lower-cased extension. A listing that fails contributes nothing. |
| JsScanner.EntryCandidates | spacemap/scanner.js:114-124 | A directory contributes its subtree's candidates. A regular file contributes its joined path when its extension is recognised. Any other entry contributes nothing. |
| JsScanner.CandidatesConcat | spacemap/scanner.js:114 | Candidates of two runs of entries are the candidates of each, in order. |
| JsScanner.UnreadableDirectorySkipped | spacemap/scanner.js:126-128 | A sub-directory that cannot be listed is passed over, and the entries around it are unaffected. |
| JsScanner.FlatListingMembership | spacemap/scanner.js:114-124 | In a listing without sub-directories, a path is collected exactly when it is the join of some candidate entry's name. |
| JsScanner.CollectedHaveImageExtensions | spacemap/scanner.js:119-122 | Every collected path has a recognised lower-cased extension. |
| JsScanner.CandidateSource | spacemap/scanner.js:114-124 | Every collected path comes from some entry of the listing. |
| JsScanner.FlatCandidateCollected | spacemap/scanner.js:119-122 | Every candidate entry's joined path is collected. |
| JsScanner.ImageScanner.constructor | spacemap/scanner.js:91-99 | `verbose` is false only after `verbose: false`. `maxWorkers` is the option, or the CPU count when the option is absent, NaN or 0. The pool, the results and the counters start empty. |
| JsScanner.ImageScanner.CreateWorkers | spacemap/scanner.js:135-140 | One new handle is appended per slot, and none when `maxWorkers` is not positive. |
| JsScanner.ImageScanner.DispatchBatch | spacemap/scanner.js:162-186 | Each path is posted to slot `index % maxWorkers` and counted once. The batch's records come in batch order. With no positive worker count the batch throws before posting anything. |
| JsScanner.ImageScanner.RunBatches | spacemap/scanner.js:158-190 | The loop processes the candidates in consecutive batches and pushes one record per candidate. The dispatch log is each candidate with its slot. The batch log is the partition into batches of 100. |
| JsScanner.DispatchLog | spacemap/scanner.js:164-182 | Every candidate is posted once, in order, to a slot below `maxWorkers`. |
| JsScanner.Batches | spacemap/scanner.js:161-162 | The batches concatenate back to the candidate list. |
| JsScanner.BatchesPartition | spacemap/scanner.js:161-162 | The batches concatenate back to the candidate list. Each batch has 1 to 100 paths, and every batch but the last has exactly 100. There are ⌈n/100⌉ batches. |
| JsScanner.ImageScanner.Scan | spacemap/scanner.js:142-195 | `total` is the candidate count. With no candidates the result is `{corrupt: [], total: 0}` and no worker is created. With no positive worker count the scan throws. Otherwise one record per candidate is collected and the result is the filtered records with the total. |
| JsScanner.ImageScanner.GenerateReport | spacemap/scanner.js:197-224 | The result carries `total`. Its corrupt list holds exactly the invalid results and is no longer than the results. |
| JsScanner.Corrupt | spacemap/scanner.js:199 | `filter(r => !r.valid)` keeps exactly the invalid records and is no longer than its input. |
| JsScanner.CorruptConcat | spacemap/scanner.js:199 | The filter distributes over concatenation, so it keeps the records' order. |
| JsScanner.CorruptSingle | spacemap/scanner.js:199 | One record is kept exactly when it is invalid. |
| JsScanner.ImageScanner.SaveReport | spacemap/scanner.js:226-252 | The string that is built is the report text for the current results. |
| JsScanner.ReportText | spacemap/scanner.js:230-248 | The report text starts with the header for the given totals. |
| JsScanner.ReportBody | spacemap/scanner.js:230-248 | The report starts with the header: title, rule, date, totals, time and speed. Then comes the no-corrupt confirmation, or "CORRUPT IMAGES:", a 40-dash rule and the numbered entries. |
| JsScanner.NumberedFromOne | spacemap/scanner.js:242-245 | The k-th corrupt record (counting from 0) is entry number k+1, between the entries before and after it. |
| JsScanner.CorruptEntriesConcat | spacemap/scanner.js:242-245 | The entries of two runs are the entries of each, with the second numbered on from the first. |
| JsScanner.ErrorLinesNeverNull | spacemap/scanner.js:244 | Every corrupt record has an error message, so no entry prints `null`. |
| JsCli.TrimStart | spacemap/scanner.js:268 | `parseInt` strips exactly the leading ECMAScript white space and line terminators. |
| JsCli.DigitPrefixLength | spacemap/scanner.js:268 | The numeral that is read is the longest run of leading digits. |
| JsCli.JsParseInt | spacemap/scanner.js:268 | A number is read only from text that is not all white space, and a negative one only after a leading minus sign. |
| JsCli.ParseIntReadsNumeral | spacemap/scanner.js:268 | `parseInt` of a decimal numeral followed by a non-digit gives the numeral's value. |
| JsCli.ParseIntReadsNegativeNumeral | spacemap/scanner.js:268 | `parseInt("-N…")` gives −N. |
| JsCli.ParseIntReadsHexNumeral | spacemap/scanner.js:268 | `0x` or `0X` followed by hexadecimal digits is read in base 16, up to the first character that is not a hexadecimal digit. |
| JsCli.HexExamples | spacemap/scanner.js:268 | `parseInt("0x1f")` is 31, and `parseInt("0x")` is NaN. |
| JsCli.ParseIntWithoutDigits | spacemap/scanner.js:268 | Without digits after the sign, `parseInt` gives NaN, which is modelled as `None`. |
| JsCli.RadixTenIsDecimal | spacemap/scanner.js:268 | The radix-10 value of a digit run is its decimal value. |
| JsCli.Step | spacemap/scanner.js:262-285 | One pass of the `switch` moves on by one or two arguments, or stops. |
| JsCli.ParseFrom | spacemap/scanner.js:262-285 | No argument turns `verbose` on. A directory that differs from the one set before position `i` is one of the arguments from `i` on. |
| JsCli.Parse | spacemap/scanner.js:262-285 | After parsing, `verbose` is never `true`. A directory other than the default `.` is one of the arguments. |
| JsCli.ParseArgs | spacemap/scanner.js:262-285 | The `for`/`switch` loop computes the argument-parsing function. |
| JsCli.ParseFromShift | spacemap/scanner.js:262-285 | What the loop does from a position on does not depend on the arguments before it. |
| JsCli.UnknownArgumentIgnored | spacemap/scanner.js:263-284 | An argument that is not an option is skipped. |
| JsCli.ValueFlagConsumesNext | spacemap/scanner.js:267-275 | `-w`, `-o` and `-d` take the next argument, whatever it is, and parsing resumes after it. |
| JsCli.ValueFlagAtEnd | spacemap/scanner.js:267-275 | A value flag in last position reads `undefined`. For `-d` the scan then uses `.`. |
| JsCli.HelpStopsParsing | spacemap/scanner.js:276-283 | `-h` ends parsing with exit status 0, whatever follows it. |
| JsCli.QuietIsSticky | spacemap/scanner.js:264-266 | Once quiet is set, nothing later clears it. |
| JsCli.VerboseUnlessQuiet | spacemap/scanner.js:264-266 | Without a quiet flag, verbose stays unset, and the scanner logs. |
| JsCli.WorkersOption | spacemap/scanner.js:267-268 | `-w N` sets N workers. `-w 0` and a missing `-w` give one worker per CPU. |
| JsScanner.WorkerCount | spacemap/scanner.js:93 | The count is 0 only on a machine with no CPUs, and negative only when `-w` gave that negative number. |
| JsCli.MainExit | spacemap/scanner.js:287-298 | The exit status is never negative. |
| JsCli.RunMain | spacemap/scanner.js:256-300 | The exit status is 0 after `-h`, 1 when the scan or the save throws, and otherwise the number of corrupt results. After `-h` nothing is saved. Otherwise the report text is saved exactly when a non-empty output file was given and the scan did not throw, and that includes the case where the write later fails. |
| JsCli.ExitStatusCountsCorrupt | spacemap/scanner.js:287-298 | A run that does not throw exits with a non-negative status. The status is at most the number of candidates, 0 with no candidates, and the corrupt count when there are workers. |
| PyScanner.FileNames | spacemap/scanner.py:162 | `os.walk`'s file names are no more than the directory's entries. |
| PyScanner.FileNamesMembership | spacemap/scanner.py:162 | A name is among a directory's walked files exactly when it names an entry that is not a directory or a link to one. |
| PyScanner.Walk | spacemap/scanner.py:162 | `os.walk` yields at least the top directory's triple exactly when the top can be listed. |
| PyScanner.TopFilesFirst | spacemap/scanner.py:162-165 | Top-down: a directory's own image files are collected before anything below it. |
| PyScanner.FlatDirectoryMembership | spacemap/scanner.py:162-165 | In a directory without sub-directories, a path is collected exactly when it joins the name of a non-directory entry that is an image file. |
| PyScanner.CollectImageFiles | spacemap/scanner.py:158-168 | The nested loop collects the image paths of every walked directory, in walk order. |
| PyScanner.ImageFilesOf | spacemap/scanner.py:163-165 | The inner loop keeps exactly the image files of one directory, joined to its root, in order. |
| PyScanner.ImagePathsMembership | spacemap/scanner.py:163-165 | A path is collected from a directory exactly when it joins a file name that passes `is_image_file`. |
| PyScanner.ImagePathsSound | spacemap/scanner.py:164-165 | Every collected path joins an image file of the directory. |
| PyScanner.ImagePathsComplete | spacemap/scanner.py:164-165 | Every image file of the directory is collected. |
| PyScanner.CollectedConcat | spacemap/scanner.py:162-165 | Collection distributes over the walk's steps. |
| PyScanner.CollectedImageFilesAreImages | spacemap/scanner.py:34-36 | Every path the collector returns passes `is_image_file`. |
| PyScanner.ProcessImage | spacemap/scanner.py:140-156 | A record is made only for a corrupt verdict, and it holds the path and the verdict's message. |
| PyScanner.ProcessImageRecordsCorruption | spacemap/scanner.py:140-156 | There is a record exactly when the file is corrupt and the size re-read does not raise. The record holds the path, the message and the size, which is 0 when the file no longer exists. |
| PyScanner.Positions | spacemap/scanner.py:182-185 | One future is submitted for each collected position. |
| PyScanner.ScanDirectoryMultithreaded | spacemap/scanner.py:170-199 | The result is the records in completion order with the number collected. A pool with a non-positive worker count is refused. |
| PyScanner.RecordsInOrder | spacemap/scanner.py:187-192 | There are no more records than completed futures. |
| PyScanner.RecordsConcat | spacemap/scanner.py:187-192 | Records of consecutive runs of completions are the records of each run. |
| PyScanner.RecordsPermutation | spacemap/scanner.py:187-192 | Two completion orders of the same futures give the same records up to permutation. |
| PyScanner.RecordsComeFromOrder | spacemap/scanner.py:187-192 | Every record is the result of some completed future. |
| PyScanner.ScanResultProperties | spacemap/scanner.py:170-199 | For any two completion orders: there are at most as many records as images, and the same number in both orders, and the same records as a multiset. Each record names a collected path whose verdict is corrupt with the record's message. Conversely, every corrupt path whose size re-read does not raise has its record, so the number of records is the number of such paths. |
| PyScanner.ScanIsComplete | spacemap/scanner.py:182-192 | No omissions: for any completion order, every path whose `process_image` returns a record has that record among the results. There are exactly as many records as such paths. |
| PyScanner.RecordOfCompletedIn | spacemap/scanner.py:187-192 | The record of every completed future is among the gathered records. |
| PyScanner.RecordsInPositionOrder | spacemap/scanner.py:187-192 | In submission order, the first n futures give one record per position whose `process_image` returns one. |
| PyCli.HeaderLines | spacemap/scanner.py:237-246 | The report starts with eight lines. |
| PyCli.EntryLines | spacemap/scanner.py:251-256 | Each corrupt image takes four lines. |
| PyCli.CorruptLines | spacemap/scanner.py:250-256 | The corrupt section holds four lines per image. |
| PyCli.ReportLines | spacemap/scanner.py:237-258 | The report has 9 lines without corrupt images, and 10 + 4n lines for n of them. |
| PyCli.BuildReportLines | spacemap/scanner.py:237-258 | The list that is built is the header, then the corrupt section or the confirmation line. |
| PyCli.ReportHeaderLayout | spacemap/scanner.py:237-246 | The report's first eight lines are the header. Lines 3 to 5 give the directory, the total and the corrupt count. |
| PyCli.ReportBodyLayout | spacemap/scanner.py:248-256 | With corrupt images the report has 10 + 4n lines. Line 9 heads the section, and the k-th block (counting from 0) is entry number k+1. |
| PyCli.CorruptLinesLayout | spacemap/scanner.py:250-256 | The corrupt section is four lines per image, the k-th block (counting from 0) being entry number k+1. |
| PyCli.SplitLines | spacemap/scanner.py:266 | Splitting a text on newlines yields at least one line. |
| PyCli.SplitJoinRoundTrip | spacemap/scanner.py:266 | `'\n'.join` of non-empty lines without newlines splits back into the same lines. |
| PyCli.SavedReportSplitsIntoLines | spacemap/scanner.py:237-266 | When the inputs hold no newline, the saved file splits back into exactly the report's lines. |
| PyCli.PyMain | spacemap/scanner.py:211-271 | The exit status is 1 for a missing directory, for a refused pool, or for the `ZeroDivisionError` of the speed line when no time has elapsed. Otherwise it is the corrupt count. A report file is written only when the scan ran, time elapsed and `--output` is non-empty, and it holds the joined report lines. |
| PyCli.PyMainExit | spacemap/scanner.py:211-271 | The exit status is never negative, and it is 1 when no time has elapsed (scanner.py:244 divides by the elapsed time). Once the scan runs and time has elapsed, it is at most the number of completed futures. |
| PyCli.PyExitStatusCountsCorrupt | spacemap/scanner.py:231-271 | The exit status is non-negative and does not depend on the completion order. Once the scan runs and time has elapsed, it equals the number of images that are corrupt and whose size re-read does not raise. So it is at most the number of images, and 0 without images. |
| Middleware.FirstMatch | functions/_middleware.js:8-9 | The search finds the leftmost position where the key is followed by a digit, or reports that there is none. |
| Middleware.DigitRunEnd | functions/_middleware.js:8-9 | `\d+` is greedy: the run ends at the first non-digit. |
| Middleware.ExtractId | functions/_middleware.js:7-9 | An id is extracted exactly when the key followed by a digit occurs somewhere. The id is a non-empty run of digits. |
| Middleware.ExtractedIdIsLeftmostMaximalRun | functions/_middleware.js:8-9 | The id is the maximal run of digits after the leftmost such occurrence. |
| Middleware.OnRequest | functions/_middleware.js:1-25 | The gate either passes the request on or answers 403 "Access Denied". It passes only a request that has a Cookie header. |
| Middleware.PassesExactlyWhenAllowed | functions/_middleware.js:7-24 | The request goes on exactly when an id was extracted and the store holds a non-empty value for it. Every other request gets 403 "Access Denied" as text/plain. |
| Middleware.MissingCookieDenies | functions/_middleware.js:7 | A request without a Cookie header is denied. |
| Middleware.UrlIsIgnored | functions/_middleware.js:3-4 | The decision does not depend on the URL. |
| Middleware.EmptyStoredValueDenies | functions/_middleware.js:11-16 | A stored empty string denies like a missing key. |
| Middleware.UnanchoredMatch | functions/_middleware.js:8 | The key also matches inside a longer cookie name. |
| Middleware.SkipsKeyWithoutDigits | functions/_middleware.js:8-9 | An occurrence without digits is passed over, and the digits stop at the first non-digit. |
| CrossChecks.ExtensionSetsCompared | spacemap/scanner.py:21-24 | scanner.py recognises every extension scanner.js does, and the four Netpbm formats besides. |
| CrossChecks.CandidateIsImageFile | spacemap/scanner.py:34-36 | Every file scanner.js keeps passes `is_image_file`. |
| CrossChecks.HeaderChecksAgree | spacemap/scanner.py:94-111 | For JPEG, PNG and WebP files of at least four bytes, the two magic checks accept the same files. |
| CrossChecks.GifAndBmpCheckedOnlyByPython | spacemap/scanner.py:103-108 | The Node validator passes GIF and BMP bytes unchecked. The Python one requires their signatures. |
| CrossChecks.PythonCollectsEveryJsCandidate | spacemap/scanner.py:158-168 | Below a normalised directory path, every path scanner.js collects is collected by scanner.py. |
| CrossChecks.DefaultDirectorySpelling | spacemap/scanner.py:165 | Below the default directory `.`, scanner.js names a file `a.png` and scanner.py names it `./a.png`. |

## Left out

- Threads, worker threads and the event loop. Both scanners are modelled as
  sequential. How replies are matched to listeners is the `replies` input,
  and the completion order is the `order` input.
- Clocks. The date, the elapsed time and the speed are inputs, already
  rendered as text. Whether the Python clock shows no elapsed time is the
  `noTimePassed` input.
- `toFixed`, the `:.2f`/`:.1f` formats and `format_file_size`. These are
  floating-point renderings and are taken as inputs (`sizeText`).
- Console output: the progress lines, the logs and the printed report.
- The sharp and Pillow decoders, `fs.stat`/`fs.readFile`/`os.path.getsize`/
  `open`. Their answers are inputs.
- The random pixel sampling of `validate_webgl_style`. Its outcome is an input.
- `os.path.abspath` is an input. Node's `path.join` normalisation is
  modelled for the directory `.`, the empty directory and normalised directory paths. Other
  spellings (`./x`, `a/../b`, `a//b`, a trailing `/`) are joined with one
  separator and no normalisation.
- The `PilDecoder` input's later opens report the size of the RGBA render.
  A file that changes between the opens is not modelled.
- `toLowerCase`/`lower` are modelled as ASCII lower-casing.
- argparse is taken as already parsed (`PyArgs`).
- The worker thread entry point of scanner.js, `isMainThread`, and the
  50 ms pause between batches are not modelled.
- `worker.terminate()` has no modelled effect.
- `JsScanner.ImageScanner.Scan`: requires an empty pool. scanner.js calls
  `scan` once on a fresh scanner, and a second call is not modelled.
- `JsCli.JsParseInt`: reads unbounded integers. Precision loss above 2^53
  and `-0` (which is falsy, like 0) are not modelled separately.
- Exit statuses are the values passed to `process.exit`/`sys.exit`. The
  truncation of the status to 8 bits by the operating system is not modelled.
- The `except` branch of `collect_image_files` cannot fire, because
  `os.walk` reports no errors by default. Errors listing a sub-directory
  make it contribute nothing, as an `Unreadable` listing.
- A report write that fails in scanner.py is caught and only printed. The
  exit status is unaffected, and the model states exactly that.
- `env.ALLOWED_USERS.get` failing and an invalid request URL (the
  `new URL` throw) are not modelled.
- patch.py and functions/spacemap/[[path]].js are not part of this model.
