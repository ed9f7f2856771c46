/** The report and the exit status of scanner.py's `main`: the report lines,
    the text written to the `--output` file, and the process exit status. The
    command line is taken as already parsed; the clock, the absolute path of
    the directory and the human-readable file sizes are inputs. */
module PyCli {
  import opened Common
  import opened Decimal
  import opened Paths
  import opened FileTree
  import opened PilValidator
  import opened PyScanner

  const ReportTitleLine := "REPORTE DE ANÁLISIS DE IMÁGENES"
  const CorruptSectionLine := "IMÁGENES CORRUPTAS:"
  const ConfirmationLine := "✅ No se encontraron imágenes corruptas."

  /** The eight lines every report starts with. `timeText` and `speedText`
      are the formatted elapsed time and rate (`:.2f` and `:.1f`). */
  function HeaderLines(absDir: string, total: nat, corruptCount: nat, timeText: string, speedText: string)
    : (ls: seq<string>)
    ensures |ls| == 8
  {
    [ ReportTitleLine,
      Repeat('=', 60),
      "Directorio: " + absDir,
      "Total imágenes: " + NatToString(total),
      "Imágenes corruptas: " + NatToString(corruptCount),
      "Tiempo: " + timeText + "s",
      "Velocidad: " + speedText + " img/s",
      "" ]
  }

  /** The four lines of the `i`-th corrupt image; `sizeText` is
      `format_file_size`. */
  function EntryLines(i: nat, r: PyRecord, sizeText: nat -> string): (ls: seq<string>)
    ensures |ls| == 4
  {
    [ NatToString(i) + ". " + r.path,
      "   Tamaño: " + sizeText(r.size),
      "   Error: " + r.error,
      "" ]
  }

  /** The entries of `enumerate(corrupt_images, 1)`. */
  function CorruptLines(rs: seq<PyRecord>, sizeText: nat -> string): (ls: seq<string>)
    ensures |ls| == 4 * |rs|
  {
    if rs == [] then []
    else CorruptLines(rs[..|rs| - 1], sizeText) + EntryLines(|rs|, rs[|rs| - 1], sizeText)
  }

  /** `report_lines` once the corrupt section or the confirmation is added. */
  function ReportLines(absDir: string, total: nat, rs: seq<PyRecord>, timeText: string, speedText: string,
                       sizeText: nat -> string): (ls: seq<string>)
    ensures |ls| == if rs == [] then 9 else 10 + 4 * |rs|
  {
    HeaderLines(absDir, total, |rs|, timeText, speedText) + ReportTail(rs, sizeText)
  }

  /** The lines after the header: the corrupt section, or the confirmation. */
  function ReportTail(rs: seq<PyRecord>, sizeText: nat -> string): seq<string>
  {
    if rs != [] then [CorruptSectionLine, Repeat('-', 40)] + CorruptLines(rs, sizeText)
    else [ConfirmationLine]
  }

  /** The report is built as `main` builds it: the header, then one `extend`
      per corrupt image, numbered from one, or the single confirmation line. */
  method BuildReportLines(absDir: string, total: nat, rs: seq<PyRecord>, timeText: string, speedText: string,
                          sizeText: nat -> string)
    returns (lines: seq<string>)
    ensures lines == ReportLines(absDir, total, rs, timeText, speedText, sizeText)
  {
    var header := HeaderLines(absDir, total, |rs|, timeText, speedText);
    lines := header;
    if rs != [] {
      var section := [CorruptSectionLine, Repeat('-', 40)];
      lines := lines + section;
      for i := 0 to |rs|
        invariant lines == header + section + CorruptLines(rs[..i], sizeText)
      {
        CorruptLinesStep(rs, i, sizeText);
        AppendAssoc(header + section, CorruptLines(rs[..i], sizeText), EntryLines(i + 1, rs[i], sizeText));
        lines := lines + EntryLines(i + 1, rs[i], sizeText);
      }
      TakeAll(rs);
      AppendAssoc(header, section, CorruptLines(rs, sizeText));
    } else {
      lines := lines + [ConfirmationLine];
    }
  }

  lemma CorruptLinesStep(rs: seq<PyRecord>, i: nat, sizeText: nat -> string)
    requires i < |rs|
    ensures CorruptLines(rs[..i + 1], sizeText) == CorruptLines(rs[..i], sizeText) + EntryLines(i + 1, rs[i], sizeText)
  {
    assert rs[..i + 1][..i] == rs[..i];
  }

  /** `'\n'.join(lines)`. */
  function JoinLines(ls: seq<string>): string
  {
    if ls == [] then ""
    else if |ls| == 1 then ls[0]
    else JoinLines(ls[..|ls| - 1]) + "\n" + ls[|ls| - 1]
  }

  /** `s.split('\n')`, the inverse of `JoinLines` on lines without a newline. */
  function SplitLines(s: string): (ls: seq<string>)
    ensures |ls| >= 1
    decreases |s|
  {
    match LastIndexOf(s, '\n')
    case None => [s]
    case Some(i) => SplitLines(s[..i]) + [s[i + 1..]]
  }

  predicate NoNewline(s: string) {
    forall j :: 0 <= j < |s| ==> s[j] != '\n'
  }

  // ---------------------------------------------------------------------------
  // Properties of the report

  /** The corrupt section is four lines per image, and the block of the `k`-th
      image (from zero) is the entry numbered `k + 1`. */
  lemma {:induction false} CorruptLinesLayout(rs: seq<PyRecord>, sizeText: nat -> string)
    ensures |CorruptLines(rs, sizeText)| == 4 * |rs|
    ensures forall k :: 0 <= k < |rs| ==>
      CorruptLines(rs, sizeText)[4 * k..4 * k + 4] == EntryLines(k + 1, rs[k], sizeText)
    decreases |rs|
  {
    if rs != [] {
      var n := |rs|;
      var pre := rs[..n - 1];
      CorruptLinesLayout(pre, sizeText);
      var front := CorruptLines(pre, sizeText);
      var ls := CorruptLines(rs, sizeText);
      assert ls == front + EntryLines(n, rs[n - 1], sizeText);
      forall k | 0 <= k < n
        ensures ls[4 * k..4 * k + 4] == EntryLines(k + 1, rs[k], sizeText)
      {
        if k < n - 1 {
          assert pre[k] == rs[k];
          assert ls[4 * k..4 * k + 4] == front[4 * k..4 * k + 4];
        } else {
          assert ls[4 * k..4 * k + 4] == ls[|front|..];
        }
      }
    }
  }

  /** The header states the directory and both counts. */
  lemma ReportHeaderLayout(absDir: string, total: nat, rs: seq<PyRecord>, timeText: string, speedText: string,
                           sizeText: nat -> string)
    ensures var ls := ReportLines(absDir, total, rs, timeText, speedText, sizeText);
      && |ls| > 8
      && ls[..8] == HeaderLines(absDir, total, |rs|, timeText, speedText)
      && ls[2] == "Directorio: " + absDir
      && ls[3] == "Total imágenes: " + NatToString(total)
      && ls[4] == "Imágenes corruptas: " + NatToString(|rs|)
  {
    HeaderFields(absDir, total, |rs|, timeText, speedText);
    PrefixOfAppend(HeaderLines(absDir, total, |rs|, timeText, speedText), ReportTail(rs, sizeText));
  }

  lemma HeaderFields(absDir: string, total: nat, count: nat, timeText: string, speedText: string)
    ensures var ls := HeaderLines(absDir, total, count, timeText, speedText);
      && ls[2] == "Directorio: " + absDir
      && ls[3] == "Total imágenes: " + NatToString(total)
      && ls[4] == "Imágenes corruptas: " + NatToString(count)
  {
  }

  /** With corrupt images the section title follows the header, and the block
      of the `k`-th image (from zero) is the entry numbered `k + 1`, at lines
      `10 + 4k` to `13 + 4k`. */
  lemma ReportBodyLayout(absDir: string, total: nat, rs: seq<PyRecord>, timeText: string, speedText: string,
                         sizeText: nat -> string)
    requires rs != []
    ensures var ls := ReportLines(absDir, total, rs, timeText, speedText, sizeText);
      && |ls| == 10 + 4 * |rs| && ls[8] == CorruptSectionLine
      && forall k :: 0 <= k < |rs| ==> ls[10 + 4 * k..14 + 4 * k] == EntryLines(k + 1, rs[k], sizeText)
  {
    var header := HeaderLines(absDir, total, |rs|, timeText, speedText);
    var section := [CorruptSectionLine, Repeat('-', 40)];
    CorruptLinesLayout(rs, sizeText);
    AppendAssoc(header, section, CorruptLines(rs, sizeText));
    BlocksAfterFront(ReportLines(absDir, total, rs, timeText, speedText, sizeText), header + section,
      CorruptLines(rs, sizeText), rs, sizeText);
  }

  /** Ten lines in front of the entry blocks move each block ten lines on. */
  lemma BlocksAfterFront(ls: seq<string>, front: seq<string>, body: seq<string>, rs: seq<PyRecord>,
                         sizeText: nat -> string)
    requires ls == front + body && |front| == 10 && |body| == 4 * |rs|
    requires forall k :: 0 <= k < |rs| ==> body[4 * k..4 * k + 4] == EntryLines(k + 1, rs[k], sizeText)
    ensures forall k :: 0 <= k < |rs| ==> ls[10 + 4 * k..14 + 4 * k] == EntryLines(k + 1, rs[k], sizeText)
  {
    forall k | 0 <= k < |rs|
      ensures ls[10 + 4 * k..14 + 4 * k] == EntryLines(k + 1, rs[k], sizeText)
    {
      assert ls[10 + 4 * k..14 + 4 * k] == body[4 * k..4 * k + 4];
    }
  }

  /** The position is the last occurrence of `c`. */
  lemma LastIndexAt(s: string, c: char, p: nat)
    requires p < |s| && s[p] == c
    requires forall j :: p < j < |s| ==> s[j] != c
    ensures LastIndexOf(s, c) == Some(p)
  {
  }

  /** A newline followed only by characters other than newlines is the last
      one. */
  lemma LastNewlineAt(s: string, p: nat)
    requires p < |s| && s[p] == '\n' && NoNewline(s[p + 1..])
    ensures LastIndexOf(s, '\n') == Some(p)
  {
    forall j | p < j < |s| ensures s[j] != '\n' {
      assert s[j] == s[p + 1..][j - p - 1];
    }
    LastIndexAt(s, '\n', p);
  }

  /** Splitting the written report on newlines gives back its lines, provided
      no line holds a newline of its own. */
  lemma {:induction false} SplitJoinRoundTrip(ls: seq<string>)
    requires ls != []
    requires LinesWithoutNewline(ls)
    ensures SplitLines(JoinLines(ls)) == ls
    decreases |ls|
  {
    var n := |ls|;
    if n == 1 {
      assert JoinLines(ls) == ls[0];
    } else {
      var pre := ls[..n - 1];
      var p := JoinLines(pre);
      var s := p + "\n" + ls[n - 1];
      assert JoinLines(ls) == s;
      assert s[|p|] == '\n';
      assert s[..|p|] == p;
      assert s[|p| + 1..] == ls[n - 1];
      LastNewlineAt(s, |p|);
      SplitJoinRoundTrip(pre);
      assert ls == pre + [ls[n - 1]];
    }
  }

  predicate LinesWithoutNewline(ls: seq<string>) {
    forall i :: 0 <= i < |ls| ==> NoNewline(ls[i])
  }

  lemma LinesWithoutNewlineConcat(a: seq<string>, b: seq<string>)
    requires LinesWithoutNewline(a) && LinesWithoutNewline(b)
    ensures LinesWithoutNewline(a + b)
  {
    forall i | 0 <= i < |a + b| ensures NoNewline((a + b)[i]) {
      if i >= |a| {
        assert (a + b)[i] == b[i - |a|];
      }
    }
  }

  lemma NoNewlineConcat(a: string, b: string)
    requires NoNewline(a) && NoNewline(b)
    ensures NoNewline(a + b)
  {
    forall j | 0 <= j < |a + b| ensures (a + b)[j] != '\n' {
      if j >= |a| {
        assert (a + b)[j] == b[j - |a|];
      }
    }
  }

  lemma DigitsHaveNoNewline(s: string)
    requires AllDigits(s)
    ensures NoNewline(s)
  {
    forall j | 0 <= j < |s| ensures s[j] != '\n' {
      assert IsDigit(s[j]);
    }
  }

  lemma HeaderWithoutNewline(absDir: string, total: nat, count: nat, timeText: string, speedText: string)
    requires NoNewline(absDir) && NoNewline(timeText) && NoNewline(speedText)
    ensures LinesWithoutNewline(HeaderLines(absDir, total, count, timeText, speedText))
  {
    var ls := HeaderLines(absDir, total, count, timeText, speedText);
    HeaderLabelsWithoutNewline();
    RuleWithoutNewline('=', 60);
    DigitsHaveNoNewline(NatToString(total));
    DigitsHaveNoNewline(NatToString(count));
    NoNewlineConcat("Directorio: ", absDir);
    NoNewlineConcat("Total imágenes: ", NatToString(total));
    NoNewlineConcat("Imágenes corruptas: ", NatToString(count));
    NoNewlineConcat("Tiempo: ", timeText);
    NoNewlineConcat("Tiempo: " + timeText, "s");
    NoNewlineConcat("Velocidad: ", speedText);
    NoNewlineConcat("Velocidad: " + speedText, " img/s");
    forall i | 0 <= i < 8 ensures NoNewline(ls[i]) {
    }
  }

  lemma HeaderLabelsWithoutNewline()
    ensures NoNewline(ReportTitleLine) && NoNewline("") && NoNewline("s") && NoNewline(" img/s")
    ensures NoNewline("Directorio: ") && NoNewline("Total imágenes: ") && NoNewline("Imágenes corruptas: ")
    ensures NoNewline("Tiempo: ") && NoNewline("Velocidad: ")
  {
  }

  lemma RuleWithoutNewline(c: char, n: nat)
    requires c != '\n'
    ensures NoNewline(Repeat(c, n))
  {
  }

  lemma {:induction false} CorruptLinesWithoutNewline(rs: seq<PyRecord>, sizeText: nat -> string)
    requires forall k :: 0 <= k < |rs| ==> NoNewline(rs[k].path) && NoNewline(rs[k].error)
    requires forall n: nat :: NoNewline(sizeText(n))
    ensures LinesWithoutNewline(CorruptLines(rs, sizeText))
    decreases |rs|
  {
    if rs != [] {
      var n := |rs|;
      var r := rs[n - 1];
      CorruptLinesWithoutNewline(rs[..n - 1], sizeText);
      DigitsHaveNoNewline(NatToString(n));
      NoNewlineConcat(NatToString(n), ". ");
      NoNewlineConcat(NatToString(n) + ". ", r.path);
      NoNewlineConcat("   Tamaño: ", sizeText(r.size));
      NoNewlineConcat("   Error: ", r.error);
      assert LinesWithoutNewline(EntryLines(n, r, sizeText));
      LinesWithoutNewlineConcat(CorruptLines(rs[..n - 1], sizeText), EntryLines(n, r, sizeText));
    }
  }

  /** Every line of the report is free of newlines when the inputs are, so the
      written file splits back into the report's lines. */
  lemma SavedReportSplitsIntoLines(absDir: string, total: nat, rs: seq<PyRecord>, timeText: string,
                                   speedText: string, sizeText: nat -> string)
    requires NoNewline(absDir) && NoNewline(timeText) && NoNewline(speedText)
    requires forall k :: 0 <= k < |rs| ==> NoNewline(rs[k].path) && NoNewline(rs[k].error)
    requires forall n: nat :: NoNewline(sizeText(n))
    ensures var ls := ReportLines(absDir, total, rs, timeText, speedText, sizeText);
      SplitLines(JoinLines(ls)) == ls
  {
    HeaderWithoutNewline(absDir, total, |rs|, timeText, speedText);
    TailWithoutNewline(rs, sizeText);
    LinesWithoutNewlineConcat(HeaderLines(absDir, total, |rs|, timeText, speedText), ReportTail(rs, sizeText));
    SplitJoinRoundTrip(ReportLines(absDir, total, rs, timeText, speedText, sizeText));
  }

  lemma TailWithoutNewline(rs: seq<PyRecord>, sizeText: nat -> string)
    requires forall k :: 0 <= k < |rs| ==> NoNewline(rs[k].path) && NoNewline(rs[k].error)
    requires forall n: nat :: NoNewline(sizeText(n))
    ensures LinesWithoutNewline(ReportTail(rs, sizeText))
  {
    if rs != [] {
      CorruptLinesWithoutNewline(rs, sizeText);
      SectionLinesWithoutNewline();
      LinesWithoutNewlineConcat([CorruptSectionLine, Repeat('-', 40)], CorruptLines(rs, sizeText));
    } else {
      assert LinesWithoutNewline([ConfirmationLine]);
    }
  }

  lemma SectionLinesWithoutNewline()
    ensures LinesWithoutNewline([CorruptSectionLine, Repeat('-', 40)])
  {
    RuleWithoutNewline('-', 40);
  }

  // ---------------------------------------------------------------------------
  // `main`

  /** The parsed command line: `--quiet`, `--output`, `--directory` (default
      `.`) and `--threads`. */
  datatype PyArgs = PyArgs(quiet: bool, output: Option<string>, directory: string, threads: Option<int>)

  /** `if args.output:`: a report is written for a non-empty file name. */
  predicate WritesReport(args: PyArgs) {
    args.output.Some? && args.output.value != ""
  }

  /** The exit status `main` ends with: 1 for a missing directory, 1 for the
      uncaught `ValueError` of a thread pool with no positive worker count, 1
      for the uncaught `ZeroDivisionError` of the speed line when the clock
      shows no elapsed time (`noTimePassed`), and otherwise the number of
      corrupt images. A failed report write is caught and does not change it. */
  function PyMainExit(args: PyArgs, directoryExists: bool, l: Listing, outcome: nat -> Option<PyRecord>,
                      order: seq<nat>, noTimePassed: bool): (code: int)
    ensures 0 <= code
    ensures directoryExists && PoolAccepts(args.threads) && !noTimePassed ==> code <= |order|
    ensures noTimePassed ==> code == 1
  {
    if !directoryExists then 1
    else if !PoolAccepts(args.threads) then 1
    else if noTimePassed then 1
    else |RecordsInOrder(order, outcome)|
  }

  /** `main()` after argument parsing. `directoryExists` is
      `os.path.exists(args.directory)`, `l` the directory's listing, and
      `noTimePassed` says that `elapsed_time` is 0, so that building the speed
      line raises before anything is printed or written; `saved` is the name
      and the text of the report file `main` tries to write. */
  method PyMain(args: PyArgs, directoryExists: bool, l: Listing,
                verdicts: nat -> Corruption, sizes: nat -> Option<Result<nat>>, order: seq<nat>,
                noTimePassed: bool,
                absDir: string, timeText: string, speedText: string, sizeText: nat -> string)
    returns (exitCode: int, saved: Option<(string, string)>)
    requires IsCompletionOrder(order, |Collected(Walk(args.directory, l))|)
    ensures var files := Collected(Walk(args.directory, l));
      exitCode == PyMainExit(args, directoryExists, l, Outcomes(files, verdicts, sizes), order, noTimePassed)
    ensures var files := Collected(Walk(args.directory, l));
      var rs := RecordsInOrder(order, Outcomes(files, verdicts, sizes));
      saved == if directoryExists && PoolAccepts(args.threads) && !noTimePassed && WritesReport(args)
               then Some((args.output.value, JoinLines(ReportLines(absDir, |files|, rs, timeText, speedText, sizeText))))
               else None
  {
    saved := None;
    if !directoryExists {
      return 1, None;
    }
    var result := ScanDirectoryMultithreaded(args.directory, l, args.threads, verdicts, sizes, order);
    if result.PoolRefused? {
      return 1, None;
    }
    if noTimePassed {
      return 1, None;
    }
    var reportLines := BuildReportLines(absDir, result.total, result.corrupt, timeText, speedText, sizeText);
    if args.output.Some? && args.output.value != "" {
      saved := Some((args.output.value, JoinLines(reportLines)));
    }
    exitCode := |result.corrupt|;
  }

  /** The exit status is never negative, is at most the number of collected
      images once the scan runs and reports, is 0 for a directory without
      images, and does not depend on the order in which the threads finish. */
  lemma PyExitStatusCountsCorrupt(args: PyArgs, l: Listing, verdicts: nat -> Corruption,
                                  sizes: nat -> Option<Result<nat>>, order: seq<nat>, order2: seq<nat>,
                                  noTimePassed: bool)
    requires var n := |Collected(Walk(args.directory, l))|;
      IsCompletionOrder(order, n) && IsCompletionOrder(order2, n)
    ensures var files := Collected(Walk(args.directory, l));
      var outcome := Outcomes(files, verdicts, sizes);
      var code := PyMainExit(args, true, l, outcome, order, noTimePassed);
      && 0 <= code
      && (PoolAccepts(args.threads) && !noTimePassed ==> code <= |files|)
      && (PoolAccepts(args.threads) && !noTimePassed && files == [] ==> code == 0)
      && (PoolAccepts(args.threads) && !noTimePassed ==> code == ReportedCount(|files|, verdicts, sizes))
      && code == PyMainExit(args, true, l, outcome, order2, noTimePassed)
  {
    var files := Collected(Walk(args.directory, l));
    ScanResultProperties(files, verdicts, sizes, order, order2);
  }
}
