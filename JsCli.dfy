/** The command line of scanner.js (`main`): the argument loop, the global
    `parseInt` it applies to the worker count, and the exit status of a run. */
module JsCli {
  import opened Common
  import opened Decimal
  import opened FileTree
  import opened JsScanner

  // ---------------------------------------------------------------------------
  // `parseInt(string)` with no radix

  /** `StrWhiteSpaceChar`: the white space and line terminators `parseInt` skips
      before the number (ECMA-262, sections 12.2, 12.3 and 7.1.4.1.1; the `Zs`
      category is U+0020, U+00A0, U+1680, U+2000 to U+200A, U+202F, U+205F and
      U+3000). */
  predicate IsStrWhiteSpace(c: char) {
    c == '\U{0009}' || c == '\U{000B}' || c == '\U{000C}' || c == '\U{FEFF}'
    || c == '\U{0020}' || c == '\U{00A0}' || c == '\U{1680}' || ('\U{2000}' <= c <= '\U{200A}')
    || c == '\U{202F}' || c == '\U{205F}' || c == '\U{3000}'
    || c == '\U{000A}' || c == '\U{000D}' || c == '\U{2028}' || c == '\U{2029}'
  }

  function TrimStart(s: string): (r: string)
    ensures |r| <= |s| && r == s[|s| - |r|..]
    ensures r == [] || !IsStrWhiteSpace(r[0])
    ensures forall i :: 0 <= i < |s| - |r| ==> IsStrWhiteSpace(s[i])
  {
    if s != [] && IsStrWhiteSpace(s[0]) then
      var r := TrimStart(s[1..]);
      assert forall i :: 1 <= i < |s| - |r| ==> s[i] == s[1..][i - 1];
      r
    else s
  }

  predicate IsRadixDigit(c: char, radix: nat) {
    if radix == 16 then IsDigit(c) || 'a' <= c <= 'f' || 'A' <= c <= 'F' else IsDigit(c)
  }

  function RadixDigitValue(c: char, radix: nat): (d: nat)
    requires IsRadixDigit(c, radix)
    ensures d < (if radix == 16 then 16 else 10)
  {
    if IsDigit(c) then DigitValue(c)
    else if 'a' <= c <= 'f' then c as int - 'a' as int + 10
    else c as int - 'A' as int + 10
  }

  /** The length of the longest prefix of `s` made of digits of `radix`. */
  function DigitPrefixLength(s: string, radix: nat): (n: nat)
    ensures n <= |s|
    ensures forall i :: 0 <= i < n ==> IsRadixDigit(s[i], radix)
    ensures n == |s| || !IsRadixDigit(s[n], radix)
  {
    if s != [] && IsRadixDigit(s[0], radix) then 1 + DigitPrefixLength(s[1..], radix) else 0
  }

  function RadixValue(s: string, radix: nat): nat
    requires forall i :: 0 <= i < |s| ==> IsRadixDigit(s[i], radix)
  {
    if s == [] then 0
    else RadixValue(s[..|s| - 1], radix) * (if radix == 16 then 16 else 10)
         + RadixDigitValue(s[|s| - 1], radix)
  }

  /** The unsigned part of `parseInt`: a `0x` or `0X` prefix selects base 16,
      then the longest run of digits is read; no digit at all is `NaN` (`None`). */
  function ParseMagnitude(u: string): Option<nat>
  {
    var hex := |u| >= 2 && u[0] == '0' && (u[1] == 'x' || u[1] == 'X');
    var radix := if hex then 16 else 10;
    var v := if hex then u[2..] else u;
    var n := DigitPrefixLength(v, radix);
    if n == 0 then None else Some(RadixValue(v[..n], radix))
  }

  /** `parseInt(s)`: leading white space skipped, then an optional sign, then
      the magnitude. `-0` is represented by `0`: both are falsy, which is all
      the caller distinguishes. */
  function JsParseInt(s: string): (r: Option<int>)
    ensures r.Some? && r.value < 0 ==> TrimStart(s) != [] && TrimStart(s)[0] == '-'
    ensures r.Some? ==> TrimStart(s) != []
  {
    var t := TrimStart(s);
    var negative := t != [] && t[0] == '-';
    var u := if t != [] && (t[0] == '-' || t[0] == '+') then t[1..] else t;
    match ParseMagnitude(u)
    case None => None
    case Some(m) => Some(if negative then -(m as int) else m as int)
  }

  lemma {:induction false} RadixTenIsDecimal(s: string)
    requires AllDigits(s)
    ensures RadixValue(s, 10) == DigitsValue(s)
    decreases |s|
  {
    if s != [] {
      RadixTenIsDecimal(s[..|s| - 1]);
    }
  }

  lemma {:induction false} DigitRunBeforeNonDigit(s: string, rest: string)
    requires AllDigits(s)
    requires rest == [] || !IsDigit(rest[0])
    ensures DigitPrefixLength(s + rest, 10) == |s|
    decreases |s|
  {
    if s == [] {
      assert s + rest == rest;
    } else {
      assert (s + rest)[0] == s[0];
      assert (s + rest)[1..] == s[1..] + rest;
      DigitRunBeforeNonDigit(s[1..], rest);
    }
  }

  /** A numeral followed by text that cannot continue it is read as the
      numeral's value. */
  lemma MagnitudeOfNumeral(n: nat, rest: string)
    requires rest == [] || (!IsDigit(rest[0]) && (n == 0 ==> rest[0] != 'x' && rest[0] != 'X'))
    ensures ParseMagnitude(NatToString(n) + rest) == Some(n)
  {
    var s := NatToString(n);
    var t := s + rest;
    assert !(|t| >= 2 && t[0] == '0' && (t[1] == 'x' || t[1] == 'X')) by {
      assert t[0] == s[0];
      if |t| >= 2 && t[0] == '0' {
        assert s == "0" && t[1] == rest[0];
      }
    }
    DigitRunBeforeNonDigit(s, rest);
    assert t[..|s|] == s;
    RadixTenIsDecimal(s);
    NatToStringRoundTrip(n);
  }

  /** A magnitude that starts with a digit is read as it is, and with a minus
      sign in front as its negation. */
  lemma UnsignedMagnitude(u: string, m: nat)
    requires u != [] && IsDigit(u[0]) && ParseMagnitude(u) == Some(m)
    ensures JsParseInt(u) == Some(m)
  {
    NothingToTrim(u);
    assert u[0] != '-' && u[0] != '+';
  }

  lemma NothingToTrim(s: string)
    requires s == [] || !IsStrWhiteSpace(s[0])
    ensures TrimStart(s) == s
  {
  }

  lemma NegatedMagnitude(u: string, m: nat)
    requires u != [] && IsDigit(u[0]) && ParseMagnitude(u) == Some(m)
    ensures JsParseInt("-" + u) == Some(-(m as int))
  {
    var v := "-" + u;
    assert v[1..] == u;
    NothingToTrim(v);
    assert v[0] == '-';
    assert ParseMagnitude(v[1..]) == Some(m);
  }

  /** A numeral is read back as the number it renders; text after its digits
      is ignored. */
  lemma ParseIntReadsNumeral(n: nat, rest: string)
    requires rest == [] || (!IsDigit(rest[0]) && (n == 0 ==> rest[0] != 'x' && rest[0] != 'X'))
    ensures JsParseInt(NatToString(n) + rest) == Some(n)
  {
    var u := NatToString(n) + rest;
    MagnitudeOfNumeral(n, rest);
    assert u[0] == NatToString(n)[0];
    UnsignedMagnitude(u, n);
  }

  /** With a minus sign in front, the numeral is read as the negated number. */
  lemma ParseIntReadsNegativeNumeral(n: nat, rest: string)
    requires rest == [] || (!IsDigit(rest[0]) && (n == 0 ==> rest[0] != 'x' && rest[0] != 'X'))
    ensures JsParseInt("-" + (NatToString(n) + rest)) == Some(-(n as int))
  {
    var u := NatToString(n) + rest;
    MagnitudeOfNumeral(n, rest);
    assert u[0] == NatToString(n)[0];
    NegatedMagnitude(u, n);
  }

  lemma {:induction false} RadixRunBeforeNonDigit(s: string, rest: string, radix: nat)
    requires forall i :: 0 <= i < |s| ==> IsRadixDigit(s[i], radix)
    requires rest == [] || !IsRadixDigit(rest[0], radix)
    ensures DigitPrefixLength(s + rest, radix) == |s|
    decreases |s|
  {
    if s == [] {
      assert s + rest == rest;
    } else {
      assert (s + rest)[0] == s[0];
      assert (s + rest)[1..] == s[1..] + rest;
      RadixRunBeforeNonDigit(s[1..], rest, radix);
    }
  }

  /** `0x` or `0X` followed by hexadecimal digits is read in base 16, up to
      the first character that is not a hexadecimal digit. */
  lemma ParseIntReadsHexNumeral(x: char, v: string, rest: string)
    requires x == 'x' || x == 'X'
    requires v != [] && forall i :: 0 <= i < |v| ==> IsRadixDigit(v[i], 16)
    requires rest == [] || !IsRadixDigit(rest[0], 16)
    ensures JsParseInt(['0', x] + (v + rest)) == Some(RadixValue(v, 16))
  {
    var u := ['0', x] + (v + rest);
    HexMagnitude(u, x, v, rest);
    assert u[0] == '0';
    UnsignedMagnitude(u, RadixValue(v, 16));
  }

  lemma HexMagnitude(u: string, x: char, v: string, rest: string)
    requires x == 'x' || x == 'X'
    requires v != [] && forall i :: 0 <= i < |v| ==> IsRadixDigit(v[i], 16)
    requires rest == [] || !IsRadixDigit(rest[0], 16)
    requires u == ['0', x] + (v + rest)
    ensures ParseMagnitude(u) == Some(RadixValue(v, 16))
  {
    HexPrefix(u, x, v + rest);
    HexRun(v + rest, v, rest);
    HexBranch(u, v + rest, v);
  }

  lemma HexPrefix(u: string, x: char, w: string)
    requires u == ['0', x] + w
    ensures |u| >= 2 && u[0] == '0' && u[1] == x && u[2..] == w
  {
  }

  lemma HexRun(w: string, v: string, rest: string)
    requires forall i :: 0 <= i < |v| ==> IsRadixDigit(v[i], 16)
    requires rest == [] || !IsRadixDigit(rest[0], 16)
    requires w == v + rest
    ensures DigitPrefixLength(w, 16) == |v| && w[..|v|] == v
  {
    RadixRunBeforeNonDigit(v, rest, 16);
  }

  /** After `0x` or `0X`, the base-16 run of the rest is read. */
  lemma HexBranch(u: string, w: string, v: string)
    requires |u| >= 2 && u[0] == '0' && (u[1] == 'x' || u[1] == 'X') && u[2..] == w
    requires v != [] && DigitPrefixLength(w, 16) == |v| && w[..|v|] == v
    ensures forall i :: 0 <= i < |v| ==> IsRadixDigit(v[i], 16)
    ensures ParseMagnitude(u) == Some(RadixValue(v, 16))
  {
  }

  /** `parseInt("0x1f")` is 31, and `0x` without a hexadecimal digit is NaN. */
  lemma HexExamples()
    ensures JsParseInt("0x1f") == Some(31)
    ensures JsParseInt("0x") == None
  {
    HexOneF();
    ParseIntReadsHexNumeral('x', "1f", "");
    assert ['0', 'x'] + ("1f" + "") == "0x1f";
    HexWithoutDigits();
  }

  lemma HexOneF()
    ensures RadixValue("1f", 16) == 31
  {
    assert "1f"[..1] == "1";
    assert "1"[..0] == "";
  }

  lemma HexWithoutDigits()
    ensures JsParseInt("0x") == None
  {
    NothingToTrim("0x");
    assert "0x"[2..] == [];
  }

  lemma ParseIntWithoutDigits(s: string)
    requires s != [] && !IsStrWhiteSpace(s[0]) && !IsDigit(s[0]) && s[0] != '-' && s[0] != '+'
    ensures JsParseInt(s) == None
  {
    assert TrimStart(s) == s;
  }

  // ---------------------------------------------------------------------------
  // The argument loop

  /** What the loop leaves behind: the options object, the directory (`None`
      when `-d` was the last argument and `args[++i]` read `undefined`) and the
      output file (`None` for `null` or `undefined`). */
  datatype Settings = Settings(options: Options, directory: Option<string>, outputFile: Option<string>)

  /** `-h` prints the usage text and exits at once; otherwise the scan runs. */
  datatype Command = Help | Run(settings: Settings)

  const Initial := Settings(Options(None, None), Some("."), None)

  predicate IsQuietFlag(a: string) { a == "--quiet" || a == "-q" }
  predicate IsWorkersFlag(a: string) { a == "--workers" || a == "-w" }
  predicate IsOutputFlag(a: string) { a == "--output" || a == "-o" }
  predicate IsDirectoryFlag(a: string) { a == "--directory" || a == "-d" }
  predicate IsHelpFlag(a: string) { a == "--help" || a == "-h" }

  predicate IsFlag(a: string) {
    IsQuietFlag(a) || IsWorkersFlag(a) || IsOutputFlag(a) || IsDirectoryFlag(a) || IsHelpFlag(a)
  }

  /** `args[++i]`: the argument after position `i`, or `undefined`. */
  function NextArg(args: seq<string>, i: nat): Option<string>
  {
    if i + 1 < |args| then Some(args[i + 1]) else None
  }

  /** `parseInt(args[++i])`; `parseInt(undefined)` is `NaN`. */
  function WorkersValue(v: Option<string>): Option<int>
  {
    if v.None? then None else JsParseInt(v.value)
  }

  /** The effect of a value-taking flag once its value has been read. */
  function WithValue(s: Settings, flag: string, v: Option<string>): Settings
  {
    if IsWorkersFlag(flag) then s.(options := s.options.(workers := WorkersValue(v)))
    else if IsOutputFlag(flag) then s.(outputFile := v)
    else if IsDirectoryFlag(flag) then s.(directory := v)
    else s
  }

  /** One pass of the `switch` over the argument `a`, `next` being the argument
      after it: `-h` ends the loop, a flag that takes a value reads `next` and
      moves two places on, and every other argument moves one place on. */
  datatype Move = Stop | Advance(consumed: nat, next: Settings)

  function Step(a: string, next: Option<string>, s: Settings): (m: Move)
    ensures m.Advance? ==> 1 <= m.consumed <= 2
  {
    if IsQuietFlag(a) then Advance(1, s.(options := s.options.(verbose := Some(false))))
    else if IsWorkersFlag(a) || IsOutputFlag(a) || IsDirectoryFlag(a) then Advance(2, WithValue(s, a, next))
    else if IsHelpFlag(a) then Stop
    else Advance(1, s)
  }

  /** The loop from position `i` on, with `s` set by the arguments before it. */
  function ParseFrom(args: seq<string>, i: nat, s: Settings): (c: Command)
    ensures c.Run? && s.options.verbose != Some(true) ==> c.settings.options.verbose != Some(true)
    ensures c.Run? && c.settings.directory != s.directory && c.settings.directory.Some? ==>
      i < |args| && c.settings.directory.value in args[i..]
    decreases |args| - i
  {
    if i >= |args| then Run(s)
    else
      match Step(args[i], NextArg(args, i), s)
      case Stop => Help
      case Advance(k, s') => ParseFrom(args, i + k, s')
  }

  function Parse(args: seq<string>): (c: Command)
    ensures c.Run? ==> c.settings.options.verbose != Some(true)
    ensures c.Run? && c.settings.directory.Some? && c.settings.directory.value != "." ==>
      c.settings.directory.value in args
  {
    ParseFrom(args, 0, Initial)
  }

  /** The `for`/`switch` loop of `main` over `process.argv.slice(2)`. */
  method ParseArgs(args: seq<string>) returns (cmd: Command)
    ensures cmd == Parse(args)
  {
    var options := Options(None, None);
    var directory: Option<string> := Some(".");
    var outputFile: Option<string> := None;
    var i := 0;
    while i < |args|
      invariant 0 <= i <= |args| + 1
      invariant ParseFrom(args, i, Settings(options, directory, outputFile)) == Parse(args)
      decreases |args| - i
    {
      var a := args[i];
      if IsQuietFlag(a) {
        options := options.(verbose := Some(false));
      } else if IsWorkersFlag(a) {
        i := i + 1;
        options := options.(workers := if i < |args| then JsParseInt(args[i]) else None);
      } else if IsOutputFlag(a) {
        i := i + 1;
        outputFile := if i < |args| then Some(args[i]) else None;
      } else if IsDirectoryFlag(a) {
        i := i + 1;
        directory := if i < |args| then Some(args[i]) else None;
      } else if IsHelpFlag(a) {
        return Help;
      }
      i := i + 1;
    }
    cmd := Run(Settings(options, directory, outputFile));
  }

  /** `scan(directory)`: an `undefined` directory takes the default `'.'`. */
  function ScanDirectory(s: Settings): string
  {
    s.directory.GetOr(".")
  }

  /** `if (outputFile)`: both a missing name and the empty string skip the save. */
  predicate SaveRequested(s: Settings) {
    s.outputFile.Some? && s.outputFile.value != ""
  }

  // ---------------------------------------------------------------------------
  // Properties of the argument loop

  /** Arguments already consumed do not matter to the rest of the loop. */
  lemma {:induction false} ParseFromShift(pre: seq<string>, args: seq<string>, i: nat, s: Settings)
    ensures ParseFrom(pre + args, |pre| + i, s) == ParseFrom(args, i, s)
    decreases |args| - i
  {
    if i < |args| {
      assert (pre + args)[|pre| + i] == args[i];
      assert NextArg(pre + args, |pre| + i) == NextArg(args, i);
      match Step(args[i], NextArg(args, i), s)
      case Stop =>
      case Advance(k, s') =>
        assert ParseFrom(pre + args, |pre| + i, s) == ParseFrom(pre + args, |pre| + i + k, s');
        ParseFromShift(pre, args, i + k, s');
    }
  }

  /** An argument that is not an option is skipped. */
  lemma UnknownArgumentIgnored(x: string, args: seq<string>, s: Settings)
    requires !IsFlag(x)
    ensures ParseFrom([x] + args, 0, s) == ParseFrom(args, 0, s)
  {
    ParseFromShift([x], args, 0, s);
  }

  /** `-d`, `-w` and `-o` take the next argument as their value, whatever it is
      (so `-o -h` names a report file called `-h`), and parsing resumes after it. */
  lemma ValueFlagConsumesNext(flag: string, v: string, rest: seq<string>, s: Settings)
    requires IsWorkersFlag(flag) || IsOutputFlag(flag) || IsDirectoryFlag(flag)
    ensures ParseFrom([flag, v] + rest, 0, s) == ParseFrom(rest, 0, WithValue(s, flag, Some(v)))
  {
    ParseFromShift([flag, v], rest, 0, WithValue(s, flag, Some(v)));
  }

  /** A value flag in last position reads `undefined`. */
  lemma ValueFlagAtEnd(flag: string, s: Settings)
    requires IsWorkersFlag(flag) || IsOutputFlag(flag) || IsDirectoryFlag(flag)
    ensures ParseFrom([flag], 0, s) == Run(WithValue(s, flag, None))
    ensures IsDirectoryFlag(flag) ==> ScanDirectory(ParseFrom([flag], 0, s).settings) == "."
  {
  }

  /** `-h` ends the loop, whatever comes after it. */
  lemma HelpStopsParsing(flag: string, rest: seq<string>, s: Settings)
    requires IsHelpFlag(flag)
    ensures ParseFrom([flag] + rest, 0, s) == Help
  {
  }

  /** Once quiet mode is set nothing clears it. */
  lemma {:induction false} QuietIsSticky(args: seq<string>, i: nat, s: Settings)
    requires s.options.verbose == Some(false)
    ensures ParseFrom(args, i, s).Run? ==> ParseFrom(args, i, s).settings.options.verbose == Some(false)
    decreases |args| - i
  {
    if i < |args| {
      match Step(args[i], NextArg(args, i), s)
      case Stop =>
      case Advance(k, s') => QuietIsSticky(args, i + k, s');
    }
  }

  /** Only a quiet flag clears `verbose`: without one the scanner logs. */
  lemma {:induction false} VerboseUnlessQuiet(args: seq<string>, i: nat, s: Settings)
    requires s.options.verbose == None
    requires forall k :: 0 <= k < |args| ==> !IsQuietFlag(args[k])
    ensures ParseFrom(args, i, s).Run? ==> ParseFrom(args, i, s).settings.options.verbose == None
    decreases |args| - i
  {
    if i < |args| {
      match Step(args[i], NextArg(args, i), s)
      case Stop =>
      case Advance(k, s') => VerboseUnlessQuiet(args, i + k, s');
    }
  }

  /** `-w N` yields `N` workers, and `-w 0`, like no `-w` at all, yields one
      worker per CPU. */
  lemma WorkersOption(n: nat, cpus: nat)
    ensures Parse(["-w", NatToString(n)]) == Run(Initial.(options := Options(None, Some(n))))
    ensures WorkerCount(Parse(["-w", NatToString(n)]).settings.options.workers, cpus)
         == if n == 0 then cpus else n
    ensures WorkerCount(Parse([]).settings.options.workers, cpus) == cpus
  {
    ParseIntReadsNumeral(n, "");
    assert NatToString(n) + "" == NatToString(n);
    ValueFlagConsumesNext("-w", NatToString(n), [], Initial);
    assert ["-w", NatToString(n)] + [] == ["-w", NatToString(n)];
  }

  // ---------------------------------------------------------------------------
  // `main`

  /** The exit status of `main`: `0` after `-h`; `1` when `scan` or
      `saveReport` throws; otherwise the number of corrupt results. */
  function MainExit(args: seq<string>, cpus: nat, listing: string -> Listing,
                    replies: nat -> WorkerReply, writeFails: bool): (code: int)
    ensures 0 <= code
  {
    match Parse(args)
    case Help => 0
    case Run(s) =>
      var dir := ScanDirectory(s);
      var files := CandidatesIn(dir, listing(dir));
      if files != [] && WorkerCount(s.options.workers, cpus) <= 0 then 1
      else if SaveRequested(s) && writeFails then 1
      else |Corrupt(Replies(replies, |files|))|
  }

  /** `main()`. `listing(d)` is what listing the directory `d` gives, `cpus` is
      `os.cpus().length`, `writeFails` says whether `fs.writeFile` throws; the
      clock readings are passed as the rendered texts. `saved` is the file name
      and text handed to `fs.writeFile`. */
  method RunMain(args: seq<string>, cpus: nat, listing: string -> Listing,
                 replies: nat -> WorkerReply, date: string, time: string, speed: string,
                 writeFails: bool)
    returns (exitCode: int, saved: Option<(string, string)>)
    ensures exitCode == MainExit(args, cpus, listing, replies, writeFails)
    ensures Parse(args).Help? ==> saved == None
    ensures Parse(args).Run? ==>
      var s := Parse(args).settings;
      var files := CandidatesIn(ScanDirectory(s), listing(ScanDirectory(s)));
      saved == if SaveRequested(s) && !(files != [] && WorkerCount(s.options.workers, cpus) <= 0)
               then Some((s.outputFile.value,
                          ReportText(date, |files|, Corrupt(Replies(replies, |files|)), time, speed)))
               else None
  {
    saved := None;
    var cmd := ParseArgs(args);
    if cmd.Help? {
      return 0, None;
    }
    var s := cmd.settings;
    var scanner := new ImageScanner(s.options, cpus);
    var dir := ScanDirectory(s);
    var outcome := scanner.Scan(dir, listing(dir), replies);
    if outcome.Crashed? {
      return 1, None;
    }
    if s.outputFile.Some? && s.outputFile.value != "" {
      var report := scanner.SaveReport(date, time, speed);
      saved := Some((s.outputFile.value, report));
      if writeFails {
        return 1, saved;
      }
    }
    exitCode := |outcome.result.corrupt|;
  }

  /** The exit status of a run that does not throw is the number of corrupt
      results, which is at most the number of candidates. */
  lemma ExitStatusCountsCorrupt(args: seq<string>, cpus: nat, listing: string -> Listing,
                                replies: nat -> WorkerReply, writeFails: bool)
    requires Parse(args).Run?
    ensures var s := Parse(args).settings;
      var files := CandidatesIn(ScanDirectory(s), listing(ScanDirectory(s)));
      var code := MainExit(args, cpus, listing, replies, writeFails);
      && 0 <= code
      && (!(SaveRequested(s) && writeFails) ==> code <= |files|)
      && (files == [] && !(SaveRequested(s) && writeFails) ==> code == 0)
      && (WorkerCount(s.options.workers, cpus) > 0 && !(SaveRequested(s) && writeFails) ==>
            code == |Corrupt(Replies(replies, |files|))|)
  {
    var s := Parse(args).settings;
    var files := CandidatesIn(ScanDirectory(s), listing(ScanDirectory(s)));
    assert files == [] ==> Replies(replies, |files|) == [];
  }
}
