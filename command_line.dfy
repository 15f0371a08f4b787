/**
 * The command-line parser of the encoder sample (`ParseCommandLine`).
 *
 * `argv[0]` is the program name and is skipped. Each step consumes one unit
 * of the argument list: `-h`; a known flag together with its value; a stray
 * word; or an unknown dash option together with the plain words after it,
 * which are collected for the encoder's own option parser.
 */
module CommandLine {
  import opened Wrappers
  import opened CLib

  /** The NV_ENC_BUFFER_FORMAT values the parser can select. */
  datatype BufferFormat =
    | Iyuv | Nv12 | Yv12 | Yuv444 | Yuv420_10Bit | Yuv444_10Bit
    | Argb | Argb10 | Ayuv | Abgr | Abgr10

  /** The two parallel tables of `-if`: a name at index k selects the format at index k. */
  const FormatNames: seq<string> :=
    ["iyuv", "nv12", "yv12", "yuv444", "p010", "yuv444p16", "bgra", "bgra10", "ayuv", "abgr", "abgr10"]
  const Formats: seq<BufferFormat> :=
    [Iyuv, Nv12, Yv12, Yuv444, Yuv420_10Bit, Yuv444_10Bit, Argb, Argb10, Ayuv, Abgr, Abgr10]

  /** Everything the parser writes back to its caller. */
  datatype Options = Options(
    inputPath: string,
    outputPath: string,
    width: int,
    height: int,
    format: BufferFormat,
    gpu: int,
    cuStreamType: int,
    encoderArgs: string)   // the text handed to NvEncoderInitParam

  /**
   * How parsing ends: with the options, with the help screen (`-h`), or with
   * the exception `ShowHelpAndExit` throws, which names the offending option.
   */
  datatype Outcome = Parsed(options: Options) | Help | BadOption(option: string)

  /** The values `main` gives the options before parsing. */
  const MainDefaults := Options("", "", 0, 0, Iyuv, 0, -1, "")

  /** The flags that take a value. */
  datatype Flag = Input | Output | Size | InputFormat | Gpu | CuStreamType

  function FlagName(f: Flag): string {
    match f
    case Input => "-i"
    case Output => "-o"
    case Size => "-s"
    case InputFormat => "-if"
    case Gpu => "-gpu"
    case CuStreamType => "-cuStreamType"
  }

  predicate StartsWithDash(t: string) {
    |t| > 0 && t[0] == '-'
  }

  /** Which flag, if any, a token names; the comparison ignores case. */
  function FlagOf(t: string): (r: Option<Flag>)
    ensures r.Some? ==> EqualsIgnoreCase(t, FlagName(r.value))
    ensures r.None? ==> forall f: Flag :: !EqualsIgnoreCase(t, FlagName(f))
  {
    if EqualsIgnoreCase(t, "-i") then Some(Input)
    else if EqualsIgnoreCase(t, "-o") then Some(Output)
    else if EqualsIgnoreCase(t, "-s") then Some(Size)
    else if EqualsIgnoreCase(t, "-if") then Some(InputFormat)
    else if EqualsIgnoreCase(t, "-gpu") then Some(Gpu)
    else if EqualsIgnoreCase(t, "-cuStreamType") then Some(CuStreamType)
    else None
  }

  /** `-if`: the name must be in the table exactly as written (case matters). */
  function FormatByName(name: string): (r: Option<BufferFormat>)
    ensures r.Some? <==> name in FormatNames
  {
    var k := FindIndex(FormatNames, name);
    if k < |FormatNames| then Some(Formats[k]) else None
  }

  /** The effect of a flag's value on the options; None when the value is rejected. */
  function ApplyValue(f: Flag, v: string, st: Options): (r: Option<Options>)
    ensures r.None? <==> (f == Size && ScanDims(v).None?) || (f == InputFormat && v !in FormatNames)
    ensures r.Some? ==> r.value.encoderArgs == st.encoderArgs
  {
    match f
    case Input => Some(st.(inputPath := v))
    case Output => Some(st.(outputPath := v))
    case Size =>
      (match ScanDims(v)
       case Some((w, h)) => Some(st.(width := w, height := h))
       case None => None)
    case InputFormat =>
      (match FormatByName(v)
       case Some(fmt) => Some(st.(format := fmt))
       case None => None)
    case Gpu => Some(st.(gpu := Atoi(v)))
    case CuStreamType => Some(st.(cuStreamType := Atoi(v)))
  }

  /** Where the run of plain (non-dash) words starting at `j` ends. */
  function WordsEnd(argv: seq<string>, j: nat): (e: nat)
    requires j <= |argv|
    ensures j <= e <= |argv|
    ensures forall k :: j <= k < e ==> !StartsWithDash(argv[k])
    ensures e == |argv| || StartsWithDash(argv[e])
    decreases |argv| - j
  {
    if j < |argv| && !StartsWithDash(argv[j]) then WordsEnd(argv, j + 1) else j
  }

  /** The tokens, each followed by one space, in order. */
  function Joined(ts: seq<string>): string {
    if ts == [] then "" else ts[0] + " " + Joined(ts[1..])
  }

  lemma {:induction false} JoinedSnoc(ts: seq<string>, t: string)
    ensures Joined(ts + [t]) == Joined(ts) + t + " "
  {
    if ts != [] {
      assert (ts + [t])[1..] == ts[1..] + [t];
      JoinedSnoc(ts[1..], t);
    }
  }

  /** `JoinedSnoc` for a slice of the argument list that grows by one. */
  lemma JoinedSlice(argv: seq<string>, first: nat, i: nat)
    requires first <= i < |argv|
    ensures Joined(argv[first..i + 1]) == Joined(argv[first..i]) + argv[i] + " "
  {
    assert argv[first..i + 1] == argv[first..i] + [argv[i]];
    JoinedSnoc(argv[first..i], argv[i]);
  }

  datatype Step = Next(next: nat, st: Options) | Stop(outcome: Outcome)

  /** What the parser does with the unit of arguments that starts at index `i`. */
  function StepAt(argv: seq<string>, i: nat, st: Options): (r: Step)
    requires i < |argv|
    ensures r.Next? ==> i < r.next <= |argv|
  {
    var t := argv[i];
    if EqualsIgnoreCase(t, "-h") then Stop(Help)
    else match FlagOf(t)
      case Some(f) =>
        if i + 1 == |argv| then Stop(BadOption(FlagName(f)))
        else
          (match ApplyValue(f, argv[i + 1], st)
           case Some(st') => Next(i + 2, st')
           case None => Stop(BadOption(FlagName(f))))
      case None =>
        if !StartsWithDash(t) then Stop(BadOption(t))
        else
          var e := WordsEnd(argv, i + 1);
          Next(e, st.(encoderArgs := st.encoderArgs + Joined(argv[i..e])))
  }

  /** Parsing from index `i` on, with options `st` so far (`st.encoderArgs` is the text collected so far). */
  function ParseFrom(argv: seq<string>, i: nat, st: Options): Outcome
    decreases |argv| - i
  {
    if i >= |argv| then Parsed(st)
    else
      var s := StepAt(argv, i, st);
      if s.Stop? then s.outcome else ParseFrom(argv, s.next, s.st)
  }

  /**
   * The whole parse. Fields whose flag does not appear keep their incoming
   * values; the encoder text is built from scratch.
   */
  function Parse(argv: seq<string>, incoming: Options): Outcome {
    ParseFrom(argv, 1, incoming.(encoderArgs := ""))
  }

  /** A token that names a flag (in any case) is that flag, and neither `-h` nor a plain word. */
  lemma FlagOfName(t: string, f: Flag)
    requires EqualsIgnoreCase(t, FlagName(f))
    ensures FlagOf(t) == Some(f)
    ensures !EqualsIgnoreCase(t, "-h") && StartsWithDash(t)
  {
    EqualsIgnoreCaseChars(t, FlagName(f));
    EqualsIgnoreCaseChars(t, "-h");
    forall g: Flag
      ensures EqualsIgnoreCase(t, FlagName(g)) <==>
        |t| == |FlagName(g)| && forall k :: 0 <= k < |t| ==> Lower(t[k]) == Lower(FlagName(g)[k])
    {
      EqualsIgnoreCaseChars(t, FlagName(g));
    }
    assert Lower(t[0]) == '-' && Lower(t[1]) == Lower(FlagName(f)[1]);
    match f
    case Input =>
    case Output =>
    case Size =>
    case InputFormat =>
      assert Lower(t[2]) == 'f';
    case Gpu =>
      assert Lower(t[1]) == 'g';
    case CuStreamType =>
      assert Lower(t[1]) == 'c';
  }

  /**
   * The inner loop of `ParseCommandLine`: the unknown option at `first` and
   * every plain word right after it are appended to `oss`, each followed by
   * one space. Returns the index of the first argument not consumed.
   */
  method CollectEncoderWords(argv: seq<string>, first: nat, oss: string) returns (next: nat, oss': string)
    requires first < |argv|
    ensures next == WordsEnd(argv, first + 1)
    ensures oss' == oss + Joined(argv[first..next])
  {
    var i := first;
    JoinedSlice(argv, first, i);
    oss' := oss + argv[i] + " ";
    while i + 1 < |argv| && !StartsWithDash(argv[i + 1])
      invariant first <= i < |argv|
      invariant WordsEnd(argv, first + 1) == WordsEnd(argv, i + 1)
      invariant oss' == oss + Joined(argv[first..i + 1])
      decreases |argv| - i
    {
      i := i + 1;
      JoinedSlice(argv, first, i);
      oss' := oss' + argv[i] + " ";
    }
    next := i + 1;
  }

  /**
   * One trip through the body of the `for` loop of `ParseCommandLine`: look
   * at `argv[i]`, consume it (and its value, or the plain words after it)
   * and update the options and the encoder text. `next` is the index the
   * loop goes on with; `stop` is set when the parse ends here.
   */
  method ParseOption(argv: seq<string>, i: nat, opts: Options, oss: string)
    returns (next: nat, opts': Options, oss': string, stop: Option<Outcome>)
    requires i < |argv|
    ensures var s := StepAt(argv, i, opts.(encoderArgs := oss));
      if s.Stop? then stop == Some(s.outcome)
      else stop == None && next == s.next && opts'.(encoderArgs := oss') == s.st
  {
    next, opts', oss', stop := i + 1, opts, oss, None;
    if EqualsIgnoreCase(argv[i], "-h") {
      stop := Some(Help);
      return;
    }
    if EqualsIgnoreCase(argv[i], "-i") {
      if i + 1 == |argv| {
        stop := Some(BadOption("-i"));
        return;
      }
      opts' := opts.(inputPath := argv[i + 1]);
      next := i + 2;
      return;
    }
    if EqualsIgnoreCase(argv[i], "-o") {
      if i + 1 == |argv| {
        stop := Some(BadOption("-o"));
        return;
      }
      opts' := opts.(outputPath := argv[i + 1]);
      next := i + 2;
      return;
    }
    if EqualsIgnoreCase(argv[i], "-s") {
      if i + 1 == |argv| || ScanDims(argv[i + 1]).None? {
        stop := Some(BadOption("-s"));
        return;
      }
      var (w, h) := ScanDims(argv[i + 1]).value;
      opts' := opts.(width := w, height := h);
      next := i + 2;
      return;
    }
    if EqualsIgnoreCase(argv[i], "-if") {
      if i + 1 == |argv| {
        stop := Some(BadOption("-if"));
        return;
      }
      var k := FindIndex(FormatNames, argv[i + 1]);
      if k == |FormatNames| {
        stop := Some(BadOption("-if"));
        return;
      }
      opts' := opts.(format := Formats[k]);
      next := i + 2;
      return;
    }
    if EqualsIgnoreCase(argv[i], "-gpu") {
      if i + 1 == |argv| {
        stop := Some(BadOption("-gpu"));
        return;
      }
      opts' := opts.(gpu := Atoi(argv[i + 1]));
      next := i + 2;
      return;
    }
    if EqualsIgnoreCase(argv[i], "-cuStreamType") {
      if i + 1 == |argv| {
        stop := Some(BadOption("-cuStreamType"));
        return;
      }
      opts' := opts.(cuStreamType := Atoi(argv[i + 1]));
      next := i + 2;
      return;
    }
    // Anything else is an option for the encoder itself.
    if !StartsWithDash(argv[i]) {
      stop := Some(BadOption(argv[i]));
      return;
    }
    next, oss' := CollectEncoderWords(argv, i, oss);
  }

  /**
   * `ParseCommandLine`: walks `argv` from index 1; each option handled
   * advances the index past what it consumed.
   */
  method ParseCommandLine(argv: seq<string>, incoming: Options) returns (outcome: Outcome)
    ensures outcome == Parse(argv, incoming)
  {
    var opts := incoming;
    var oss := "";
    var i := 1;
    while i < |argv|
      invariant ParseFrom(argv, i, opts.(encoderArgs := oss)) == Parse(argv, incoming)
      decreases |argv| - i
    {
      var stop;
      i, opts, oss, stop := ParseOption(argv, i, opts, oss);
      if stop.Some? {
        return stop.value;
      }
    }
    outcome := Parsed(opts.(encoderArgs := oss));
  }
}
