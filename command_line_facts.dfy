/**
 * What `ParseCommandLine` promises, proved about the specification
 * `CommandLine.Parse`: what each flag does with the argument after it, how
 * errors are reported, where the encoder text comes from, and how the
 * argument list is consumed as a whole.
 */
module CommandLineFacts {
  import opened Wrappers
  import opened CLib
  import opened CommandLine

  // ---------------------------------------------------------------------
  // Appending arguments that start with an option.
  // ---------------------------------------------------------------------

  lemma {:induction false} WordsEndAppend(pre: seq<string>, more: seq<string>, j: nat)
    requires j <= |pre|
    requires more == [] || StartsWithDash(more[0])
    ensures WordsEnd(pre + more, j) == WordsEnd(pre, j)
    decreases |pre| - j
  {
    if j < |pre| {
      assert (pre + more)[j] == pre[j];
      WordsEndAppend(pre, more, j + 1);
    } else if more != [] {
      assert (pre + more)[j] == more[0];
    }
  }

  lemma StepAtAppend(pre: seq<string>, more: seq<string>, i: nat, st: Options)
    requires i < |pre|
    requires more == [] || StartsWithDash(more[0])
    requires StepAt(pre, i, st).Next?
    ensures StepAt(pre + more, i, st) == StepAt(pre, i, st)
  {
    assert (pre + more)[i] == pre[i];
    if i + 1 < |pre| {
      assert (pre + more)[i + 1] == pre[i + 1];
    }
    WordsEndAppend(pre, more, i + 1);
    var e := WordsEnd(pre, i + 1);
    assert (pre + more)[i..e] == pre[i..e];
  }

  /**
   * Arguments that parse without error, followed by arguments that start
   * with an option: the second part is parsed from the options the first
   * part produced.
   */
  lemma {:induction false} ParseFromAppend(pre: seq<string>, more: seq<string>, i: nat, st: Options)
    requires i <= |pre|
    requires more == [] || StartsWithDash(more[0])
    requires ParseFrom(pre, i, st).Parsed?
    ensures ParseFrom(pre + more, i, st) == ParseFrom(pre + more, |pre|, ParseFrom(pre, i, st).options)
    decreases |pre| - i
  {
    if i < |pre| {
      StepAtAppend(pre, more, i, st);
      var s := StepAt(pre, i, st);
      ParseFromAppend(pre, more, s.next, s.st);
    }
  }

  // ---------------------------------------------------------------------
  // One option at a time.
  // ---------------------------------------------------------------------

  /**
   * A flag that takes a value, written in any case: with no argument after
   * it the parse fails naming the flag; otherwise the argument after it is
   * its value, and parsing goes on after that value.
   */
  lemma FlagStep(argv: seq<string>, i: nat, st: Options, f: Flag)
    requires i < |argv| && EqualsIgnoreCase(argv[i], FlagName(f))
    ensures i + 1 == |argv| ==> ParseFrom(argv, i, st) == BadOption(FlagName(f))
    ensures i + 1 < |argv| ==>
      ParseFrom(argv, i, st) ==
        match ApplyValue(f, argv[i + 1], st)
        case Some(st') => ParseFrom(argv, i + 2, st')
        case None => BadOption(FlagName(f))
  {
    FlagOfName(argv[i], f);
  }

  /** `-h` in any case ends the parse with the help screen. */
  lemma HelpFlag(argv: seq<string>, i: nat, st: Options)
    requires i < |argv| && EqualsIgnoreCase(argv[i], "-h")
    ensures ParseFrom(argv, i, st) == Help
  {
  }

  /** `-i`: the next argument, exactly as written, is the input path. */
  lemma InputFlag(argv: seq<string>, i: nat, st: Options)
    requires i < |argv| && EqualsIgnoreCase(argv[i], "-i")
    ensures ParseFrom(argv, i, st) ==
      if i + 1 == |argv| then BadOption("-i")
      else ParseFrom(argv, i + 2, st.(inputPath := argv[i + 1]))
  {
    FlagStep(argv, i, st, Input);
  }

  /** `-o`: the next argument, exactly as written, is the output path. */
  lemma OutputFlag(argv: seq<string>, i: nat, st: Options)
    requires i < |argv| && EqualsIgnoreCase(argv[i], "-o")
    ensures ParseFrom(argv, i, st) ==
      if i + 1 == |argv| then BadOption("-o")
      else ParseFrom(argv, i + 2, st.(outputPath := argv[i + 1]))
  {
    FlagStep(argv, i, st, Output);
  }

  /** `-s WxH` with decimal numbers sets the width and the height. */
  lemma SizeFlag(argv: seq<string>, i: nat, st: Options, w: int, h: int)
    requires i + 1 < |argv| && EqualsIgnoreCase(argv[i], "-s")
    requires argv[i + 1] == Decimal(w) + "x" + Decimal(h)
    ensures ParseFrom(argv, i, st) == ParseFrom(argv, i + 2, st.(width := w, height := h))
  {
    FlagStep(argv, i, st, Size);
    ScanDimsDecimal(w, h);
  }

  /** `-s` fails, naming itself, when its value is missing or has no `x` in it. */
  lemma SizeFlagRejects(argv: seq<string>, i: nat, st: Options)
    requires i < |argv| && EqualsIgnoreCase(argv[i], "-s")
    requires i + 1 < |argv| ==> 'x' !in argv[i + 1]
    ensures ParseFrom(argv, i, st) == BadOption("-s")
  {
    FlagStep(argv, i, st, Size);
    if i + 1 < |argv| {
      ScanDimsNeedsSeparator(argv[i + 1]);
    }
  }

  /** No two entries of the name table are equal. */
  lemma FormatNamesDistinct()
    ensures forall j, k :: 0 <= j < k < |FormatNames| ==> FormatNames[j] != FormatNames[k]
  {
  }

  /** The name at index k of the table selects the format at index k. */
  lemma FormatLookup(k: nat)
    requires k < |FormatNames|
    ensures FormatByName(FormatNames[k]) == Some(Formats[k])
  {
    FormatNamesDistinct();
  }

  /** `-if` followed by the k-th name of the table selects the k-th format. */
  lemma InputFormatFlag(argv: seq<string>, i: nat, st: Options, k: nat)
    requires i + 1 < |argv| && EqualsIgnoreCase(argv[i], "-if")
    requires k < |FormatNames| && argv[i + 1] == FormatNames[k]
    ensures ParseFrom(argv, i, st) == ParseFrom(argv, i + 2, st.(format := Formats[k]))
  {
    FlagStep(argv, i, st, InputFormat);
    FormatLookup(k);
  }

  /** `-if` fails, naming itself, when its value is missing or is not exactly a name of the table. */
  lemma InputFormatFlagRejects(argv: seq<string>, i: nat, st: Options)
    requires i < |argv| && EqualsIgnoreCase(argv[i], "-if")
    requires i + 1 < |argv| ==> argv[i + 1] !in FormatNames
    ensures ParseFrom(argv, i, st) == BadOption("-if")
  {
    FlagStep(argv, i, st, InputFormat);
  }

  /** `yv12` is accepted although the help screen does not list it. */
  lemma Yv12Accepted(argv: seq<string>, i: nat, st: Options)
    requires i + 1 < |argv| && EqualsIgnoreCase(argv[i], "-if") && argv[i + 1] == "yv12"
    ensures ParseFrom(argv, i, st) == ParseFrom(argv, i + 2, st.(format := Yv12))
  {
    InputFormatFlag(argv, i, st, 2);
  }

  /** Format names are compared with case: `NV12` is not `nv12`. */
  lemma InputFormatCaseMatters(argv: seq<string>, i: nat, st: Options)
    requires i + 1 < |argv| && EqualsIgnoreCase(argv[i], "-if") && argv[i + 1] == "NV12"
    ensures ParseFrom(argv, i, st) == BadOption("-if")
  {
    assert "NV12" !in FormatNames by {
      forall k | 0 <= k < |FormatNames|
        ensures FormatNames[k] != "NV12"
      {
        if k == 1 {
          assert FormatNames[k][1] == 'v';
        }
      }
    }
    InputFormatFlagRejects(argv, i, st);
  }

  /** `-gpu`: the `atoi` value of the next argument is the GPU ordinal. */
  lemma GpuFlag(argv: seq<string>, i: nat, st: Options)
    requires i < |argv| && EqualsIgnoreCase(argv[i], "-gpu")
    ensures ParseFrom(argv, i, st) ==
      if i + 1 == |argv| then BadOption("-gpu")
      else ParseFrom(argv, i + 2, st.(gpu := Atoi(argv[i + 1])))
  {
    FlagStep(argv, i, st, Gpu);
  }

  /** `-cuStreamType`: the `atoi` value of the next argument is the stream type. */
  lemma CuStreamTypeFlag(argv: seq<string>, i: nat, st: Options)
    requires i < |argv| && EqualsIgnoreCase(argv[i], "-cuStreamType")
    ensures ParseFrom(argv, i, st) ==
      if i + 1 == |argv| then BadOption("-cuStreamType")
      else ParseFrom(argv, i + 2, st.(cuStreamType := Atoi(argv[i + 1])))
  {
    FlagStep(argv, i, st, CuStreamType);
  }

  /** A word that does not start with `-` where an option is expected fails, naming that word. */
  lemma StrayWord(argv: seq<string>, i: nat, st: Options)
    requires i < |argv| && !StartsWithDash(argv[i])
    ensures ParseFrom(argv, i, st) == BadOption(argv[i])
  {
    var t := argv[i];
    EqualsIgnoreCaseChars(t, "-h");
    if FlagOf(t).Some? {
      FlagOfName(t, FlagOf(t).value);
    }
  }

  /** The run of plain words after an option ends where the first option after it starts. */
  lemma WordsEndAt(argv: seq<string>, j: nat, words: seq<string>)
    requires j + |words| <= |argv| && argv[j..j + |words|] == words
    requires forall w :: w in words ==> !StartsWithDash(w)
    requires j + |words| < |argv| ==> StartsWithDash(argv[j + |words|])
    ensures WordsEnd(argv, j) == j + |words|
  {
    forall k | j <= k < j + |words|
      ensures !StartsWithDash(argv[k])
    {
      assert argv[k] == words[k - j];
    }
  }

  /**
   * An unknown option: it and the plain words right after it are appended
   * to the encoder text, each followed by one space, and parsing goes on at
   * the next option.
   */
  lemma PassThrough(argv: seq<string>, i: nat, st: Options, words: seq<string>)
    requires i < |argv| && StartsWithDash(argv[i])
    requires FlagOf(argv[i]).None? && !EqualsIgnoreCase(argv[i], "-h")
    requires i + 1 + |words| <= |argv| && argv[i + 1..i + 1 + |words|] == words
    requires forall w :: w in words ==> !StartsWithDash(w)
    requires i + 1 + |words| < |argv| ==> StartsWithDash(argv[i + 1 + |words|])
    ensures ParseFrom(argv, i, st) ==
      ParseFrom(argv, i + 1 + |words|, st.(encoderArgs := st.encoderArgs + argv[i] + " " + Joined(words)))
  {
    var e := i + 1 + |words|;
    WordsEndAt(argv, i + 1, words);
    assert StepAt(argv, i, st) == Next(e, st.(encoderArgs := st.encoderArgs + Joined(argv[i..e])));
    assert argv[i..e] == [argv[i]] + words;
    assert ([argv[i]] + words)[1..] == words;
    var text := Joined(argv[i..e]);
    assert text == argv[i] + " " + Joined(words);
    assert st.encoderArgs + text == st.encoderArgs + argv[i] + " " + Joined(words);
  }

  /** `-outputInVidMem` is listed on the help screen but is not one of the parser's flags. */
  lemma OutputInVidMemUnknown()
    ensures FlagOf("-outputInVidMem").None? && !EqualsIgnoreCase("-outputInVidMem", "-h")
  {
    var t := "-outputInVidMem";
    EqualsIgnoreCaseChars(t, "-h");
    forall f: Flag
      ensures !EqualsIgnoreCase(t, FlagName(f))
    {
      EqualsIgnoreCaseChars(t, FlagName(f));
      if f == CuStreamType {
        assert Lower(t[1]) != Lower(FlagName(f)[1]);
      }
    }
  }

  /** So `-outputInVidMem` and its value go to the encoder text. */
  lemma OutputInVidMemPassedThrough(prog: string, incoming: Options)
    ensures Parse([prog, "-outputInVidMem", "1"], incoming) ==
      Parsed(incoming.(encoderArgs := "-outputInVidMem 1 "))
  {
    var argv := [prog, "-outputInVidMem", "1"];
    OutputInVidMemUnknown();
    PassThrough(argv, 1, incoming.(encoderArgs := ""), ["1"]);
    assert Joined(["1"]) == "1 ";
  }

  /**
   * Flag names are compared without regard to case: a flag (or `-h`) written
   * in another case is handled exactly as the flag itself.
   */
  lemma FlagCaseIrrelevant(argv: seq<string>, i: nat, st: Options, t: string)
    requires i < |argv| && EqualsIgnoreCase(t, argv[i])
    requires FlagOf(argv[i]).Some? || EqualsIgnoreCase(argv[i], "-h")
    ensures StepAt(argv[i := t], i, st) == StepAt(argv, i, st)
  {
    var argv' := argv[i := t];
    EqualsIgnoreCaseTransitive(t, argv[i], "-h");
    if !EqualsIgnoreCase(argv[i], "-h") {
      var f := FlagOf(argv[i]).value;
      EqualsIgnoreCaseTransitive(t, argv[i], FlagName(f));
      FlagOfName(t, f);
      if i + 1 < |argv| {
        assert argv'[i + 1] == argv[i + 1];
      }
    }
  }

  // ---------------------------------------------------------------------
  // The argument list as a whole.
  // ---------------------------------------------------------------------

  /** The units the parser consumes from index `i` on: a flag and its value, or an option and its words. */
  function Units(argv: seq<string>, i: nat, st: Options): seq<seq<string>>
    decreases |argv| - i
  {
    if i >= |argv| then []
    else
      var s := StepAt(argv, i, st);
      if s.Stop? then [] else [argv[i..s.next]] + Units(argv, s.next, s.st)
  }

  function Flatten(us: seq<seq<string>>): seq<string> {
    if us == [] then [] else us[0] + Flatten(us[1..])
  }

  /**
   * When the parse succeeds, every argument from index `i` on belongs to
   * exactly one unit: the units, laid end to end, are the arguments.
   */
  lemma {:induction false} EachArgumentOnce(argv: seq<string>, i: nat, st: Options)
    requires i <= |argv|
    requires ParseFrom(argv, i, st).Parsed?
    ensures Flatten(Units(argv, i, st)) == argv[i..]
    ensures forall u :: u in Units(argv, i, st) ==> u != []
    decreases |argv| - i
  {
    if i < |argv| {
      var s := StepAt(argv, i, st);
      EachArgumentOnce(argv, s.next, s.st);
      var us := Units(argv, i, st);
      assert us == [argv[i..s.next]] + Units(argv, s.next, s.st);
      assert us[1..] == Units(argv, s.next, s.st);
      assert argv[i..] == argv[i..s.next] + argv[s.next..];
    }
  }

  /** The part of the options a flag sets. */
  predicate SameField(f: Flag, a: Options, b: Options) {
    match f
    case Input => a.inputPath == b.inputPath
    case Output => a.outputPath == b.outputPath
    case Size => a.width == b.width && a.height == b.height
    case InputFormat => a.format == b.format
    case Gpu => a.gpu == b.gpu
    case CuStreamType => a.cuStreamType == b.cuStreamType
  }

  /** A flag's value ends up only in that flag's field. */
  lemma ApplyValueFrame(g: Flag, v: string, st: Options, f: Flag)
    requires ApplyValue(g, v, st).Some? && f != g
    ensures SameField(f, ApplyValue(g, v, st).value, st)
    ensures ApplyValue(g, v, st).value.encoderArgs == st.encoderArgs
  {
  }

  /**
   * A field whose flag appears nowhere from index `i` on (in any case)
   * keeps the value it had at `i`.
   */
  lemma {:induction false} UntouchedField(argv: seq<string>, i: nat, st: Options, f: Flag)
    requires forall k :: i <= k < |argv| ==> !EqualsIgnoreCase(argv[k], FlagName(f))
    ensures ParseFrom(argv, i, st).Parsed? ==> SameField(f, ParseFrom(argv, i, st).options, st)
    decreases |argv| - i
  {
    if i < |argv| {
      var s := StepAt(argv, i, st);
      if s.Next? {
        UntouchedField(argv, s.next, s.st, f);
        match FlagOf(argv[i])
        case Some(g) =>
          ApplyValueFrame(g, argv[i + 1], st, f);
        case None =>
      }
    }
  }

  /** The encoder text only grows: what was collected before index `i` stays at its front. */
  lemma {:induction false} EncoderTextGrows(argv: seq<string>, i: nat, st: Options)
    ensures ParseFrom(argv, i, st).Parsed? ==> st.encoderArgs <= ParseFrom(argv, i, st).options.encoderArgs
    decreases |argv| - i
  {
    if i < |argv| {
      var s := StepAt(argv, i, st);
      if s.Next? {
        EncoderTextGrows(argv, s.next, s.st);
        match FlagOf(argv[i])
        case Some(g) =>
          ApplyValueFrame(g, argv[i + 1], st, if g == Input then Output else Input);
        case None =>
      }
    }
  }

  /** A field whose flag is not on the command line keeps the value the caller gave it. */
  lemma AbsentFlagKeepsIncoming(argv: seq<string>, incoming: Options, f: Flag)
    requires forall k :: 1 <= k < |argv| ==> !EqualsIgnoreCase(argv[k], FlagName(f))
    ensures Parse(argv, incoming).Parsed? ==> SameField(f, Parse(argv, incoming).options, incoming)
  {
    UntouchedField(argv, 1, incoming.(encoderArgs := ""), f);
  }

  /**
   * A flag with a valid value, and no mention of that flag after it: the
   * field of the flag ends up with what this value gives it.
   */
  lemma LastOccurrenceFrom(argv: seq<string>, i: nat, st: Options, f: Flag)
    requires i + 1 < |argv| && EqualsIgnoreCase(argv[i], FlagName(f))
    requires ApplyValue(f, argv[i + 1], st).Some?
    requires forall k :: i + 2 <= k < |argv| ==> !EqualsIgnoreCase(argv[k], FlagName(f))
    ensures ParseFrom(argv, i, st).Parsed? ==>
      SameField(f, ParseFrom(argv, i, st).options, ApplyValue(f, argv[i + 1], st).value)
  {
    FlagStep(argv, i, st, f);
    UntouchedField(argv, i + 2, ApplyValue(f, argv[i + 1], st).value, f);
  }

  /**
   * A repeated flag: the last occurrence decides. After `a` (which parses),
   * `t v`, where `t` spells the flag `f` in any case, and then arguments that
   * do not mention `f` again, the field of `f` holds what `v` gives it,
   * whatever `a` set it to.
   */
  lemma LastOccurrenceWins(prog: string, a: seq<string>, t: string, f: Flag, v: string, b: seq<string>, incoming: Options)
    requires EqualsIgnoreCase(t, FlagName(f))
    requires Parse([prog] + a, incoming).Parsed?
    requires ApplyValue(f, v, Parse([prog] + a, incoming).options).Some?
    requires forall k :: 0 <= k < |b| ==> !EqualsIgnoreCase(b[k], FlagName(f))
    ensures var r := Parse([prog] + a + [t, v] + b, incoming);
      r.Parsed? ==> SameField(f, r.options, ApplyValue(f, v, Parse([prog] + a, incoming).options).value)
  {
    var pre := [prog] + a;
    var o := Parse(pre, incoming).options;
    var argv := pre + ([t, v] + b);
    assert [prog] + a + [t, v] + b == argv;
    FlagOfName(t, f);
    ParseFromAppend(pre, [t, v] + b, 1, incoming.(encoderArgs := ""));
    var n := |pre|;
    assert argv[n] == t && argv[n + 1] == v;
    forall k | n + 2 <= k < |argv|
      ensures !EqualsIgnoreCase(argv[k], FlagName(f))
    {
      assert argv[k] == b[k - n - 2];
    }
    LastOccurrenceFrom(argv, n, o, f);
  }

  /**
   * With the defaults `main` passes in, a command line without `-if` (in any
   * case) leaves the input format at IYUV.
   */
  lemma DefaultFormatIsIyuv(argv: seq<string>)
    requires forall k :: 1 <= k < |argv| ==> !EqualsIgnoreCase(argv[k], "-if")
    ensures Parse(argv, MainDefaults).Parsed? ==> Parse(argv, MainDefaults).options.format == Iyuv
  {
    AbsentFlagKeepsIncoming(argv, MainDefaults, InputFormat);
  }
}
