# AppEncOpenCV: command-line parser and packet loop

This project models two parts of the `AppEncOpenCV` encoder sample:

- **`ParseCommandLine`** walks `argv` from index 1 and fills in the input and output
  paths, the `WxH` size, the input buffer format, the GPU ordinal and the CUDA
  stream type. Every option it does not know is collected, together with the
  plain words that follow it, into the text handed to `NvEncoderInitParam`.
  It ends in one of three ways:
  - with the options filled in;
  - with the help screen (`-h`);
  - with the `std::invalid_argument` that `ShowHelpAndExit` throws, which names
    the offending option.
- **The packet loop of `EncodeCuda`** submits `15*25` frames with `EncodeFrame`,
  then flushes with one `EndEncode`. It counts every packet those calls return
  and writes every packet to the output file in the order it arrived.

Layout:

- `wrappers.dfy`: `Option`.
- `c_lib.dfy` (module `CLib`): the C library calls the parser relies on, written
  out as functions:
  - `_stricmp` equality (`EqualsIgnoreCase`);
  - `atoi` (`Atoi`);
  - `sscanf(s, "%dx%d", ...) == 2` (`ScanDims`);
  - `std::find` (`FindIndex`);
  - a `%d` printer (`Decimal`), used to state round trips.
- `command_line.dfy` (module `CommandLine`):
  - The specification is `ParseFrom`/`StepAt`. Each `StepAt` consumes one unit of
    the argument list: `-h`, a flag with its value, a stray word, or an unknown
    option with its plain words.
  - The imperative parser `ParseCommandLine` is proved to return exactly
    `Parse(argv, incoming)`.
- `command_line_facts.dfy` (module `CommandLineFacts`): the properties of the
  parse, each stated against `ParseFrom`/`Parse`.
- `encode_cuda.dfy` (module `EncodeCudaLoop`):
  - The encoder is an `Encoder` object that answers call number `j` with a
    given batch of packets (`replies[j]`) and logs each call.
  - The output file is an `OutputFile` object whose bytes only grow.
  - `EncodeCuda` is the loop itself.

The parser's outcome for a failed parse is `BadOption(name)` and carries no
options. `main` catches the exception and returns 1 (lines 369-373), so what
the parser wrote before it threw is never read.

Where the help text and the code disagree, the model follows the code:

- `-outputInVidMem` is listed on the help screen (line 123), but the parser has no
  branch for it. It is therefore an unknown option: it and its value go to the
  encoder text (`OutputInVidMemPassedThrough`).
- The `-if` line of the help screen (line 121) does not list `yv12`, but the name
  table at line 184 accepts it (`Yv12Accepted`).

## Model

| member | source | states |
|---|---|---|
| CLib.EqualsIgnoreCase | AppEncOpenCV/AppEncOpenCV.cpp:152-222 | `_stricmp(a, b) == 0`; no contract of its own, characterised by `EqualsIgnoreCaseChars` (both directions) |
| CLib.EqualsIgnoreCaseChars | AppEncOpenCV/AppEncOpenCV.cpp:152 | `_stricmp(a, b) == 0` exactly when the two strings have the same length and agree character by character after lower-casing |
| CLib.EqualsIgnoreCaseTransitive | AppEncOpenCV/AppEncOpenCV.cpp:152 | case-insensitive equality is transitive, so a token that matches a spelling of a flag matches the flag |
| CLib.FindIndex | AppEncOpenCV/AppEncOpenCV.cpp:205-206 | `std::find` returns the index of the first equal element, and the end when there is none |
| CLib.ScanInt | AppEncOpenCV/AppEncOpenCV.cpp:176 | one `%d` conversion: when it matches, it reads at least one and at most all characters of the text; characterised further by `ScanIntDecimal` |
| CLib.Atoi | AppEncOpenCV/AppEncOpenCV.cpp:219-228 | `atoi`; no contract of its own, characterised by `AtoiDecimal` |
| CLib.ScanDims | AppEncOpenCV/AppEncOpenCV.cpp:176 | `sscanf(s, "%dx%d") == 2`; no contract of its own, characterised by `ScanDimsDecimal` and `ScanDimsNeedsSeparator` |
| CLib.ScanIntDecimal | AppEncOpenCV/AppEncOpenCV.cpp:176 | a `%d` conversion reads back any integer written in decimal, and stops right after its last digit |
| CLib.AtoiDecimal | AppEncOpenCV/AppEncOpenCV.cpp:219 | `atoi` of the decimal text of n is n |
| CLib.ScanDimsDecimal | AppEncOpenCV/AppEncOpenCV.cpp:176 | `sscanf(s, "%dx%d")` matches both numbers of any text `WxH` and returns exactly W and H |
| CLib.ScanDimsNeedsSeparator | AppEncOpenCV/AppEncOpenCV.cpp:176 | `sscanf(s, "%dx%d")` never matches two numbers in a text without an `x` |
| CommandLine.FlagOf | AppEncOpenCV/AppEncOpenCV.cpp:156-230 | a token is recognised as a flag only if it equals that flag's name ignoring case, and no flag is reported when the token matches none of the names |
| CommandLine.FormatByName | AppEncOpenCV/AppEncOpenCV.cpp:205-210 | the `-if` lookup accepts a value exactly when it is one of the table's names, compared with case; which format it selects is stated by `FormatLookup` |
| CommandLine.ApplyValue | AppEncOpenCV/AppEncOpenCV.cpp:158-229 | a flag's value is rejected exactly when it is a `-s` value that `"%dx%d"` does not match or an `-if` value not in the table; every other value is accepted, and no value touches the encoder text |
| CommandLine.FlagOfName | AppEncOpenCV/AppEncOpenCV.cpp:152-230 | any spelling of a flag's name in any case selects that flag and no other branch: it is neither `-h` nor a plain word |
| CommandLine.WordsEnd | AppEncOpenCV/AppEncOpenCV.cpp:238-241 | the run of words collected after an unknown option is the longest run of words that do not start with `-` |
| CommandLine.JoinedSnoc | AppEncOpenCV/AppEncOpenCV.cpp:237-240 | appending one more word to the collected text adds that word and one space at its end |
| CommandLine.JoinedSlice | AppEncOpenCV/AppEncOpenCV.cpp:237-240 | the text of a run of arguments one longer is the shorter run's text plus the new word and a space |
| CommandLine.StepAt | AppEncOpenCV/AppEncOpenCV.cpp:150-242 | every unit that does not end the parse consumes at least the argument at `i` and never runs past the end of `argv` |
| CommandLine.CollectEncoderWords | AppEncOpenCV/AppEncOpenCV.cpp:237-241 | the inner loop stops at the first word starting with `-` or at the end, and appends each consumed word followed by one space, in order |
| CommandLine.ParseFrom | AppEncOpenCV/AppEncOpenCV.cpp:150-242 | the loop from index `i` on, one unit per step; no contract of its own, characterised by the `CommandLineFacts` lemmas |
| CommandLine.Parse | AppEncOpenCV/AppEncOpenCV.cpp:148-243 | the whole parse, from index 1 with an empty encoder text; no contract of its own, characterised by the `CommandLineFacts` lemmas |
| CommandLine.ParseOption | AppEncOpenCV/AppEncOpenCV.cpp:152-241 | one trip through the loop body does exactly what one unit of the specification does: the same stop outcome, or the same next index and options |
| CommandLine.ParseCommandLine | AppEncOpenCV/AppEncOpenCV.cpp:144-244 | the loop returns exactly the outcome of the step-by-step specification `Parse(argv, incoming)` |
| CommandLineFacts.WordsEndAppend | AppEncOpenCV/AppEncOpenCV.cpp:238 | appending arguments that begin with an option does not lengthen a run of plain words |
| CommandLineFacts.StepAtAppend | AppEncOpenCV/AppEncOpenCV.cpp:150-242 | a unit that completes inside a prefix of `argv` is parsed the same when more options follow |
| CommandLineFacts.ParseFromAppend | AppEncOpenCV/AppEncOpenCV.cpp:150-242 | parsing `pre + more` (with `more` starting at an option) is parsing `pre`, then going on with `more` from the options `pre` produced |
| CommandLineFacts.FlagStep | AppEncOpenCV/AppEncOpenCV.cpp:156-230 | a flag as the last argument fails, naming the flag; otherwise its value is applied and the parse goes on two arguments later, or fails naming the flag when the value is rejected |
| CommandLineFacts.HelpFlag | AppEncOpenCV/AppEncOpenCV.cpp:152-155 | `-h` in any case ends the parse with the help screen |
| CommandLineFacts.InputFlag | AppEncOpenCV/AppEncOpenCV.cpp:156-164 | `-i` sets the input path to exactly the next argument, and fails with the name `-i` when there is none |
| CommandLineFacts.OutputFlag | AppEncOpenCV/AppEncOpenCV.cpp:165-173 | `-o` sets the output path to exactly the next argument, and fails with the name `-o` when there is none |
| CommandLineFacts.SizeFlag | AppEncOpenCV/AppEncOpenCV.cpp:174-181 | `-s WxH` sets the width to W and the height to H and touches nothing else |
| CommandLineFacts.SizeFlagRejects | AppEncOpenCV/AppEncOpenCV.cpp:174-181 | `-s` with no value, or with a value without an `x`, fails with the name `-s` |
| CommandLineFacts.FormatNamesDistinct | AppEncOpenCV/AppEncOpenCV.cpp:182-185 | no two names in the format table are equal, so a name selects one entry |
| CommandLineFacts.FormatLookup | AppEncOpenCV/AppEncOpenCV.cpp:182-210 | the name at index k of the table selects the format at index k of the parallel table |
| CommandLineFacts.InputFormatFlag | AppEncOpenCV/AppEncOpenCV.cpp:200-212 | `-if` followed by the k-th name sets the format to the k-th format |
| CommandLineFacts.InputFormatFlagRejects | AppEncOpenCV/AppEncOpenCV.cpp:200-209 | `-if` with no value, or with a value that is not exactly a table name, fails with the name `-if` |
| CommandLineFacts.Yv12Accepted | AppEncOpenCV/AppEncOpenCV.cpp:184-210 | `-if yv12` selects YV12 |
| CommandLineFacts.InputFormatCaseMatters | AppEncOpenCV/AppEncOpenCV.cpp:205-209 | format names are compared with case: `-if NV12` fails although `nv12` is in the table |
| CommandLineFacts.GpuFlag | AppEncOpenCV/AppEncOpenCV.cpp:213-221 | `-gpu` stores `atoi` of the next argument as the GPU ordinal, and fails with the name `-gpu` when there is none |
| CommandLineFacts.CuStreamTypeFlag | AppEncOpenCV/AppEncOpenCV.cpp:222-230 | `-cuStreamType` stores `atoi` of the next argument as the stream type, and fails with the name `-cuStreamType` when there is none |
| CommandLineFacts.StrayWord | AppEncOpenCV/AppEncOpenCV.cpp:232-236 | a word that does not start with `-` where an option is expected fails, naming that word |
| CommandLineFacts.WordsEndAt | AppEncOpenCV/AppEncOpenCV.cpp:238 | a run of plain words followed by an option (or by the end) is consumed exactly up to that option |
| CommandLineFacts.PassThrough | AppEncOpenCV/AppEncOpenCV.cpp:232-241 | an unknown dash option followed by plain words appends the option and each word, each followed by one space, and the parse goes on at the next option |
| CommandLineFacts.OutputInVidMemUnknown | AppEncOpenCV/AppEncOpenCV.cpp:152-230 | `-outputInVidMem` matches none of the parser's flags and is not `-h` |
| CommandLineFacts.OutputInVidMemPassedThrough | AppEncOpenCV/AppEncOpenCV.cpp:232-243 | `prog -outputInVidMem 1` parses to the incoming options with encoder text `-outputInVidMem 1 ` |
| CommandLineFacts.FlagCaseIrrelevant | AppEncOpenCV/AppEncOpenCV.cpp:152-230 | replacing a flag or `-h` by any other spelling in a different case does not change what the parser does at it |
| CommandLineFacts.EachArgumentOnce | AppEncOpenCV/AppEncOpenCV.cpp:150-241 | on a successful parse, the units consumed are non-empty and, laid end to end, are exactly the arguments from index 1 on: each is consumed once, in order |
| CommandLineFacts.ApplyValueFrame | AppEncOpenCV/AppEncOpenCV.cpp:156-230 | a flag's value changes only that flag's field, never another flag's field nor the encoder text |
| CommandLineFacts.UntouchedField | AppEncOpenCV/AppEncOpenCV.cpp:150-242 | a field whose flag does not occur from index `i` on leaves the parse with the value it had at `i` |
| CommandLineFacts.EncoderTextGrows | AppEncOpenCV/AppEncOpenCV.cpp:237-243 | the encoder text collected so far stays at the front of the final encoder text |
| CommandLineFacts.AbsentFlagKeepsIncoming | AppEncOpenCV/AppEncOpenCV.cpp:144-242 | a field whose flag is not on the command line keeps the value the caller passed in |
| CommandLineFacts.LastOccurrenceFrom | AppEncOpenCV/AppEncOpenCV.cpp:150-242 | a flag that does not occur again after index `i` keeps, in the final options, the field value it set at `i` |
| CommandLineFacts.LastOccurrenceWins | AppEncOpenCV/AppEncOpenCV.cpp:150-242 | when a flag occurs several times, in any spellings, the field ends with the value of its last occurrence |
| CommandLineFacts.DefaultFormatIsIyuv | AppEncOpenCV/AppEncOpenCV.cpp:200-212 | with the defaults `main` passes in (lines 311-319), a command line without `-if` in any case leaves the input format at IYUV |
| EncodeCudaLoop.ConcatAppend | AppEncOpenCV/AppEncOpenCV.cpp:295-299 | writing two runs of packets one after the other writes the bytes of the joined run |
| EncodeCudaLoop.CallLogShape | AppEncOpenCV/AppEncOpenCV.cpp:270-293 | the `last_frame + 1` trips make `EncodeFrame` calls for trips 0 to `last_frame - 1` and one `EndEncode`, last |
| EncodeCudaLoop.BytesArePackets | AppEncOpenCV/AppEncOpenCV.cpp:294-299 | writing batch after batch writes the same bytes as writing every returned packet in order |
| EncodeCudaLoop.PacketsPrefix | AppEncOpenCV/AppEncOpenCV.cpp:270-299 | the first n calls hand over exactly the first n batches of the encoder's output, in order |
| EncodeCudaLoop.PacketsReceiveAll | AppEncOpenCV/AppEncOpenCV.cpp:270-299 | once there have been at least as many calls as the encoder has batches, every packet it produced has been received, in order |
| EncodeCudaLoop.Encoder.EncodeFrame | AppEncOpenCV/AppEncOpenCV.cpp:288 | submitting a frame returns the next batch of packets and logs one `EncodeFrame` call |
| EncodeCudaLoop.Encoder.EndEncode | AppEncOpenCV/AppEncOpenCV.cpp:292 | flushing returns the next batch of packets and logs one `EndEncode` call |
| EncodeCudaLoop.OutputFile.Write | AppEncOpenCV/AppEncOpenCV.cpp:298 | a write appends its bytes to the file |
| EncodeCudaLoop.WritePackets | AppEncOpenCV/AppEncOpenCV.cpp:295-299 | the inner loop appends the packets of a batch to the file, one after another, in order |
| EncodeCudaLoop.EncodeTrip | AppEncOpenCV/AppEncOpenCV.cpp:273-299 | trip i makes the call the loop makes at i, counts the packets it returns, and appends their bytes to the file |
| EncodeCudaLoop.EncodeCuda | AppEncOpenCV/AppEncOpenCV.cpp:267-300 | the loop makes 375 `EncodeFrame` calls and then exactly one `EndEncode`; `nFrame` is the number of packets returned; the file receives every packet, concatenated in the order returned |

## Left out

- The help screen, `ShowEncoderCapability` and `exit(0)` (lines 108-142) are left out. `-h` is modelled as the outcome `Help`.
- The text of the exception is left out. A failure is the outcome `BadOption(name)`, carrying the name `ShowHelpAndExit` is given.
- How `NvEncoderInitParam` interprets the encoder text (line 243) is left out. The model stops at the text it is built from.
- `main` (lines 308-375) is left out: OpenCV image loading, the CUDA context, file opening and the exception handler. The defaults `main` passes in are given as `CommandLine.MainDefaults` (lines 311-319); `DefaultFormatIsIyuv` states what they mean for the format.
- `main` overwrites the width and height parsed from `-s` with the image's size (lines 327-328). The model states what the parser itself produces.
- `InitializeEncoder` and the SDK calls inside the loop are left out: encoder creation, `GetNextInputFrame`, `CopyToDeviceFrame`, `DestroyEncoder`. The encoder is seen only through the packets it returns.
- The print of the frame total (line 304) is left out.
- The `Encoder` object answers each call with a given batch of packets, and with no packets once the given batches run out. Frame contents play no part.
- `CLib.Atoi`, `CLib.ScanDims`: integers are unbounded. The undefined behaviour of `atoi`/`sscanf` on numbers that overflow `int` is not modelled.
- `EncodeCudaLoop.EncodeCuda`: `nFrame` is unbounded. A 32-bit `int` overflow past 2^31 - 1 packets is not modelled.
- `CommandLine.Options` holds the paths as unbounded strings. The 256-byte destination buffers of the two `sprintf` calls (lines 162, 171), and their overflow, are not modelled.
- `CLib.Lower`: case folding is that of the C locale, over ASCII letters only.
- `CommandLine.ParseOption`, `CommandLine.CollectEncoderWords`, `EncodeCudaLoop.EncodeTrip`, `EncodeCudaLoop.WritePackets`: loop bodies of the source are factored into methods of their own. Each is called exactly where its loop body runs.
- `CommandLineFacts.FlagCaseIrrelevant` is stated for one step of the parser, at the position of the re-spelt flag. It is not stated for the whole parse.
