/** The unit tests of `parseInput` (`test/unit/parser.test.js`), each stated
    as a theorem about `Parser.Parse`. A typed line is written as its words
    joined by single spaces, and a schema pattern is any pattern that accepts
    or rejects the words the test needs. Every failing test is stated for any
    record at the start, so the fields a failed run does not reach keep their
    old values. */
module Scenarios {
  import opened Config
  import opened Strings
  import opened Normalize
  import opened CommandStage
  import opened FlagStage
  import opened OptionStage
  import opened Parser
  import opened Words

  // Facts about literal words and schemas.

  /** A word of printable ASCII holds no whitespace. */
  lemma PrintableNoSpace(w: string)
    requires forall k :: 0 <= k < |w| ==> '!' <= w[k] <= '~'
    ensures NoSpace(w)
  {
  }

  /** The command schema of the command tests, with `first` as the name of
      the command whose second slot is `null`. */
  function TestCommands(first: string, any: Pattern, opt1: Pattern, opt2: Pattern): (r: CommandSchema)
    requires first == "help" || first == "testCommand"
    ensures LowerInjective(r.Keys)
  {
    LowerTestNames();
    LowerCommandsOfTwo(first, "firstWord", [Some(any), None], [Some(opt1), Some(opt2)]);
    map[first := [Some(any), None], "firstWord" := [Some(opt1), Some(opt2)]]
  }

  /** The same schema, normalized. */
  function NormalTestCommands(first: string, any: Pattern, opt1: Pattern, opt2: Pattern): CommandSchema
  {
    map[first := [Some(any), None], "firstword" := [Some(opt1), Some(opt2)]]
  }

  /** A two-key command schema whose keys differ after lower-casing. */
  lemma LowerCommandsOfTwo(a: string, b: string, sa: Slots, sb: Slots)
    requires Lower(a) != Lower(b)
    ensures LowerInjective(map[a := sa, b := sb].Keys)
    ensures LowerCommands(map[a := sa, b := sb]) == map[Lower(a) := sa, Lower(b) := sb]
  {
    var data := map[a := sa, b := sb];
    assert data.Keys == {a, b};
    var norm := LowerCommands(data);
    var want := map[Lower(a) := sa, Lower(b) := sb];
    assert norm.Keys == want.Keys;
  }

  lemma LowerTestNames()
    ensures Lower("firstWord") == "firstword"
    ensures Lower("help") == "help"
    ensures Lower("testCommand") == "testcommand"
  {
  }

  /** Both test command schemas have distinct lower-cased keys, and
      normalizing lower-cases the keys and keeps the slot lists. */
  lemma TestCommandsNormalized(first: string, any: Pattern, opt1: Pattern, opt2: Pattern)
    requires first == "help" || first == "testCommand"
    ensures LowerCommands(TestCommands(first, any, opt1, opt2)) == NormalTestCommands(Lower(first), any, opt1, opt2)
  {
    LowerTestNames();
    LowerCommandsOfTwo(first, "firstWord", [Some(any), None], [Some(opt1), Some(opt2)]);
  }

  /** The command words the tests type are words of the word-level reading. */
  lemma TypedCommands()
    ensures IsWord("help") && IsWord("FIrSTworD") && IsWord("firstWord")
    ensures IsWord("testCommand") && IsWord("invalidCommand")
  {
    PrintableNoSpace("help");
    PrintableNoSpace("FIrSTworD");
    PrintableNoSpace("firstWord");
    PrintableNoSpace("testCommand");
    PrintableNoSpace("invalidCommand");
  }

  /** So are the flag words. */
  lemma TypedFlags()
    ensures IsWord("-f") && IsWord("--target") && IsWord("-t") && IsWord("--flag-one")
  {
    PrintableNoSpace("-f");
    PrintableNoSpace("--target");
    PrintableNoSpace("-t");
    PrintableNoSpace("--flag-one");
  }

  /** And the option and argument words. */
  lemma TypedOptions()
    ensures IsWord("file") && IsWord("dir") && IsWord("../test/path") && IsWord("arg")
    ensures IsWord("opt1") && IsWord("opt2") && IsWord("opt3") && IsWord("invalidOpt") && IsWord("invalidArg")
  {
    PrintableNoSpace("file");
    PrintableNoSpace("dir");
    PrintableNoSpace("../test/path");
    PrintableNoSpace("arg");
    PrintableNoSpace("opt1");
    PrintableNoSpace("opt2");
    PrintableNoSpace("opt3");
    PrintableNoSpace("invalidOpt");
    PrintableNoSpace("invalidArg");
  }

  /** Lower-casing the words the tests type. */
  lemma LowerFlagNames()
    ensures Lower("-f") == "-f" && Lower("--target") == "--target"
    ensures Lower("-t") == "-t" && Lower("--flag-one") == "--flag-one"
  {
  }

  lemma LowerPlainWords()
    ensures Lower("file") == "file" && Lower("dir") == "dir" && Lower("../test/path") == "../test/path"
    ensures Lower("opt1") == "opt1" && Lower("opt2") == "opt2" && Lower("opt3") == "opt3" && Lower("arg") == "arg"
  {
  }

  lemma LowerMixedWords()
    ensures Lower("FIrSTworD") == "firstword" && Lower("invalidCommand") == "invalidcommand"
    ensures Lower("invalidOpt") == "invalidopt" && Lower("invalidArg") == "invalidarg"
  {
  }

  /** The word-level theorem, with the normalized schemas and the run's
      outcome named. */
  lemma ParseByRun(cmd: string, ws: seq<string>, start: InstructionState, commands: CommandSchema, flags: FlagSchema,
                   commandData: CommandSchema, flagData: FlagSchema, outcome: ParseOutcome)
    requires LowerInjective(commands.Keys) && LowerInjective(flags.Keys)
    requires IsWord(cmd) && AllWords(ws)
    requires LowerCommands(commands) == commandData && LowerFlags(flags) == flagData
    requires RunWords(cmd, ws, start, commandData, flagData) == outcome
    ensures Parse(JoinWords([cmd] + ws), start, commands, flags) == outcome
  {
    ParseOfWords(cmd, ws, start, commands, flags);
  }

  /** The same, for a run without a command schema. */
  lemma ParseFlagsByRun(cmd: string, ws: seq<string>, start: InstructionState, flags: FlagSchema,
                        flagData: FlagSchema, outcome: ParseOutcome)
    requires LowerInjective(flags.Keys)
    requires IsWord(cmd) && AllWords(ws)
    requires LowerFlags(flags) == flagData
    requires RunWords(cmd, ws, start, map[], flagData) == outcome
    ensures Parse(JoinWords([cmd] + ws), start, map[], flags) == outcome
  {
    var none: CommandSchema := map[];
    assert LowerCommands(none) == map[];
    ParseByRun(cmd, ws, start, none, flags, map[], flagData, outcome);
  }

  // One step of the word scan, one lemma per branch.

  lemma ScanKeep(w: string, ws: seq<string>, fs: FlagSchema, flags: seq<Flag>, kept: seq<string>)
    requires !StartsFlag(w) && ScanWords(ws, fs) == Ok(WordScan(flags, kept))
    ensures ScanWords([w] + ws, fs) == Ok(WordScan(flags, [w] + kept))
  {
    assert ([w] + ws)[1..] == ws;
  }

  lemma ScanUnknownFlag(w: string, ws: seq<string>, fs: FlagSchema, flags: seq<Flag>, kept: seq<string>)
    requires StartsFlag(w) && Lower(w) !in fs && ScanWords(ws, fs) == Ok(WordScan(flags, kept))
    ensures ScanWords([w] + ws, fs) == Ok(WordScan([Flag(Lower(w), None)] + flags, kept))
  {
    assert ([w] + ws)[1..] == ws;
  }

  // The test without schemas (lines 10-29).

  lemma HelpWithoutSchemasScan()
    ensures ScanWords(["file", "-f", "dir", "--target", "../test/path"], map[]) ==
      Ok(WordScan([Flag("-f", None), Flag("--target", None)], ["file", "dir", "../test/path"]))
  {
    var fs: FlagSchema := map[];
    var f, t := Flag("-f", None), Flag("--target", None);
    LowerFlagNames();
    var w5 := ["../test/path"];
    ScanKeep("../test/path", [], fs, [], []);
    assert ["../test/path"] + [] == w5;
    var w4 := ["--target"] + w5;
    ScanUnknownFlag("--target", w5, fs, [], w5);
    assert [t] + [] == [t];
    var w3 := ["dir"] + w4;
    ScanKeep("dir", w4, fs, [t], w5);
    var w2 := ["-f"] + w3;
    ScanUnknownFlag("-f", w3, fs, [t], ["dir"] + w5);
    var w1 := ["file"] + w2;
    ScanKeep("file", w2, fs, [f] + [t], ["dir"] + w5);
    assert w1 == ["file", "-f", "dir", "--target", "../test/path"];
    assert [f] + [t] == [f, t];
    assert ["file"] + (["dir"] + w5) == ["file", "dir", "../test/path"];
  }

  lemma HelpWithoutSchemasWords()
    ensures IsWord("help") && AllWords(["file", "-f", "dir", "--target", "../test/path"])
  {
    TypedCommands();
    TypedFlags();
    TypedOptions();
  }

  lemma HelpWithoutSchemasRun(start: InstructionState)
    ensures RunWords("help", ["file", "-f", "dir", "--target", "../test/path"], start, map[], map[]) ==
      ParseOutcome(Ok(""), InstructionState("help", ["file", "dir", "../test/path"], [Flag("-f", None), Flag("--target", None)]))
  {
    HelpWithoutSchemasScan();
    LowerTestNames();
    LowerPlainWords();
    assert LowerAll(["file", "dir", "../test/path"]) == ["file", "dir", "../test/path"];
  }

  /** Without schemas, the command, the flags in order and the options in
      order are extracted, and the run returns the empty string. */
  lemma HelpWithoutSchemas(start: InstructionState)
    ensures Parse(JoinWords(["help", "file", "-f", "dir", "--target", "../test/path"]), start, map[], map[]) ==
      ParseOutcome(Ok(""), InstructionState("help", ["file", "dir", "../test/path"], [Flag("-f", None), Flag("--target", None)]))
  {
    var ws := ["file", "-f", "dir", "--target", "../test/path"];
    assert ["help", "file", "-f", "dir", "--target", "../test/path"] == ["help"] + ws;
    HelpWithoutSchemasWords();
    ParseOfWords("help", ws, start, map[], map[]);
    var none: FlagSchema := map[];
    assert LowerCommands(map[]) == map[];
    assert LowerFlags(none) == map[];
    HelpWithoutSchemasRun(start);
  }

  // The tests with a command alone, with options and with flags (lines 54-121), without schemas.

  /** A command alone is recorded lower-cased, with no flags and no options. */
  lemma CommandAlone(start: InstructionState)
    ensures Parse(JoinWords(["firstWord"]), start, map[], map[]) ==
      ParseOutcome(Ok(""), InstructionState("firstword", [], []))
  {
    TypedCommands();
    LowerTestNames();
    assert ["firstWord"] == ["firstWord"] + [];
    ParseOfWords("firstWord", [], start, map[], map[]);
    var none: FlagSchema := map[];
    assert LowerCommands(map[]) == map[];
    assert LowerFlags(none) == map[];
    assert ScanWords([], none) == Ok(WordScan([], []));
    assert LowerAll([]) == [];
  }

  /** A word with letters outside ASCII, and no capitals. */
  lemma AccentedWord()
    ensures IsWord("direc\U{00E7}\U{00E3}o") && Lower("direc\U{00E7}\U{00E3}o") == "direc\U{00E7}\U{00E3}o"
  {
    var w := "direc\U{00E7}\U{00E3}o";
    assert NoSpace(w);
    assert DashFree(w);
  }

  lemma CommandAndOptionsScan()
    ensures ScanWords(["file", "direc\U{00E7}\U{00E3}o"], map[]) ==
      Ok(WordScan([], ["file", "direc\U{00E7}\U{00E3}o"]))
  {
    var w := "direc\U{00E7}\U{00E3}o";
    var none: FlagSchema := map[];
    assert ScanWords([], none) == Ok(WordScan([], []));
    ScanKeep(w, [], none, [], []);
    assert [w] + [] == [w];
    ScanKeep("file", [w], none, [], [w]);
    assert ["file"] + [w] == ["file", w];
  }

  lemma CommandAndOptionsRun(start: InstructionState)
    ensures RunWords("help", ["file", "direc\U{00E7}\U{00E3}o"], start, map[], map[]) ==
      ParseOutcome(Ok(""), InstructionState("help", ["file", "direc\U{00E7}\U{00E3}o"], []))
  {
    CommandAndOptionsScan();
    AccentedWord();
    LowerTestNames();
    LowerPlainWords();
    assert LowerAll(["file", "direc\U{00E7}\U{00E3}o"]) == ["file", "direc\U{00E7}\U{00E3}o"];
  }

  /** Options are recorded in order, lower-cased character by character,
      including letters outside ASCII. */
  lemma CommandAndOptions(start: InstructionState)
    ensures Parse(JoinWords(["help", "file", "direc\U{00E7}\U{00E3}o"]), start, map[], map[]) ==
      ParseOutcome(Ok(""), InstructionState("help", ["file", "direc\U{00E7}\U{00E3}o"], []))
  {
    var ws := ["file", "direc\U{00E7}\U{00E3}o"];
    assert ["help", "file", "direc\U{00E7}\U{00E3}o"] == ["help"] + ws;
    TypedCommands();
    TypedOptions();
    AccentedWord();
    assert AllWords(ws);
    ParseOfWords("help", ws, start, map[], map[]);
    var none: FlagSchema := map[];
    assert LowerCommands(map[]) == map[];
    assert LowerFlags(none) == map[];
    CommandAndOptionsRun(start);
  }

  /** Flags without options are recorded in order, and no option is. */
  lemma CommandAndFlags(start: InstructionState)
    ensures Parse(JoinWords(["firstWord", "-t", "--flag-one"]), start, map[], map[]) ==
      ParseOutcome(Ok(""), InstructionState("firstword", [], [Flag("-t", None), Flag("--flag-one", None)]))
  {
    var ws := ["-t", "--flag-one"];
    TypedCommands();
    TypedFlags();
    assert AllWords(ws);
    LowerTestNames();
    assert ["firstWord", "-t", "--flag-one"] == ["firstWord"] + ws;
    ParseOfWords("firstWord", ws, start, map[], map[]);
    var none: FlagSchema := map[];
    assert LowerCommands(map[]) == map[];
    assert LowerFlags(none) == map[];
    TwoFlagsScan();
    assert LowerAll([]) == [];
  }

  // The tests with a command schema (lines 123-327). The flag schema is empty.

  /** The flags `-t` and `--flag-one` without a flag schema. */
  lemma TwoFlagsScan()
    ensures ScanWords(["-t", "--flag-one"], map[]) ==
      Ok(WordScan([Flag("-t", None), Flag("--flag-one", None)], []))
  {
    var fs: FlagSchema := map[];
    var t, one := Flag("-t", None), Flag("--flag-one", None);
    LowerFlagNames();
    assert ScanWords([], fs) == Ok(WordScan([], []));
    ScanUnknownFlag("--flag-one", [], fs, [], []);
    assert ["--flag-one"] + [] == ["--flag-one"];
    assert [one] + [] == [one];
    ScanUnknownFlag("-t", ["--flag-one"], fs, [one], []);
    assert ["-t"] + ["--flag-one"] == ["-t", "--flag-one"];
    assert [t] + [one] == [t, one];
  }

  /** The same flags after one option, or with one word between them. */
  lemma OptionAndFlagsScan(a: string)
    requires !StartsFlag(a)
    ensures ScanWords([a, "-t", "--flag-one"], map[]) ==
      Ok(WordScan([Flag("-t", None), Flag("--flag-one", None)], [a]))
  {
    TwoFlagsScan();
    ScanKeep(a, ["-t", "--flag-one"], map[], [Flag("-t", None), Flag("--flag-one", None)], []);
    assert [a] + ["-t", "--flag-one"] == [a, "-t", "--flag-one"];
    assert [a] + [] == [a];
  }

  lemma OptionsAroundFlagScan(a: string, b: string)
    requires !StartsFlag(a) && !StartsFlag(b)
    ensures ScanWords([a, "-t", b, "--flag-one"], map[]) ==
      Ok(WordScan([Flag("-t", None), Flag("--flag-one", None)], [a, b]))
  {
    var fs: FlagSchema := map[];
    var t, one := Flag("-t", None), Flag("--flag-one", None);
    LowerFlagNames();
    assert ScanWords([], fs) == Ok(WordScan([], []));
    ScanUnknownFlag("--flag-one", [], fs, [], []);
    assert ["--flag-one"] + [] == ["--flag-one"];
    assert [one] + [] == [one];
    ScanKeep(b, ["--flag-one"], fs, [one], []);
    assert [b] + [] == [b];
    ScanUnknownFlag("-t", [b] + ["--flag-one"], fs, [one], [b]);
    assert [t] + [one] == [t, one];
    ScanKeep(a, ["-t"] + ([b] + ["--flag-one"]), fs, [t, one], [b]);
    assert [a] + (["-t"] + ([b] + ["--flag-one"])) == [a, "-t", b, "--flag-one"];
    assert [a] + [b] == [a, b];
  }

  lemma TwoOptionsAfterFlagScan(a: string, b: string, c: string)
    requires !StartsFlag(a) && !StartsFlag(b) && !StartsFlag(c)
    ensures ScanWords([a, "-t", b, c, "--flag-one"], map[]) ==
      Ok(WordScan([Flag("-t", None), Flag("--flag-one", None)], [a, b, c]))
  {
    var fs: FlagSchema := map[];
    var t, one := Flag("-t", None), Flag("--flag-one", None);
    LowerFlagNames();
    assert ScanWords([], fs) == Ok(WordScan([], []));
    ScanUnknownFlag("--flag-one", [], fs, [], []);
    assert ["--flag-one"] + [] == ["--flag-one"];
    assert [one] + [] == [one];
    ScanKeep(c, ["--flag-one"], fs, [one], []);
    assert [c] + [] == [c];
    ScanKeep(b, [c] + ["--flag-one"], fs, [one], [c]);
    var tail := [b] + ([c] + ["--flag-one"]);
    ScanUnknownFlag("-t", tail, fs, [one], [b] + [c]);
    assert [t] + [one] == [t, one];
    ScanKeep(a, ["-t"] + tail, fs, [t, one], [b] + [c]);
    assert [a] + (["-t"] + tail) == [a, "-t", b, c, "--flag-one"];
    assert [a] + ([b] + [c]) == [a, b, c];
  }

  lemma HelpOptionsScan()
    ensures ScanWords(["file", "-f", "--target", "../test/path"], map[]) ==
      Ok(WordScan([Flag("-f", None), Flag("--target", None)], ["file", "../test/path"]))
  {
    var fs: FlagSchema := map[];
    var f, t := Flag("-f", None), Flag("--target", None);
    LowerFlagNames();
    var w4 := ["../test/path"];
    assert ScanWords([], fs) == Ok(WordScan([], []));
    ScanKeep("../test/path", [], fs, [], []);
    assert ["../test/path"] + [] == w4;
    ScanUnknownFlag("--target", w4, fs, [], w4);
    assert [t] + [] == [t];
    ScanUnknownFlag("-f", ["--target"] + w4, fs, [t], w4);
    assert [f] + [t] == [f, t];
    ScanKeep("file", ["-f"] + (["--target"] + w4), fs, [f, t], w4);
    assert ["file"] + (["-f"] + (["--target"] + w4)) == ["file", "-f", "--target", "../test/path"];
    assert ["file"] + w4 == ["file", "../test/path"];
  }

  /** The no-flag-schema case of the run, after the command check passed. */
  lemma CommandOnlyRun(cmd: string, ws: seq<string>, start: InstructionState, commandData: CommandSchema,
                       flags: seq<Flag>, kept: seq<string>)
    requires Lower(cmd) in commandData && ScanWords(ws, map[]) == Ok(WordScan(flags, kept))
    ensures RunWords(cmd, ws, start, commandData, map[]) ==
      OptionWords(kept, InstructionState(Lower(cmd), start.options, flags), commandData[Lower(cmd)])
  {
  }

  lemma HelpWithCommandSchemaRun(start: InstructionState, any: Pattern, opt1: Pattern, opt2: Pattern)
    requires Matches(any, "file")
    ensures RunWords("help", ["file", "-f", "--target", "../test/path"], start, NormalTestCommands("help", any, opt1, opt2), map[]) ==
      ParseOutcome(Ok(""), InstructionState("help", ["file", "../test/path"], [Flag("-f", None), Flag("--target", None)]))
  {
    LowerTestNames();
    LowerPlainWords();
    HelpOptionsScan();
    CommandOnlyRun("help", ["file", "-f", "--target", "../test/path"], start, NormalTestCommands("help", any, opt1, opt2),
                   [Flag("-f", None), Flag("--target", None)], ["file", "../test/path"]);
    assert LowerAll(["file", "../test/path"]) == ["file", "../test/path"];
    assert RequiredCount([Some(any), None]) == 1;
  }

  /** A command in the schema whose options fit its slots: the second slot
      is `null` and accepts anything. */
  lemma HelpWithCommandSchema(start: InstructionState, any: Pattern, opt1: Pattern, opt2: Pattern)
    requires Matches(any, "file")
    ensures Parse(JoinWords(["help", "file", "-f", "--target", "../test/path"]), start, TestCommands("help", any, opt1, opt2), map[]) ==
      ParseOutcome(Ok(""), InstructionState("help", ["file", "../test/path"], [Flag("-f", None), Flag("--target", None)]))
  {
    var ws := ["file", "-f", "--target", "../test/path"];
    assert ["help", "file", "-f", "--target", "../test/path"] == ["help"] + ws;
    HelpWithCommandSchemaWords();
    TestCommandsNormalized("help", any, opt1, opt2);
    LowerTestNames();
    var none: FlagSchema := map[];
    assert LowerFlags(none) == map[];
    ParseOfWords("help", ws, start, TestCommands("help", any, opt1, opt2), none);
    HelpWithCommandSchemaRun(start, any, opt1, opt2);
  }

  lemma HelpWithCommandSchemaWords()
    ensures IsWord("help") && AllWords(["file", "-f", "--target", "../test/path"])
  {
    TypedCommands();
    TypedFlags();
    TypedOptions();
  }

  // The command schema with `testCommand`.

  lemma CommandCaseIgnoredWords()
    ensures IsWord("FIrSTworD") && AllWords(["opt1", "-t", "opt2", "--flag-one"])
  {
    TypedCommands();
    TypedFlags();
    TypedOptions();
  }

  lemma CommandCaseIgnoredRun(start: InstructionState, any: Pattern, opt1: Pattern, opt2: Pattern)
    requires Matches(opt1, "opt1") && Matches(opt2, "opt2")
    ensures RunWords("FIrSTworD", ["opt1", "-t", "opt2", "--flag-one"], start, NormalTestCommands("testcommand", any, opt1, opt2), map[]) ==
      ParseOutcome(Ok(""), InstructionState("firstword", ["opt1", "opt2"], [Flag("-t", None), Flag("--flag-one", None)]))
  {
    LowerTestNames();
    LowerMixedWords();
    LowerPlainWords();
    OptionsAroundFlagScan("opt1", "opt2");
    CommandOnlyRun("FIrSTworD", ["opt1", "-t", "opt2", "--flag-one"], start, NormalTestCommands("testcommand", any, opt1, opt2),
                   [Flag("-t", None), Flag("--flag-one", None)], ["opt1", "opt2"]);
    assert LowerAll(["opt1", "opt2"]) == ["opt1", "opt2"];
    assert RequiredCount([Some(opt1), Some(opt2)]) == 2;
  }

  /** A command typed in another case than its schema key is accepted, and is recorded lower-cased. */
  lemma CommandCaseIgnored(start: InstructionState, any: Pattern, opt1: Pattern, opt2: Pattern)
    requires Matches(opt1, "opt1") && Matches(opt2, "opt2")
    ensures Parse(JoinWords(["FIrSTworD", "opt1", "-t", "opt2", "--flag-one"]), start, TestCommands("testCommand", any, opt1, opt2), map[]) ==
      ParseOutcome(Ok(""), InstructionState("firstword", ["opt1", "opt2"], [Flag("-t", None), Flag("--flag-one", None)]))
  {
    var ws := ["opt1", "-t", "opt2", "--flag-one"];
    assert ["FIrSTworD", "opt1", "-t", "opt2", "--flag-one"] == ["FIrSTworD"] + ws;
    CommandCaseIgnoredWords();
    TestCommandsNormalized("testCommand", any, opt1, opt2);
    LowerTestNames();
    var none: FlagSchema := map[];
    assert LowerFlags(none) == map[];
    ParseOfWords("FIrSTworD", ws, start, TestCommands("testCommand", any, opt1, opt2), none);
    CommandCaseIgnoredRun(start, any, opt1, opt2);
  }

  lemma OptionalSlotMayBeMissingWords()
    ensures IsWord("testCommand") && AllWords(["opt1", "-t", "--flag-one"])
  {
    TypedCommands();
    TypedFlags();
    TypedOptions();
  }

  lemma OptionalSlotMayBeMissingRun(start: InstructionState, any: Pattern, opt1: Pattern, opt2: Pattern)
    requires Matches(any, "opt1")
    ensures RunWords("testCommand", ["opt1", "-t", "--flag-one"], start, NormalTestCommands("testcommand", any, opt1, opt2), map[]) ==
      ParseOutcome(Ok(""), InstructionState("testcommand", ["opt1"], [Flag("-t", None), Flag("--flag-one", None)]))
  {
    LowerTestNames();
    LowerMixedWords();
    LowerPlainWords();
    OptionAndFlagsScan("opt1");
    CommandOnlyRun("testCommand", ["opt1", "-t", "--flag-one"], start, NormalTestCommands("testcommand", any, opt1, opt2),
                   [Flag("-t", None), Flag("--flag-one", None)], ["opt1"]);
    assert LowerAll(["opt1"]) == ["opt1"];
    assert RequiredCount([Some(any), None]) == 1;
  }

  /** An option for a `null` slot may be left out. */
  lemma OptionalSlotMayBeMissing(start: InstructionState, any: Pattern, opt1: Pattern, opt2: Pattern)
    requires Matches(any, "opt1")
    ensures Parse(JoinWords(["testCommand", "opt1", "-t", "--flag-one"]), start, TestCommands("testCommand", any, opt1, opt2), map[]) ==
      ParseOutcome(Ok(""), InstructionState("testcommand", ["opt1"], [Flag("-t", None), Flag("--flag-one", None)]))
  {
    var ws := ["opt1", "-t", "--flag-one"];
    assert ["testCommand", "opt1", "-t", "--flag-one"] == ["testCommand"] + ws;
    OptionalSlotMayBeMissingWords();
    TestCommandsNormalized("testCommand", any, opt1, opt2);
    LowerTestNames();
    var none: FlagSchema := map[];
    assert LowerFlags(none) == map[];
    ParseOfWords("testCommand", ws, start, TestCommands("testCommand", any, opt1, opt2), none);
    OptionalSlotMayBeMissingRun(start, any, opt1, opt2);
  }

  lemma UnknownCommandRejectedWords()
    ensures IsWord("invalidCommand") && AllWords(["opt1", "-t", "opt2", "--flag-one"])
  {
    TypedCommands();
    TypedFlags();
    TypedOptions();
  }

  lemma UnknownCommandRejectedRun(start: InstructionState, any: Pattern, opt1: Pattern, opt2: Pattern)
    ensures RunWords("invalidCommand", ["opt1", "-t", "opt2", "--flag-one"], start, NormalTestCommands("testcommand", any, opt1, opt2), map[]) ==
      ParseOutcome(Err(InvalidCommand("invalidcommand")), start.(command := "invalidcommand"))
  {
    LowerTestNames();
    LowerMixedWords();
    assert "invalidcommand" !in NormalTestCommands("testcommand", any, opt1, opt2).Keys;
  }

  /** A command that is not a key is rejected after it is written to the record; nothing else is written. */
  lemma UnknownCommandRejected(start: InstructionState, any: Pattern, opt1: Pattern, opt2: Pattern)
    ensures Parse(JoinWords(["invalidCommand", "opt1", "-t", "opt2", "--flag-one"]), start, TestCommands("testCommand", any, opt1, opt2), map[]) ==
      ParseOutcome(Err(InvalidCommand("invalidcommand")), start.(command := "invalidcommand"))
  {
    var ws := ["opt1", "-t", "opt2", "--flag-one"];
    assert ["invalidCommand", "opt1", "-t", "opt2", "--flag-one"] == ["invalidCommand"] + ws;
    UnknownCommandRejectedWords();
    TestCommandsNormalized("testCommand", any, opt1, opt2);
    LowerTestNames();
    var none: FlagSchema := map[];
    assert LowerFlags(none) == map[];
    ParseOfWords("invalidCommand", ws, start, TestCommands("testCommand", any, opt1, opt2), none);
    UnknownCommandRejectedRun(start, any, opt1, opt2);
  }

  lemma OptionRejectedByPatternWords()
    ensures IsWord("firstWord") && AllWords(["opt1", "-t", "invalidOpt", "--flag-one"])
  {
    TypedCommands();
    TypedFlags();
    TypedOptions();
  }

  lemma OptionRejectedByPatternRun(start: InstructionState, any: Pattern, opt1: Pattern, opt2: Pattern)
    requires Matches(opt1, "opt1") && !Matches(opt2, "invalidopt")
    ensures RunWords("firstWord", ["opt1", "-t", "invalidOpt", "--flag-one"], start, NormalTestCommands("testcommand", any, opt1, opt2), map[]) ==
      ParseOutcome(Err(InvalidOption(2, "invalidopt")), InstructionState("firstword", ["opt1", "invalidopt"], [Flag("-t", None), Flag("--flag-one", None)]))
  {
    LowerTestNames();
    LowerMixedWords();
    LowerPlainWords();
    OptionsAroundFlagScan("opt1", "invalidOpt");
    CommandOnlyRun("firstWord", ["opt1", "-t", "invalidOpt", "--flag-one"], start, NormalTestCommands("testcommand", any, opt1, opt2),
                   [Flag("-t", None), Flag("--flag-one", None)], ["opt1", "invalidOpt"]);
    assert LowerAll(["opt1", "invalidOpt"]) == ["opt1", "invalidopt"];
    assert RequiredCount([Some(opt1), Some(opt2)]) == 2;
  }

  /** An option its slot rejects fails with its 1-based position, after the flags and the options are written. */
  lemma OptionRejectedByPattern(start: InstructionState, any: Pattern, opt1: Pattern, opt2: Pattern)
    requires Matches(opt1, "opt1") && !Matches(opt2, "invalidopt")
    ensures Parse(JoinWords(["firstWord", "opt1", "-t", "invalidOpt", "--flag-one"]), start, TestCommands("testCommand", any, opt1, opt2), map[]) ==
      ParseOutcome(Err(InvalidOption(2, "invalidopt")), InstructionState("firstword", ["opt1", "invalidopt"], [Flag("-t", None), Flag("--flag-one", None)]))
  {
    var ws := ["opt1", "-t", "invalidOpt", "--flag-one"];
    assert ["firstWord", "opt1", "-t", "invalidOpt", "--flag-one"] == ["firstWord"] + ws;
    OptionRejectedByPatternWords();
    TestCommandsNormalized("testCommand", any, opt1, opt2);
    LowerTestNames();
    var none: FlagSchema := map[];
    assert LowerFlags(none) == map[];
    ParseOfWords("firstWord", ws, start, TestCommands("testCommand", any, opt1, opt2), none);
    OptionRejectedByPatternRun(start, any, opt1, opt2);
  }

  lemma TooManyOptionsRejectedWords()
    ensures IsWord("testCommand") && AllWords(["opt1", "-t", "opt2", "opt3", "--flag-one"])
  {
    TypedCommands();
    TypedFlags();
    TypedOptions();
  }

  lemma TooManyOptionsRejectedRun(start: InstructionState, any: Pattern, opt1: Pattern, opt2: Pattern)
    ensures RunWords("testCommand", ["opt1", "-t", "opt2", "opt3", "--flag-one"], start, NormalTestCommands("testcommand", any, opt1, opt2), map[]) ==
      ParseOutcome(Err(TooManyOptions(2, 3)), InstructionState("testcommand", ["opt1", "opt2", "opt3"], [Flag("-t", None), Flag("--flag-one", None)]))
  {
    LowerTestNames();
    LowerMixedWords();
    LowerPlainWords();
    TwoOptionsAfterFlagScan("opt1", "opt2", "opt3");
    CommandOnlyRun("testCommand", ["opt1", "-t", "opt2", "opt3", "--flag-one"], start, NormalTestCommands("testcommand", any, opt1, opt2),
                   [Flag("-t", None), Flag("--flag-one", None)], ["opt1", "opt2", "opt3"]);
    assert LowerAll(["opt1", "opt2", "opt3"]) == ["opt1", "opt2", "opt3"];
  }

  /** More options than slots fail with both counts. */
  lemma TooManyOptionsRejected(start: InstructionState, any: Pattern, opt1: Pattern, opt2: Pattern)
    ensures Parse(JoinWords(["testCommand", "opt1", "-t", "opt2", "opt3", "--flag-one"]), start, TestCommands("testCommand", any, opt1, opt2), map[]) ==
      ParseOutcome(Err(TooManyOptions(2, 3)), InstructionState("testcommand", ["opt1", "opt2", "opt3"], [Flag("-t", None), Flag("--flag-one", None)]))
  {
    var ws := ["opt1", "-t", "opt2", "opt3", "--flag-one"];
    assert ["testCommand", "opt1", "-t", "opt2", "opt3", "--flag-one"] == ["testCommand"] + ws;
    TooManyOptionsRejectedWords();
    TestCommandsNormalized("testCommand", any, opt1, opt2);
    LowerTestNames();
    var none: FlagSchema := map[];
    assert LowerFlags(none) == map[];
    ParseOfWords("testCommand", ws, start, TestCommands("testCommand", any, opt1, opt2), none);
    TooManyOptionsRejectedRun(start, any, opt1, opt2);
  }

  lemma TooFewOptionsRejectedWords()
    ensures IsWord("testCommand") && AllWords(["-t", "--flag-one"])
  {
    TypedCommands();
    TypedFlags();
    TypedOptions();
  }

  lemma TooFewOptionsRejectedRun(start: InstructionState, any: Pattern, opt1: Pattern, opt2: Pattern)
    ensures RunWords("testCommand", ["-t", "--flag-one"], start, NormalTestCommands("testcommand", any, opt1, opt2), map[]) ==
      ParseOutcome(Err(TooFewOptions(1, 0)), InstructionState("testcommand", [], [Flag("-t", None), Flag("--flag-one", None)]))
  {
    LowerTestNames();
    LowerMixedWords();
    LowerPlainWords();
    TwoFlagsScan();
    CommandOnlyRun("testCommand", ["-t", "--flag-one"], start, NormalTestCommands("testcommand", any, opt1, opt2),
                   [Flag("-t", None), Flag("--flag-one", None)], []);
    assert LowerAll([]) == [];
    assert RequiredCount([Some(any), None]) == 1;
  }

  /** Fewer options than non-`null` slots fail with both counts. */
  lemma TooFewOptionsRejected(start: InstructionState, any: Pattern, opt1: Pattern, opt2: Pattern)
    ensures Parse(JoinWords(["testCommand", "-t", "--flag-one"]), start, TestCommands("testCommand", any, opt1, opt2), map[]) ==
      ParseOutcome(Err(TooFewOptions(1, 0)), InstructionState("testcommand", [], [Flag("-t", None), Flag("--flag-one", None)]))
  {
    var ws := ["-t", "--flag-one"];
    assert ["testCommand", "-t", "--flag-one"] == ["testCommand"] + ws;
    TooFewOptionsRejectedWords();
    TestCommandsNormalized("testCommand", any, opt1, opt2);
    LowerTestNames();
    var none: FlagSchema := map[];
    assert LowerFlags(none) == map[];
    ParseOfWords("testCommand", ws, start, TestCommands("testCommand", any, opt1, opt2), none);
    TooFewOptionsRejectedRun(start, any, opt1, opt2);
  }

  // The tests with a flag schema (lines 331-722). The command schema is empty.

  /** The alias entry all flag tests share: `--target` stands for `-t`. */
  const TargetAlias := FlagSpec(None, None, Some("-t"))

  /** The flag schema of most flag tests, with the entries for `-t` and
      `--flag-one` varying from test to test. */
  function TestFlags(t: FlagSpec, one: FlagSpec): (r: FlagSchema)
    ensures LowerInjective(r.Keys)
  {
    LowerFlagNames();
    map["-t" := t, "--target" := TargetAlias, "--flag-one" := one]
  }

  /** The schema of the unknown-flag test, without `--flag-one`. */
  function FlagsWithoutFlagOne(t: FlagSpec): (r: FlagSchema)
    ensures LowerInjective(r.Keys)
  {
    LowerFlagNames();
    map["-t" := t, "--target" := TargetAlias]
  }

  /** The schema of the missing-target test, without `-t`. */
  function FlagsWithoutTarget(one: FlagSpec): (r: FlagSchema)
    ensures LowerInjective(r.Keys)
  {
    LowerFlagNames();
    map["--target" := TargetAlias, "--flag-one" := one]
  }

  /** Normalizing keeps a key that is already lower-case and normalizes its entry. */
  lemma LowerFlagsAt(data: FlagSchema, k: string)
    requires LowerInjective(data.Keys) && k in data && Lower(k) == k
    ensures k in LowerFlags(data) && LowerFlags(data)[k] == LowerFlagSpec(data[k])
  {
  }

  lemma LowerKeysOfTwo(data: FlagSchema, a: string, b: string)
    requires Lower(a) == a && Lower(b) == b && data.Keys == {a, b}
    ensures LowerInjective(data.Keys)
    ensures forall k :: k in LowerFlags(data) ==> k == a || k == b
  {
    assert LowerInjective(data.Keys);
  }

  lemma LowerKeysOfThree(data: FlagSchema, a: string, b: string, c: string)
    requires Lower(a) == a && Lower(b) == b && Lower(c) == c && data.Keys == {a, b, c}
    ensures LowerInjective(data.Keys)
    ensures forall k :: k in LowerFlags(data) ==> k == a || k == b || k == c
  {
    assert LowerInjective(data.Keys);
    forall k | k in LowerFlags(data)
      ensures k == a || k == b || k == c
    {
      var k0 :| k0 in data && Lower(k0) == k;
    }
  }

  /** Flag schemas of two or three keys that are already lower-case. */
  lemma LowerFlagsOfTwo(data: FlagSchema, a: string, b: string)
    requires Lower(a) == a && Lower(b) == b && data.Keys == {a, b}
    ensures LowerInjective(data.Keys)
    ensures LowerFlags(data) == map[a := LowerFlagSpec(data[a]), b := LowerFlagSpec(data[b])]
  {
    LowerKeysOfTwo(data, a, b);
    LowerFlagsAt(data, a);
    LowerFlagsAt(data, b);
    MapOfTwo(LowerFlags(data), a, b, LowerFlagSpec(data[a]), LowerFlagSpec(data[b]));
  }

  lemma LowerFlagsOfThree(data: FlagSchema, a: string, b: string, c: string)
    requires Lower(a) == a && Lower(b) == b && Lower(c) == c && a != b && b != c && a != c
    requires data.Keys == {a, b, c}
    ensures LowerInjective(data.Keys)
    ensures LowerFlags(data) == map[a := LowerFlagSpec(data[a]), b := LowerFlagSpec(data[b]), c := LowerFlagSpec(data[c])]
  {
    LowerKeysOfThree(data, a, b, c);
    LowerFlagsAt(data, a);
    LowerFlagsAt(data, b);
    LowerFlagsAt(data, c);
    MapOfThree(LowerFlags(data), a, b, c, LowerFlagSpec(data[a]), LowerFlagSpec(data[b]), LowerFlagSpec(data[c]));
  }

  /** A map is the display of its entries. */
  lemma MapOfTwo<V>(m: map<string, V>, a: string, b: string, va: V, vb: V)
    requires a in m && m[a] == va && b in m && m[b] == vb
    requires forall k :: k in m ==> k == a || k == b
    ensures m == map[a := va, b := vb]
  {
    assert m.Keys == {a, b};
  }

  lemma MapOfThree<V>(m: map<string, V>, a: string, b: string, c: string, va: V, vb: V, vc: V)
    requires a in m && m[a] == va && b in m && m[b] == vb && c in m && m[c] == vc
    requires a != b && b != c && a != c
    requires forall k :: k in m ==> k == a || k == b || k == c
    ensures m == map[a := va, b := vb, c := vc]
  {
    assert m.Keys == {a, b, c};
  }

  lemma TargetAliasNormalized()
    ensures LowerFlagSpec(TargetAlias) == TargetAlias
  {
    LowerFlagNames();
  }

  lemma TestFlagsNormalized(t: FlagSpec, one: FlagSpec)
    ensures LowerFlags(TestFlags(t, one)) == TestFlags(LowerFlagSpec(t), LowerFlagSpec(one))
  {
    LowerFlagNames();
    TargetAliasNormalized();
    LowerFlagsOfThree(TestFlags(t, one), "-t", "--target", "--flag-one");
  }

  lemma FlagsWithoutFlagOneNormalized(t: FlagSpec)
    ensures LowerFlags(FlagsWithoutFlagOne(t)) == FlagsWithoutFlagOne(LowerFlagSpec(t))
  {
    LowerFlagNames();
    TargetAliasNormalized();
    LowerFlagsOfTwo(FlagsWithoutFlagOne(t), "-t", "--target");
  }

  lemma FlagsWithoutTargetNormalized(one: FlagSpec)
    ensures LowerFlags(FlagsWithoutTarget(one)) == FlagsWithoutTarget(LowerFlagSpec(one))
  {
    LowerFlagNames();
    TargetAliasNormalized();
    LowerFlagsOfTwo(FlagsWithoutTarget(one), "--target", "--flag-one");
  }

  /** The `commands` lists of the flag tests, lower-cased. */
  lemma LowerCommandLists()
    ensures LowerAll(["testCommand", "firstWord"]) == ["testcommand", "firstword"]
    ensures LowerAll(["testCommand"]) == ["testcommand"]
    ensures LowerAll(["firstWord"]) == ["firstword"]
  {
    LowerTestNames();
  }

  lemma ScanFlagWithArgument(w: string, a: string, ws: seq<string>, fs: FlagSchema, flags: seq<Flag>, kept: seq<string>)
    requires StartsFlag(w) && Lower(w) in fs && Resolvable(fs, Lower(w)) && Resolve(fs, Lower(w)).arg.Some?
    requires ScanWords(ws, fs) == Ok(WordScan(flags, kept))
    ensures ScanWords([w, a] + ws, fs) == Ok(WordScan([Flag(Lower(w), Some(Lower(a)))] + flags, kept))
  {
    assert ([w, a] + ws)[2..] == ws;
  }

  lemma ScanFlagWithoutArgument(w: string, ws: seq<string>, fs: FlagSchema, flags: seq<Flag>, kept: seq<string>)
    requires StartsFlag(w) && Lower(w) in fs && Resolvable(fs, Lower(w))
    requires Resolve(fs, Lower(w)).arg.None? || |ws| == 0
    requires ScanWords(ws, fs) == Ok(WordScan(flags, kept))
    ensures ScanWords([w] + ws, fs) == Ok(WordScan([Flag(Lower(w), None)] + flags, kept))
  {
    assert ([w] + ws)[1..] == ws;
  }

  lemma ScanAliasTargetMissing(w: string, ws: seq<string>, fs: FlagSchema)
    requires StartsFlag(w) && Lower(w) in fs && HasAlias(fs[Lower(w)]) && fs[Lower(w)].alias.value !in fs
    ensures ScanWords([w] + ws, fs) == Err(AliasTargetMissing(Lower(w), fs[Lower(w)].alias.value))
  {
  }

  /** With no command schema and a flag scan that succeeds, the run is the
      flag check, and then the options are written and always pass. */
  lemma FlagOnlyRun(cmd: string, ws: seq<string>, start: InstructionState, flagData: FlagSchema,
                    flags: seq<Flag>, kept: seq<string>)
    requires |flagData| > 0 && ScanWords(ws, flagData) == Ok(WordScan(flags, kept))
    ensures RunWords(cmd, ws, start, map[], flagData) ==
      match FirstFlagFailure(flags, flagData, Lower(cmd))
      case Fail(e) => ParseOutcome(Err(e), InstructionState(Lower(cmd), start.options, flags))
      case Pass => ParseOutcome(Ok(""), InstructionState(Lower(cmd), LowerAll(kept), flags))
  {
  }

  /** A run whose flag checks fail. */
  lemma FlagRunFails(cmd: string, ws: seq<string>, start: InstructionState, flagData: FlagSchema,
                     flags: seq<Flag>, kept: seq<string>, command: string, e: ParseError)
    requires |flagData| > 0 && ScanWords(ws, flagData) == Ok(WordScan(flags, kept))
    requires Lower(cmd) == command && FirstFlagFailure(flags, flagData, command) == Fail(e)
    ensures RunWords(cmd, ws, start, map[], flagData) == ParseOutcome(Err(e), InstructionState(command, start.options, flags))
  {
    FlagOnlyRun(cmd, ws, start, flagData, flags, kept);
  }

  /** A run whose flag checks pass. */
  lemma FlagRunPasses(cmd: string, ws: seq<string>, start: InstructionState, flagData: FlagSchema,
                      flags: seq<Flag>, kept: seq<string>, command: string, options: seq<string>)
    requires |flagData| > 0 && ScanWords(ws, flagData) == Ok(WordScan(flags, kept))
    requires Lower(cmd) == command && FirstFlagFailure(flags, flagData, command) == Pass && LowerAll(kept) == options
    ensures RunWords(cmd, ws, start, map[], flagData) == ParseOutcome(Ok(""), InstructionState(command, options, flags))
  {
    FlagOnlyRun(cmd, ws, start, flagData, flags, kept);
  }

  /** The checks of two flags, the first failure winning. */
  lemma TwoFlagsChecked(f: Flag, g: Flag, fs: FlagSchema, command: string)
    ensures FirstFlagFailure([f, g], fs, command) ==
      if FlagCheck(f, fs, command).Some? then Fail(FlagCheck(f, fs, command).value)
      else if FlagCheck(g, fs, command).Some? then Fail(FlagCheck(g, fs, command).value)
      else Pass
  {
    assert [f, g][1..] == [g];
    assert [g][1..] == [];
  }

  /** An entry that is not an alias. */
  predicate Direct(fs: FlagSchema, name: string)
  {
    name in fs && fs[name].alias.None?
  }

  /** The line of most flag tests: `-t` takes the word after it, `--flag-one`
      takes none. */
  lemma ArgumentFlagScan(fd: FlagSchema, a: string)
    requires Direct(fd, "-t") && fd["-t"].arg.Some? && Direct(fd, "--flag-one") && fd["--flag-one"].arg.None?
    ensures ScanWords(["opt1", "-t", a, "opt2", "--flag-one"], fd) ==
      Ok(WordScan([Flag("-t", Some(Lower(a))), Flag("--flag-one", None)], ["opt1", "opt2"]))
  {
    var t, one := Flag("-t", Some(Lower(a))), Flag("--flag-one", None);
    LowerFlagNames();
    assert ScanWords([], fd) == Ok(WordScan([], []));
    ScanFlagWithoutArgument("--flag-one", [], fd, [], []);
    assert ["--flag-one"] + [] == ["--flag-one"];
    assert [one] + [] == [one];
    ScanKeep("opt2", ["--flag-one"], fd, [one], []);
    assert ["opt2"] + [] == ["opt2"];
    ScanFlagWithArgument("-t", a, ["opt2"] + ["--flag-one"], fd, [one], ["opt2"]);
    assert [t] + [one] == [t, one];
    ScanKeep("opt1", ["-t", a] + (["opt2"] + ["--flag-one"]), fd, [t, one], ["opt2"]);
    assert ["opt1"] + (["-t", a] + (["opt2"] + ["--flag-one"])) == ["opt1", "-t", a, "opt2", "--flag-one"];
    assert ["opt1"] + ["opt2"] == ["opt1", "opt2"];
  }

  /** The same line when `--flag-one` is not in the schema. */
  lemma UnknownLastFlagScan(fd: FlagSchema)
    requires Direct(fd, "-t") && fd["-t"].arg.Some? && "--flag-one" !in fd
    ensures ScanWords(["opt1", "-t", "arg", "opt2", "--flag-one"], fd) ==
      Ok(WordScan([Flag("-t", Some("arg")), Flag("--flag-one", None)], ["opt1", "opt2"]))
  {
    var t, one := Flag("-t", Some("arg")), Flag("--flag-one", None);
    LowerFlagNames();
    LowerPlainWords();
    assert ScanWords([], fd) == Ok(WordScan([], []));
    ScanUnknownFlag("--flag-one", [], fd, [], []);
    assert ["--flag-one"] + [] == ["--flag-one"];
    assert [one] + [] == [one];
    ScanKeep("opt2", ["--flag-one"], fd, [one], []);
    assert ["opt2"] + [] == ["opt2"];
    ScanFlagWithArgument("-t", "arg", ["opt2"] + ["--flag-one"], fd, [one], ["opt2"]);
    assert [t] + [one] == [t, one];
    ScanKeep("opt1", ["-t", "arg"] + (["opt2"] + ["--flag-one"]), fd, [t, one], ["opt2"]);
    assert ["opt1"] + (["-t", "arg"] + (["opt2"] + ["--flag-one"])) == ["opt1", "-t", "arg", "opt2", "--flag-one"];
    assert ["opt1"] + ["opt2"] == ["opt1", "opt2"];
  }

  /** The line when `-t` takes no argument and `--flag-one`, which does,
      comes last: the word after `-t` stays an option. */
  lemma LastFlagScan(fd: FlagSchema)
    requires Direct(fd, "-t") && fd["-t"].arg.None? && Direct(fd, "--flag-one")
    ensures ScanWords(["opt1", "-t", "invalidArg", "opt2", "--flag-one"], fd) ==
      Ok(WordScan([Flag("-t", None), Flag("--flag-one", None)], ["opt1", "invalidArg", "opt2"]))
  {
    var t, one := Flag("-t", None), Flag("--flag-one", None);
    LowerFlagNames();
    assert ScanWords([], fd) == Ok(WordScan([], []));
    ScanFlagWithoutArgument("--flag-one", [], fd, [], []);
    assert ["--flag-one"] + [] == ["--flag-one"];
    assert [one] + [] == [one];
    ScanKeep("opt2", ["--flag-one"], fd, [one], []);
    assert ["opt2"] + [] == ["opt2"];
    ScanKeep("invalidArg", ["opt2"] + ["--flag-one"], fd, [one], ["opt2"]);
    var tail := ["invalidArg"] + (["opt2"] + ["--flag-one"]);
    ScanFlagWithoutArgument("-t", tail, fd, [one], ["invalidArg"] + ["opt2"]);
    assert [t] + [one] == [t, one];
    ScanKeep("opt1", ["-t"] + tail, fd, [t, one], ["invalidArg"] + ["opt2"]);
    assert ["opt1"] + (["-t"] + tail) == ["opt1", "-t", "invalidArg", "opt2", "--flag-one"];
    assert ["opt1"] + (["invalidArg"] + ["opt2"]) == ["opt1", "invalidArg", "opt2"];
  }

  /** The line with the alias `--target` in place of `-t`. */
  lemma AliasFlagScan(fd: FlagSchema)
    requires "--target" in fd && fd["--target"] == TargetAlias
    requires Direct(fd, "-t") && fd["-t"].arg.Some? && Direct(fd, "--flag-one") && fd["--flag-one"].arg.None?
    ensures ScanWords(["opt1", "--target", "arg", "opt2", "--flag-one"], fd) ==
      Ok(WordScan([Flag("--target", Some("arg")), Flag("--flag-one", None)], ["opt1", "opt2"]))
  {
    var t, one := Flag("--target", Some("arg")), Flag("--flag-one", None);
    LowerFlagNames();
    LowerPlainWords();
    assert ScanWords([], fd) == Ok(WordScan([], []));
    ScanFlagWithoutArgument("--flag-one", [], fd, [], []);
    assert ["--flag-one"] + [] == ["--flag-one"];
    assert [one] + [] == [one];
    ScanKeep("opt2", ["--flag-one"], fd, [one], []);
    assert ["opt2"] + [] == ["opt2"];
    assert Resolve(fd, "--target") == fd["-t"];
    ScanFlagWithArgument("--target", "arg", ["opt2"] + ["--flag-one"], fd, [one], ["opt2"]);
    assert [t] + [one] == [t, one];
    ScanKeep("opt1", ["--target", "arg"] + (["opt2"] + ["--flag-one"]), fd, [t, one], ["opt2"]);
    assert ["opt1"] + (["--target", "arg"] + (["opt2"] + ["--flag-one"])) == ["opt1", "--target", "arg", "opt2", "--flag-one"];
    assert ["opt1"] + ["opt2"] == ["opt1", "opt2"];
  }


  /** Normalizing the flag schema in which `-t` takes an argument and is allowed for both commands; `--flag-one` is allowed for `firstWord`. */
  lemma ArgumentSchemaNormalized(p: Pattern)
    ensures LowerFlags(TestFlags(FlagSpec(Some(["testCommand", "firstWord"]), Some(p), None), FlagSpec(Some(["firstWord"]), None, None))) == TestFlags(FlagSpec(Some(["testcommand", "firstword"]), Some(p), None), FlagSpec(Some(["firstword"]), None, None))
  {
    TestFlagsNormalized(FlagSpec(Some(["testCommand", "firstWord"]), Some(p), None), FlagSpec(Some(["firstWord"]), None, None));
    LowerCommandLists();
    assert LowerFlagSpec(FlagSpec(Some(["testCommand", "firstWord"]), Some(p), None)) == FlagSpec(Some(["testcommand", "firstword"]), Some(p), None);
    assert LowerFlagSpec(FlagSpec(Some(["firstWord"]), None, None)) == FlagSpec(Some(["firstword"]), None, None);
  }

  /** Normalizing the flag schema in which `--flag-one` is missing. */
  lemma NoFlagOneSchemaNormalized(p: Pattern)
    ensures LowerFlags(FlagsWithoutFlagOne(FlagSpec(Some(["testCommand", "firstWord"]), Some(p), None))) == FlagsWithoutFlagOne(FlagSpec(Some(["testcommand", "firstword"]), Some(p), None))
  {
    FlagsWithoutFlagOneNormalized(FlagSpec(Some(["testCommand", "firstWord"]), Some(p), None));
    LowerCommandLists();
    assert LowerFlagSpec(FlagSpec(Some(["testCommand", "firstWord"]), Some(p), None)) == FlagSpec(Some(["testcommand", "firstword"]), Some(p), None);
  }

  /** Normalizing the flag schema in which `--flag-one` has an empty entry. */
  lemma OpenFlagOneSchemaNormalized(p: Pattern)
    ensures LowerFlags(TestFlags(FlagSpec(Some(["testCommand", "firstWord"]), Some(p), None), FlagSpec(None, None, None))) == TestFlags(FlagSpec(Some(["testcommand", "firstword"]), Some(p), None), FlagSpec(None, None, None))
  {
    TestFlagsNormalized(FlagSpec(Some(["testCommand", "firstWord"]), Some(p), None), FlagSpec(None, None, None));
    LowerCommandLists();
    assert LowerFlagSpec(FlagSpec(Some(["testCommand", "firstWord"]), Some(p), None)) == FlagSpec(Some(["testcommand", "firstword"]), Some(p), None);
  }

  /** Normalizing the flag schema in which `-t` is allowed for `testCommand` only. */
  lemma NarrowSchemaNormalized(p: Pattern)
    ensures LowerFlags(TestFlags(FlagSpec(Some(["testCommand"]), Some(p), None), FlagSpec(Some(["firstWord"]), None, None))) == TestFlags(FlagSpec(Some(["testcommand"]), Some(p), None), FlagSpec(Some(["firstword"]), None, None))
  {
    TestFlagsNormalized(FlagSpec(Some(["testCommand"]), Some(p), None), FlagSpec(Some(["firstWord"]), None, None));
    LowerCommandLists();
    assert LowerFlagSpec(FlagSpec(Some(["testCommand"]), Some(p), None)) == FlagSpec(Some(["testcommand"]), Some(p), None);
    assert LowerFlagSpec(FlagSpec(Some(["firstWord"]), None, None)) == FlagSpec(Some(["firstword"]), None, None);
  }

  /** Normalizing the flag schema in which `--flag-one` takes the argument, and `-t` takes none. */
  lemma LastArgumentSchemaNormalized(p: Pattern)
    ensures LowerFlags(TestFlags(FlagSpec(Some(["testCommand", "firstWord"]), None, None), FlagSpec(Some(["firstWord"]), Some(p), None))) == TestFlags(FlagSpec(Some(["testcommand", "firstword"]), None, None), FlagSpec(Some(["firstword"]), Some(p), None))
  {
    TestFlagsNormalized(FlagSpec(Some(["testCommand", "firstWord"]), None, None), FlagSpec(Some(["firstWord"]), Some(p), None));
    LowerCommandLists();
    assert LowerFlagSpec(FlagSpec(Some(["testCommand", "firstWord"]), None, None)) == FlagSpec(Some(["testcommand", "firstword"]), None, None);
    assert LowerFlagSpec(FlagSpec(Some(["firstWord"]), Some(p), None)) == FlagSpec(Some(["firstword"]), Some(p), None);
  }

  /** Normalizing the flag schema in which `-t`, which `--target` names, is missing. */
  lemma NoTargetSchemaNormalized(p: Pattern)
    ensures LowerFlags(FlagsWithoutTarget(FlagSpec(Some(["firstWord"]), None, None))) == FlagsWithoutTarget(FlagSpec(Some(["firstword"]), None, None))
  {
    FlagsWithoutTargetNormalized(FlagSpec(Some(["firstWord"]), None, None));
    LowerCommandLists();
    assert LowerFlagSpec(FlagSpec(Some(["firstWord"]), None, None)) == FlagSpec(Some(["firstword"]), None, None);
  }

  lemma ArgumentLineWords()
    ensures IsWord("firstWord") && AllWords(["opt1", "-t", "arg", "opt2", "--flag-one"])
  {
    TypedCommands();
    TypedFlags();
    TypedOptions();
  }

  lemma InvalidArgumentLineWords()
    ensures IsWord("firstWord") && AllWords(["opt1", "-t", "invalidArg", "opt2", "--flag-one"])
  {
    TypedCommands();
    TypedFlags();
    TypedOptions();
  }

  lemma AliasLineWords()
    ensures IsWord("firstWord") && AllWords(["opt1", "--target", "arg", "opt2", "--flag-one"])
  {
    TypedCommands();
    TypedFlags();
    TypedOptions();
  }

  lemma FlagsWithSchemaChecks(p: Pattern)
    requires Matches(p, "arg")
    ensures FirstFlagFailure([Flag("-t", Some("arg")), Flag("--flag-one", None)], TestFlags(FlagSpec(Some(["testcommand", "firstword"]), Some(p), None), FlagSpec(Some(["firstword"]), None, None)), "firstword") == Pass
  {
    var fd := TestFlags(FlagSpec(Some(["testcommand", "firstword"]), Some(p), None), FlagSpec(Some(["firstword"]), None, None));
    LowerTestNames();
    TwoFlagsChecked(Flag("-t", Some("arg")), Flag("--flag-one", None), fd, "firstword");
  }

  lemma FlagsWithSchemaRun(start: InstructionState, p: Pattern)
    requires Matches(p, "arg")
    ensures RunWords("firstWord", ["opt1", "-t", "arg", "opt2", "--flag-one"], start, map[], TestFlags(FlagSpec(Some(["testcommand", "firstword"]), Some(p), None), FlagSpec(Some(["firstword"]), None, None))) ==
      ParseOutcome(Ok(""), InstructionState("firstword", ["opt1", "opt2"], [Flag("-t", Some("arg")), Flag("--flag-one", None)]))
  {
    var fd := TestFlags(FlagSpec(Some(["testcommand", "firstword"]), Some(p), None), FlagSpec(Some(["firstword"]), None, None));
    LowerTestNames();
    LowerPlainWords();
    LowerMixedWords();
    LowerFlagNames();
    ArgumentFlagScan(fd, "arg");
    FlagsWithSchemaChecks(p);
    assert LowerAll(["opt1", "opt2"]) == ["opt1", "opt2"];
    FlagRunPasses("firstWord", ["opt1", "-t", "arg", "opt2", "--flag-one"], start, fd, [Flag("-t", Some("arg")), Flag("--flag-one", None)], ["opt1", "opt2"], "firstword", ["opt1", "opt2"]);
  }

  /** Flags that the schema accepts for the command, with an argument its pattern accepts, pass; the word after `-t` is its argument and not an option. */
  lemma FlagsWithSchema(start: InstructionState, p: Pattern)
    requires Matches(p, "arg")
    ensures Parse(JoinWords(["firstWord", "opt1", "-t", "arg", "opt2", "--flag-one"]), start, map[], TestFlags(FlagSpec(Some(["testCommand", "firstWord"]), Some(p), None), FlagSpec(Some(["firstWord"]), None, None))) ==
      ParseOutcome(Ok(""), InstructionState("firstword", ["opt1", "opt2"], [Flag("-t", Some("arg")), Flag("--flag-one", None)]))
  {
    var ws := ["opt1", "-t", "arg", "opt2", "--flag-one"];
    assert ["firstWord", "opt1", "-t", "arg", "opt2", "--flag-one"] == ["firstWord"] + ws;
    ArgumentLineWords();
    ArgumentSchemaNormalized(p);
    FlagsWithSchemaRun(start, p);
    ParseFlagsByRun("firstWord", ws, start, TestFlags(FlagSpec(Some(["testCommand", "firstWord"]), Some(p), None), FlagSpec(Some(["firstWord"]), None, None)), TestFlags(FlagSpec(Some(["testcommand", "firstword"]), Some(p), None), FlagSpec(Some(["firstword"]), None, None)), ParseOutcome(Ok(""), InstructionState("firstword", ["opt1", "opt2"], [Flag("-t", Some("arg")), Flag("--flag-one", None)])));
  }

  lemma UnknownFlagRejectedChecks(p: Pattern)
    requires Matches(p, "arg")
    ensures FirstFlagFailure([Flag("-t", Some("arg")), Flag("--flag-one", None)], FlagsWithoutFlagOne(FlagSpec(Some(["testcommand", "firstword"]), Some(p), None)), "firstword") == Fail(InvalidFlag("--flag-one"))
  {
    var fd := FlagsWithoutFlagOne(FlagSpec(Some(["testcommand", "firstword"]), Some(p), None));
    LowerTestNames();
    TwoFlagsChecked(Flag("-t", Some("arg")), Flag("--flag-one", None), fd, "firstword");
  }

  lemma UnknownFlagRejectedRun(start: InstructionState, p: Pattern)
    requires Matches(p, "arg")
    ensures RunWords("firstWord", ["opt1", "-t", "arg", "opt2", "--flag-one"], start, map[], FlagsWithoutFlagOne(FlagSpec(Some(["testcommand", "firstword"]), Some(p), None))) ==
      ParseOutcome(Err(InvalidFlag("--flag-one")), InstructionState("firstword", start.options, [Flag("-t", Some("arg")), Flag("--flag-one", None)]))
  {
    var fd := FlagsWithoutFlagOne(FlagSpec(Some(["testcommand", "firstword"]), Some(p), None));
    LowerTestNames();
    LowerPlainWords();
    LowerMixedWords();
    LowerFlagNames();
    UnknownLastFlagScan(fd);
    UnknownFlagRejectedChecks(p);
    FlagRunFails("firstWord", ["opt1", "-t", "arg", "opt2", "--flag-one"], start, fd, [Flag("-t", Some("arg")), Flag("--flag-one", None)], ["opt1", "opt2"], "firstword", InvalidFlag("--flag-one"));
  }

  /** A flag that is not a key fails after the flags are written; the options are not written. */
  lemma UnknownFlagRejected(start: InstructionState, p: Pattern)
    requires Matches(p, "arg")
    ensures Parse(JoinWords(["firstWord", "opt1", "-t", "arg", "opt2", "--flag-one"]), start, map[], FlagsWithoutFlagOne(FlagSpec(Some(["testCommand", "firstWord"]), Some(p), None))) ==
      ParseOutcome(Err(InvalidFlag("--flag-one")), InstructionState("firstword", start.options, [Flag("-t", Some("arg")), Flag("--flag-one", None)]))
  {
    var ws := ["opt1", "-t", "arg", "opt2", "--flag-one"];
    assert ["firstWord", "opt1", "-t", "arg", "opt2", "--flag-one"] == ["firstWord"] + ws;
    ArgumentLineWords();
    NoFlagOneSchemaNormalized(p);
    UnknownFlagRejectedRun(start, p);
    ParseFlagsByRun("firstWord", ws, start, FlagsWithoutFlagOne(FlagSpec(Some(["testCommand", "firstWord"]), Some(p), None)), FlagsWithoutFlagOne(FlagSpec(Some(["testcommand", "firstword"]), Some(p), None)), ParseOutcome(Err(InvalidFlag("--flag-one")), InstructionState("firstword", start.options, [Flag("-t", Some("arg")), Flag("--flag-one", None)])));
  }

  lemma FlagWithoutCommandsChecks(p: Pattern)
    requires Matches(p, "arg")
    ensures FirstFlagFailure([Flag("-t", Some("arg")), Flag("--flag-one", None)], TestFlags(FlagSpec(Some(["testcommand", "firstword"]), Some(p), None), FlagSpec(None, None, None)), "firstword") == Pass
  {
    var fd := TestFlags(FlagSpec(Some(["testcommand", "firstword"]), Some(p), None), FlagSpec(None, None, None));
    LowerTestNames();
    TwoFlagsChecked(Flag("-t", Some("arg")), Flag("--flag-one", None), fd, "firstword");
  }

  lemma FlagWithoutCommandsRun(start: InstructionState, p: Pattern)
    requires Matches(p, "arg")
    ensures RunWords("firstWord", ["opt1", "-t", "arg", "opt2", "--flag-one"], start, map[], TestFlags(FlagSpec(Some(["testcommand", "firstword"]), Some(p), None), FlagSpec(None, None, None))) ==
      ParseOutcome(Ok(""), InstructionState("firstword", ["opt1", "opt2"], [Flag("-t", Some("arg")), Flag("--flag-one", None)]))
  {
    var fd := TestFlags(FlagSpec(Some(["testcommand", "firstword"]), Some(p), None), FlagSpec(None, None, None));
    LowerTestNames();
    LowerPlainWords();
    LowerMixedWords();
    LowerFlagNames();
    ArgumentFlagScan(fd, "arg");
    FlagWithoutCommandsChecks(p);
    assert LowerAll(["opt1", "opt2"]) == ["opt1", "opt2"];
    FlagRunPasses("firstWord", ["opt1", "-t", "arg", "opt2", "--flag-one"], start, fd, [Flag("-t", Some("arg")), Flag("--flag-one", None)], ["opt1", "opt2"], "firstword", ["opt1", "opt2"]);
  }

  /** A flag whose entry has no `commands` is accepted for every command. */
  lemma FlagWithoutCommands(start: InstructionState, p: Pattern)
    requires Matches(p, "arg")
    ensures Parse(JoinWords(["firstWord", "opt1", "-t", "arg", "opt2", "--flag-one"]), start, map[], TestFlags(FlagSpec(Some(["testCommand", "firstWord"]), Some(p), None), FlagSpec(None, None, None))) ==
      ParseOutcome(Ok(""), InstructionState("firstword", ["opt1", "opt2"], [Flag("-t", Some("arg")), Flag("--flag-one", None)]))
  {
    var ws := ["opt1", "-t", "arg", "opt2", "--flag-one"];
    assert ["firstWord", "opt1", "-t", "arg", "opt2", "--flag-one"] == ["firstWord"] + ws;
    ArgumentLineWords();
    OpenFlagOneSchemaNormalized(p);
    FlagWithoutCommandsRun(start, p);
    ParseFlagsByRun("firstWord", ws, start, TestFlags(FlagSpec(Some(["testCommand", "firstWord"]), Some(p), None), FlagSpec(None, None, None)), TestFlags(FlagSpec(Some(["testcommand", "firstword"]), Some(p), None), FlagSpec(None, None, None)), ParseOutcome(Ok(""), InstructionState("firstword", ["opt1", "opt2"], [Flag("-t", Some("arg")), Flag("--flag-one", None)])));
  }

  lemma FlagCommandRejectedChecks(p: Pattern)
    ensures FirstFlagFailure([Flag("-t", Some("arg")), Flag("--flag-one", None)], TestFlags(FlagSpec(Some(["testcommand"]), Some(p), None), FlagSpec(Some(["firstword"]), None, None)), "firstword") == Fail(FlagCommandMismatch("firstword", "-t"))
  {
    var fd := TestFlags(FlagSpec(Some(["testcommand"]), Some(p), None), FlagSpec(Some(["firstword"]), None, None));
    LowerTestNames();
    TwoFlagsChecked(Flag("-t", Some("arg")), Flag("--flag-one", None), fd, "firstword");
  }

  lemma FlagCommandRejectedRun(start: InstructionState, p: Pattern)
    ensures RunWords("firstWord", ["opt1", "-t", "arg", "opt2", "--flag-one"], start, map[], TestFlags(FlagSpec(Some(["testcommand"]), Some(p), None), FlagSpec(Some(["firstword"]), None, None))) ==
      ParseOutcome(Err(FlagCommandMismatch("firstword", "-t")), InstructionState("firstword", start.options, [Flag("-t", Some("arg")), Flag("--flag-one", None)]))
  {
    var fd := TestFlags(FlagSpec(Some(["testcommand"]), Some(p), None), FlagSpec(Some(["firstword"]), None, None));
    LowerTestNames();
    LowerPlainWords();
    LowerMixedWords();
    LowerFlagNames();
    ArgumentFlagScan(fd, "arg");
    FlagCommandRejectedChecks(p);
    FlagRunFails("firstWord", ["opt1", "-t", "arg", "opt2", "--flag-one"], start, fd, [Flag("-t", Some("arg")), Flag("--flag-one", None)], ["opt1", "opt2"], "firstword", FlagCommandMismatch("firstword", "-t"));
  }

  /** A flag whose `commands` do not hold the command fails, naming both, before its argument is looked at. */
  lemma FlagCommandRejected(start: InstructionState, p: Pattern)
    ensures Parse(JoinWords(["firstWord", "opt1", "-t", "arg", "opt2", "--flag-one"]), start, map[], TestFlags(FlagSpec(Some(["testCommand"]), Some(p), None), FlagSpec(Some(["firstWord"]), None, None))) ==
      ParseOutcome(Err(FlagCommandMismatch("firstword", "-t")), InstructionState("firstword", start.options, [Flag("-t", Some("arg")), Flag("--flag-one", None)]))
  {
    var ws := ["opt1", "-t", "arg", "opt2", "--flag-one"];
    assert ["firstWord", "opt1", "-t", "arg", "opt2", "--flag-one"] == ["firstWord"] + ws;
    ArgumentLineWords();
    NarrowSchemaNormalized(p);
    FlagCommandRejectedRun(start, p);
    ParseFlagsByRun("firstWord", ws, start, TestFlags(FlagSpec(Some(["testCommand"]), Some(p), None), FlagSpec(Some(["firstWord"]), None, None)), TestFlags(FlagSpec(Some(["testcommand"]), Some(p), None), FlagSpec(Some(["firstword"]), None, None)), ParseOutcome(Err(FlagCommandMismatch("firstword", "-t")), InstructionState("firstword", start.options, [Flag("-t", Some("arg")), Flag("--flag-one", None)])));
  }

  lemma FlagArgumentRejectedChecks(p: Pattern)
    requires !Matches(p, "invalidarg")
    ensures FirstFlagFailure([Flag("-t", Some("invalidarg")), Flag("--flag-one", None)], TestFlags(FlagSpec(Some(["testcommand", "firstword"]), Some(p), None), FlagSpec(Some(["firstword"]), None, None)), "firstword") == Fail(InvalidFlagArgument("-t"))
  {
    var fd := TestFlags(FlagSpec(Some(["testcommand", "firstword"]), Some(p), None), FlagSpec(Some(["firstword"]), None, None));
    LowerTestNames();
    TwoFlagsChecked(Flag("-t", Some("invalidarg")), Flag("--flag-one", None), fd, "firstword");
  }

  lemma FlagArgumentRejectedRun(start: InstructionState, p: Pattern)
    requires !Matches(p, "invalidarg")
    ensures RunWords("firstWord", ["opt1", "-t", "invalidArg", "opt2", "--flag-one"], start, map[], TestFlags(FlagSpec(Some(["testcommand", "firstword"]), Some(p), None), FlagSpec(Some(["firstword"]), None, None))) ==
      ParseOutcome(Err(InvalidFlagArgument("-t")), InstructionState("firstword", start.options, [Flag("-t", Some("invalidarg")), Flag("--flag-one", None)]))
  {
    var fd := TestFlags(FlagSpec(Some(["testcommand", "firstword"]), Some(p), None), FlagSpec(Some(["firstword"]), None, None));
    LowerTestNames();
    LowerPlainWords();
    LowerMixedWords();
    LowerFlagNames();
    ArgumentFlagScan(fd, "invalidArg");
    FlagArgumentRejectedChecks(p);
    FlagRunFails("firstWord", ["opt1", "-t", "invalidArg", "opt2", "--flag-one"], start, fd, [Flag("-t", Some("invalidarg")), Flag("--flag-one", None)], ["opt1", "opt2"], "firstword", InvalidFlagArgument("-t"));
  }

  /** An argument the pattern rejects fails; it was still captured, lower-cased, and the options are not written. */
  lemma FlagArgumentRejected(start: InstructionState, p: Pattern)
    requires !Matches(p, "invalidarg")
    ensures Parse(JoinWords(["firstWord", "opt1", "-t", "invalidArg", "opt2", "--flag-one"]), start, map[], TestFlags(FlagSpec(Some(["testCommand", "firstWord"]), Some(p), None), FlagSpec(Some(["firstWord"]), None, None))) ==
      ParseOutcome(Err(InvalidFlagArgument("-t")), InstructionState("firstword", start.options, [Flag("-t", Some("invalidarg")), Flag("--flag-one", None)]))
  {
    var ws := ["opt1", "-t", "invalidArg", "opt2", "--flag-one"];
    assert ["firstWord", "opt1", "-t", "invalidArg", "opt2", "--flag-one"] == ["firstWord"] + ws;
    InvalidArgumentLineWords();
    ArgumentSchemaNormalized(p);
    FlagArgumentRejectedRun(start, p);
    ParseFlagsByRun("firstWord", ws, start, TestFlags(FlagSpec(Some(["testCommand", "firstWord"]), Some(p), None), FlagSpec(Some(["firstWord"]), None, None)), TestFlags(FlagSpec(Some(["testcommand", "firstword"]), Some(p), None), FlagSpec(Some(["firstword"]), None, None)), ParseOutcome(Err(InvalidFlagArgument("-t")), InstructionState("firstword", start.options, [Flag("-t", Some("invalidarg")), Flag("--flag-one", None)])));
  }

  lemma FlagArgumentMissingChecks(p: Pattern)
    ensures FirstFlagFailure([Flag("-t", None), Flag("--flag-one", None)], TestFlags(FlagSpec(Some(["testcommand", "firstword"]), None, None), FlagSpec(Some(["firstword"]), Some(p), None)), "firstword") == Fail(InvalidFlagArgument("--flag-one"))
  {
    var fd := TestFlags(FlagSpec(Some(["testcommand", "firstword"]), None, None), FlagSpec(Some(["firstword"]), Some(p), None));
    LowerTestNames();
    TwoFlagsChecked(Flag("-t", None), Flag("--flag-one", None), fd, "firstword");
  }

  lemma FlagArgumentMissingRun(start: InstructionState, p: Pattern)
    ensures RunWords("firstWord", ["opt1", "-t", "invalidArg", "opt2", "--flag-one"], start, map[], TestFlags(FlagSpec(Some(["testcommand", "firstword"]), None, None), FlagSpec(Some(["firstword"]), Some(p), None))) ==
      ParseOutcome(Err(InvalidFlagArgument("--flag-one")), InstructionState("firstword", start.options, [Flag("-t", None), Flag("--flag-one", None)]))
  {
    var fd := TestFlags(FlagSpec(Some(["testcommand", "firstword"]), None, None), FlagSpec(Some(["firstword"]), Some(p), None));
    LowerTestNames();
    LowerPlainWords();
    LowerMixedWords();
    LowerFlagNames();
    LastFlagScan(fd);
    FlagArgumentMissingChecks(p);
    FlagRunFails("firstWord", ["opt1", "-t", "invalidArg", "opt2", "--flag-one"], start, fd, [Flag("-t", None), Flag("--flag-one", None)], ["opt1", "invalidArg", "opt2"], "firstword", InvalidFlagArgument("--flag-one"));
  }

  /** A flag that takes an argument but ends the line has none, and fails; a flag that takes none leaves the next word an option. */
  lemma FlagArgumentMissing(start: InstructionState, p: Pattern)
    ensures Parse(JoinWords(["firstWord", "opt1", "-t", "invalidArg", "opt2", "--flag-one"]), start, map[], TestFlags(FlagSpec(Some(["testCommand", "firstWord"]), None, None), FlagSpec(Some(["firstWord"]), Some(p), None))) ==
      ParseOutcome(Err(InvalidFlagArgument("--flag-one")), InstructionState("firstword", start.options, [Flag("-t", None), Flag("--flag-one", None)]))
  {
    var ws := ["opt1", "-t", "invalidArg", "opt2", "--flag-one"];
    assert ["firstWord", "opt1", "-t", "invalidArg", "opt2", "--flag-one"] == ["firstWord"] + ws;
    InvalidArgumentLineWords();
    LastArgumentSchemaNormalized(p);
    FlagArgumentMissingRun(start, p);
    ParseFlagsByRun("firstWord", ws, start, TestFlags(FlagSpec(Some(["testCommand", "firstWord"]), None, None), FlagSpec(Some(["firstWord"]), Some(p), None)), TestFlags(FlagSpec(Some(["testcommand", "firstword"]), None, None), FlagSpec(Some(["firstword"]), Some(p), None)), ParseOutcome(Err(InvalidFlagArgument("--flag-one")), InstructionState("firstword", start.options, [Flag("-t", None), Flag("--flag-one", None)])));
  }

  lemma AliasUsesTargetChecks(p: Pattern)
    requires Matches(p, "arg")
    ensures FirstFlagFailure([Flag("--target", Some("arg")), Flag("--flag-one", None)], TestFlags(FlagSpec(Some(["testcommand", "firstword"]), Some(p), None), FlagSpec(Some(["firstword"]), None, None)), "firstword") == Pass
  {
    var fd := TestFlags(FlagSpec(Some(["testcommand", "firstword"]), Some(p), None), FlagSpec(Some(["firstword"]), None, None));
    LowerTestNames();
    TwoFlagsChecked(Flag("--target", Some("arg")), Flag("--flag-one", None), fd, "firstword");
  }

  lemma AliasUsesTargetRun(start: InstructionState, p: Pattern)
    requires Matches(p, "arg")
    ensures RunWords("firstWord", ["opt1", "--target", "arg", "opt2", "--flag-one"], start, map[], TestFlags(FlagSpec(Some(["testcommand", "firstword"]), Some(p), None), FlagSpec(Some(["firstword"]), None, None))) ==
      ParseOutcome(Ok(""), InstructionState("firstword", ["opt1", "opt2"], [Flag("--target", Some("arg")), Flag("--flag-one", None)]))
  {
    var fd := TestFlags(FlagSpec(Some(["testcommand", "firstword"]), Some(p), None), FlagSpec(Some(["firstword"]), None, None));
    LowerTestNames();
    LowerPlainWords();
    LowerMixedWords();
    LowerFlagNames();
    AliasFlagScan(fd);
    AliasUsesTargetChecks(p);
    assert LowerAll(["opt1", "opt2"]) == ["opt1", "opt2"];
    FlagRunPasses("firstWord", ["opt1", "--target", "arg", "opt2", "--flag-one"], start, fd, [Flag("--target", Some("arg")), Flag("--flag-one", None)], ["opt1", "opt2"], "firstword", ["opt1", "opt2"]);
  }

  /** An alias is checked with the entry it names, and is recorded under its own name. */
  lemma AliasUsesTarget(start: InstructionState, p: Pattern)
    requires Matches(p, "arg")
    ensures Parse(JoinWords(["firstWord", "opt1", "--target", "arg", "opt2", "--flag-one"]), start, map[], TestFlags(FlagSpec(Some(["testCommand", "firstWord"]), Some(p), None), FlagSpec(Some(["firstWord"]), None, None))) ==
      ParseOutcome(Ok(""), InstructionState("firstword", ["opt1", "opt2"], [Flag("--target", Some("arg")), Flag("--flag-one", None)]))
  {
    var ws := ["opt1", "--target", "arg", "opt2", "--flag-one"];
    assert ["firstWord", "opt1", "--target", "arg", "opt2", "--flag-one"] == ["firstWord"] + ws;
    AliasLineWords();
    ArgumentSchemaNormalized(p);
    AliasUsesTargetRun(start, p);
    ParseFlagsByRun("firstWord", ws, start, TestFlags(FlagSpec(Some(["testCommand", "firstWord"]), Some(p), None), FlagSpec(Some(["firstWord"]), None, None)), TestFlags(FlagSpec(Some(["testcommand", "firstword"]), Some(p), None), FlagSpec(Some(["firstword"]), None, None)), ParseOutcome(Ok(""), InstructionState("firstword", ["opt1", "opt2"], [Flag("--target", Some("arg")), Flag("--flag-one", None)])));
  }

  lemma AliasTargetMissingRejectedRun(start: InstructionState, p: Pattern)
    ensures RunWords("firstWord", ["opt1", "--target", "arg", "opt2", "--flag-one"], start, map[], FlagsWithoutTarget(FlagSpec(Some(["firstword"]), None, None))) ==
      ParseOutcome(Err(AliasTargetMissing("--target", "-t")), start.(command := "firstword"))
  {
    var fd := FlagsWithoutTarget(FlagSpec(Some(["firstword"]), None, None));
    LowerTestNames();
    LowerPlainWords();
    LowerMixedWords();
    LowerFlagNames();
    ScanAliasTargetMissing("--target", ["arg", "opt2", "--flag-one"], fd);
    assert ["opt1", "--target", "arg", "opt2", "--flag-one"][1..] == ["--target", "arg", "opt2", "--flag-one"];
    assert ["--target"] + ["arg", "opt2", "--flag-one"] == ["--target", "arg", "opt2", "--flag-one"];
  }

  /** An alias that names no entry fails during extraction, after the command is written and before any flag is. */
  lemma AliasTargetMissingRejected(start: InstructionState, p: Pattern)
    ensures Parse(JoinWords(["firstWord", "opt1", "--target", "arg", "opt2", "--flag-one"]), start, map[], FlagsWithoutTarget(FlagSpec(Some(["firstWord"]), None, None))) ==
      ParseOutcome(Err(AliasTargetMissing("--target", "-t")), start.(command := "firstword"))
  {
    var ws := ["opt1", "--target", "arg", "opt2", "--flag-one"];
    assert ["firstWord", "opt1", "--target", "arg", "opt2", "--flag-one"] == ["firstWord"] + ws;
    AliasLineWords();
    NoTargetSchemaNormalized(p);
    AliasTargetMissingRejectedRun(start, p);
    ParseFlagsByRun("firstWord", ws, start, FlagsWithoutTarget(FlagSpec(Some(["firstWord"]), None, None)), FlagsWithoutTarget(FlagSpec(Some(["firstword"]), None, None)), ParseOutcome(Err(AliasTargetMissing("--target", "-t")), start.(command := "firstword")));
  }
}
