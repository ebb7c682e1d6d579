/** `parseInput`: the whole pipeline over one line of input. It normalizes
    both schemas, then extracts and validates the command, the flags and the
    options in that order, writing each into the instruction record as soon
    as it is extracted. The first failing step ends the run, so a failure
    leaves the fields written before it in place. */
module Parser {
  import opened Config
  import opened Strings
  import opened Normalize
  import opened CommandStage
  import opened ExtractionLoop
  import opened FlagStage
  import opened OptionStage

  /** What one run produces: the returned remainder or the error thrown, and
      the instruction record as the run leaves it. */
  datatype ParseOutcome = ParseOutcome(result: Result<string>, state: InstructionState)

  /** The slot list `validateOptions` receives: the command's entry when the
      command is a key, no slots otherwise. */
  function CommandSlots(commandData: CommandSchema, command: string): Slots
  {
    if command in commandData then commandData[command] else []
  }

  /** The pipeline as a value, from the record's state before the run: an
      empty input returns at once; any other input runs the stages against
      the normalized schemas. */
  function Parse(input: string, start: InstructionState, commands: CommandSchema, flags: FlagSchema): ParseOutcome
    requires LowerInjective(commands.Keys) && LowerInjective(flags.Keys)
  {
    if input == "" then ParseOutcome(Ok(""), start)
    else RunStages(input, start, LowerCommands(commands), LowerFlags(flags))
  }

  /** The command stage, then the later stages on the remainder. */
  function RunStages(input: string, start: InstructionState, commandData: CommandSchema, flagData: FlagSchema): ParseOutcome
  {
    var split := SplitCommand(input);
    var withCommand := start.(command := split.command);
    match ValidateCommand(split.command, commandData.Keys)
    case Fail(e) => ParseOutcome(Err(e), withCommand)
    case Pass => FlagStages(split.rest, withCommand, commandData, flagData)
  }

  /** The flag stage on the remainder after the command, then the option
      stage on what the flags leave. */
  function FlagStages(rest: string, state: InstructionState, commandData: CommandSchema, flagData: FlagSchema): ParseOutcome
  {
    match ScanFlags(rest, flagData)
    case Err(e) => ParseOutcome(Err(e), state)
    case Ok(flagScan) =>
      var withFlags := state.(flags := flagScan.flags);
      match CheckFlags(flagScan.flags, flagData, state.command)
      case Fail(e) => ParseOutcome(Err(e), withFlags)
      case Pass => OptionStages(Trim(flagScan.rest), withFlags, CommandSlots(commandData, state.command))
  }

  /** The option stage, and the final trim of what it leaves. */
  function OptionStages(rest: string, state: InstructionState, slots: Slots): ParseOutcome
  {
    var optionScan := ScanOptions(rest);
    var withOptions := state.(options := optionScan.options);
    match CheckOptions(optionScan.options, slots)
    case Fail(e) => ParseOutcome(Err(e), withOptions)
    case Pass => ParseOutcome(Ok(Trim(Trim(optionScan.rest))), withOptions)
  }

  /** `parseInput`: runs the stages on the record in place, in the order of
      the source, and returns the trimmed remainder or the first error. */
  method ParseInput(userInput: string, instruction: Instruction,
                    commandValidationData: CommandSchema, flagValidationData: FlagSchema)
    returns (r: Result<string>)
    requires LowerInjective(commandValidationData.Keys) && LowerInjective(flagValidationData.Keys)
    modifies instruction
    ensures var p := Parse(userInput, old(instruction.State()), commandValidationData, flagValidationData);
      r == p.result && instruction.State() == p.state
  {
    if userInput == "" {
      return Ok("");
    }
    ghost var before := instruction.State();
    var commandData := LowerCaseCommandData(commandValidationData);
    var flagData := LowerCaseFlagData(flagValidationData);
    assert Parse(userInput, before, commandValidationData, flagValidationData) ==
      RunStages(userInput, before, commandData, flagData);

    var rest := ExtractCommand(userInput, instruction);
    var commandCheck := ValidateCommand(instruction.command, commandData.Keys);
    if commandCheck.Fail? {
      return Err(commandCheck.error);
    }
    assert RunStages(userInput, before, commandData, flagData) ==
      FlagStages(rest, instruction.State(), commandData, flagData);

    ghost var withCommand, afterCommand := instruction.State(), rest;
    var flagResult := ExtractFlags(rest, instruction, flagData);
    if flagResult.Err? {
      return Err(flagResult.error);
    }
    ghost var flagScan := ScanFlags(rest, flagData).value;
    rest := flagResult.value;
    var flagCheck := ValidateFlags(instruction.flags, flagData, instruction.command);
    if flagCheck.Fail? {
      return Err(flagCheck.error);
    }
    assert FlagStages(afterCommand, withCommand, commandData, flagData) ==
      OptionStages(rest, instruction.State(), CommandSlots(commandData, instruction.command)) by {
      assert rest == Trim(flagScan.rest);
    }

    rest := ExtractOptions(rest, instruction);
    var optionCheck := ValidateOptions(instruction.options, CommandSlots(commandData, instruction.command));
    if optionCheck.Fail? {
      return Err(optionCheck.error);
    }
    return Ok(Trim(rest));
  }

  // ---------------------------------------------------------------------
  // Properties of a run.
  // ---------------------------------------------------------------------

  /** The options are read from a trimmed remainder, so they consume all of
      it: nothing is ever left over. */
  lemma OptionsConsumeTrimmed(s: string)
    ensures ScanOptions(Trim(s)).rest == ""
  {
    TrimmedStart(s);
    ScanOptionsShape(Trim(s));
  }

  /** A successful run returns the empty string: the remainder can only be
      non-empty when the run fails. */
  lemma ParseReturnsEmpty(input: string, start: InstructionState, commands: CommandSchema, flags: FlagSchema)
    requires LowerInjective(commands.Keys) && LowerInjective(flags.Keys)
    ensures Parse(input, start, commands, flags).result.Ok? ==> Parse(input, start, commands, flags).result.value == ""
  {
    if input != "" {
      RunStagesReturnEmpty(input, start, LowerCommands(commands), LowerFlags(flags));
    }
  }

  lemma RunStagesReturnEmpty(input: string, start: InstructionState, commandData: CommandSchema, flagData: FlagSchema)
    ensures RunStages(input, start, commandData, flagData).result.Ok? ==>
      RunStages(input, start, commandData, flagData).result.value == ""
  {
    var split := SplitCommand(input);
    FlagStagesReturnEmpty(split.rest, start.(command := split.command), commandData, flagData);
  }

  lemma FlagStagesReturnEmpty(rest: string, state: InstructionState, commandData: CommandSchema, flagData: FlagSchema)
    ensures FlagStages(rest, state, commandData, flagData).result.Ok? ==>
      FlagStages(rest, state, commandData, flagData).result.value == ""
  {
    var flagScan := ScanFlags(rest, flagData);
    if flagScan.Ok? {
      var withFlags := state.(flags := flagScan.value.flags);
      OptionStagesReturnEmpty(flagScan.value.rest, withFlags, CommandSlots(commandData, state.command));
    }
  }

  lemma OptionStagesReturnEmpty(rest: string, state: InstructionState, slots: Slots)
    ensures OptionStages(Trim(rest), state, slots).result.Ok? ==> OptionStages(Trim(rest), state, slots).result.value == ""
  {
    OptionsConsumeTrimmed(rest);
  }

  /** The validation errors `validateFlags` raises for a single flag. */
  predicate FlagValidationError(e: ParseError)
  {
    e.InvalidFlag? || e.FlagCommandMismatch? || e.InvalidFlagArgument?
  }

  /** The errors `validateOptions` raises. */
  predicate OptionValidationError(e: ParseError)
  {
    e.TooManyOptions? || e.TooFewOptions? || e.InvalidOption?
  }

  /** What a run writes before it stops. An empty input writes nothing; any
      other input writes the command first. A failing command check or a
      missing alias target stops the run before the flags are written; a
      failing flag check stops it after the extracted flags are written and
      before the options are; a failing option check stops it after both
      the extracted flags and the scanned options are written. The
      standalone failure of `validateFlags` on an alias without an entry is
      never reached, since extraction rejects such an alias first. */
  lemma ParsePartialWrites(input: string, start: InstructionState, commands: CommandSchema, flags: FlagSchema)
    requires LowerInjective(commands.Keys) && LowerInjective(flags.Keys)
    ensures var p := Parse(input, start, commands, flags);
      && (input == "" ==> p == ParseOutcome(Ok(""), start))
      && (input != "" ==> p.state.command == SplitCommand(input).command)
      && (p.result.Err? ==> !p.result.error.UndefinedAliasEntry?)
      && (p.result.Err? && (p.result.error.InvalidCommand? || p.result.error.AliasTargetMissing?) ==>
            p.state.flags == start.flags && p.state.options == start.options)
      && (p.result.Err? && FlagValidationError(p.result.error) ==>
            var flagScan := ScanFlags(SplitCommand(input).rest, LowerFlags(flags));
            flagScan.Ok? && p.state.flags == flagScan.value.flags && p.state.options == start.options)
      && (p.result.Err? && OptionValidationError(p.result.error) ==>
            var flagScan := ScanFlags(SplitCommand(input).rest, LowerFlags(flags));
            flagScan.Ok? && p.state.flags == flagScan.value.flags &&
            p.state.options == ScanOptions(Trim(flagScan.value.rest)).options)
  {
    if input != "" {
      var split := SplitCommand(input);
      var commandData, flagData := LowerCommands(commands), LowerFlags(flags);
      RunStagesWrites(input, start, commandData, flagData);
      RunStagesCheckWrites(input, start, commandData, flagData);
      FlagStagesWrites(split.rest, start.(command := split.command), commandData, flagData);
    }
  }

  /** What the command stage and the later stages write, against
      normalized schemas. */
  lemma RunStagesWrites(input: string, start: InstructionState, commandData: CommandSchema, flagData: FlagSchema)
    ensures RunStages(input, start, commandData, flagData).state.command == SplitCommand(input).command
    ensures var p := RunStages(input, start, commandData, flagData);
      p.result.Err? ==> !p.result.error.UndefinedAliasEntry?
    ensures var p := RunStages(input, start, commandData, flagData);
      p.result.Err? && (p.result.error.InvalidCommand? || p.result.error.AliasTargetMissing?) ==>
        p.state.flags == start.flags && p.state.options == start.options
  {
    var split := SplitCommand(input);
    var withCommand := start.(command := split.command);
    if ValidateCommand(split.command, commandData.Keys).Pass? {
      FlagStagesWrites(split.rest, withCommand, commandData, flagData);
    }
  }

  /** A failing flag or option check comes after the command check passed,
      so the flag and option stages decide what it leaves. */
  lemma RunStagesCheckWrites(input: string, start: InstructionState, commandData: CommandSchema, flagData: FlagSchema)
    ensures var p := RunStages(input, start, commandData, flagData);
      p.result.Err? && (FlagValidationError(p.result.error) || OptionValidationError(p.result.error)) ==>
        ValidateCommand(SplitCommand(input).command, commandData.Keys).Pass? &&
        p == FlagStages(SplitCommand(input).rest, start.(command := SplitCommand(input).command), commandData, flagData)
  {
  }

  /** What the flag and option stages write, seen from a failure: the
      command is kept, the error is one these stages raise, a missing alias
      target leaves the record as the command stage left it, a failing flag
      check leaves the flags as extracted and the options as they were, and
      a failing option check leaves the flags as extracted and the options
      as scanned. */
  ghost predicate FlagStagesWrote(p: ParseOutcome, state: InstructionState, rest: string, flagData: FlagSchema)
  {
    && p.state.command == state.command
    && (p.result.Err? ==> !p.result.error.UndefinedAliasEntry? && !p.result.error.InvalidCommand?)
    && (p.result.Err? && p.result.error.AliasTargetMissing? ==> p.state == state)
    && (p.result.Err? && FlagValidationError(p.result.error) ==>
          ScanFlags(rest, flagData).Ok? && p.state == state.(flags := ScanFlags(rest, flagData).value.flags))
    && (p.result.Err? && OptionValidationError(p.result.error) ==>
          ScanFlags(rest, flagData).Ok? &&
          p.state == state.(flags := ScanFlags(rest, flagData).value.flags)
                          .(options := ScanOptions(Trim(ScanFlags(rest, flagData).value.rest)).options))
  }

  lemma FlagStagesWrites(rest: string, state: InstructionState, commandData: CommandSchema, flagData: FlagSchema)
    ensures FlagStagesWrote(FlagStages(rest, state, commandData, flagData), state, rest, flagData)
  {
    if ScanFlags(rest, flagData).Err? {
      FlagScanFailure(rest, state, commandData, flagData);
    } else if CheckFlags(ScanFlags(rest, flagData).value.flags, flagData, state.command).Fail? {
      FlagCheckFailure(rest, state, commandData, flagData);
    } else {
      FlagChecksPassed(rest, state, commandData, flagData);
    }
  }

  lemma FlagScanFailure(rest: string, state: InstructionState, commandData: CommandSchema, flagData: FlagSchema)
    requires ScanFlags(rest, flagData).Err?
    ensures var p := FlagStages(rest, state, commandData, flagData);
      p.state == state && p.result.Err? && p.result.error.AliasTargetMissing?
    ensures FlagStagesWrote(FlagStages(rest, state, commandData, flagData), state, rest, flagData)
  {
    ScanFlagsErrors(rest, flagData);
  }

  lemma FlagCheckFailure(rest: string, state: InstructionState, commandData: CommandSchema, flagData: FlagSchema)
    requires ScanFlags(rest, flagData).Ok?
    requires CheckFlags(ScanFlags(rest, flagData).value.flags, flagData, state.command).Fail?
    ensures var p := FlagStages(rest, state, commandData, flagData);
      p.state == state.(flags := ScanFlags(rest, flagData).value.flags) &&
      p.result.Err? && FlagValidationError(p.result.error)
    ensures FlagStagesWrote(FlagStages(rest, state, commandData, flagData), state, rest, flagData)
  {
    ScanFlagsShape(rest, flagData);
    CheckFlagsErrors(ScanFlags(rest, flagData).value.flags, flagData, state.command);
  }

  lemma FlagChecksPassed(rest: string, state: InstructionState, commandData: CommandSchema, flagData: FlagSchema)
    requires ScanFlags(rest, flagData).Ok?
    requires CheckFlags(ScanFlags(rest, flagData).value.flags, flagData, state.command).Pass?
    ensures var p := FlagStages(rest, state, commandData, flagData);
      var flagScan := ScanFlags(rest, flagData).value;
      p.state == state.(flags := flagScan.flags).(options := ScanOptions(Trim(flagScan.rest)).options) &&
      (p.result.Err? ==> OptionValidationError(p.result.error))
    ensures FlagStagesWrote(FlagStages(rest, state, commandData, flagData), state, rest, flagData)
  {
    var flagScan := ScanFlags(rest, flagData).value;
    OptionStagesWrites(Trim(flagScan.rest), state.(flags := flagScan.flags), CommandSlots(commandData, state.command));
  }

  lemma OptionStagesWrites(rest: string, state: InstructionState, slots: Slots)
    ensures var p := OptionStages(rest, state, slots);
      && p.state == state.(options := ScanOptions(rest).options)
      && (p.result.Err? ==> OptionValidationError(p.result.error))
  {
  }

  // ---------------------------------------------------------------------
  // What a successful run guarantees.
  // ---------------------------------------------------------------------

  /** A successful run on non-empty input returns the empty string and
      leaves a record that passed every check: the command is a key of the
      normalized command schema (or that schema is empty), and the flags and
      options pass theirs. */
  lemma ParseSuccessIsValid(input: string, start: InstructionState, commands: CommandSchema, flags: FlagSchema)
    requires LowerInjective(commands.Keys) && LowerInjective(flags.Keys)
    requires input != "" && Parse(input, start, commands, flags).result.Ok?
    ensures Parse(input, start, commands, flags).result.value == ""
    ensures var st := Parse(input, start, commands, flags).state;
      LowerCommands(commands) == map[] || st.command in LowerCommands(commands)
    ensures FlagsAndOptionsValid(Parse(input, start, commands, flags).state, LowerCommands(commands), LowerFlags(flags))
  {
    ParseReturnsEmpty(input, start, commands, flags);
    RunStagesValid(input, start, LowerCommands(commands), LowerFlags(flags));
  }

  /** The options fit the slots: any options when there are no slots,
      otherwise no more options than slots, at least as many as there are
      constrained slots, and each accepted by the slot at its position. */
  ghost predicate Fits(options: seq<string>, slots: Slots)
  {
    |slots| == 0 ||
    (|options| <= |slots| && RequiredCount(slots) <= |options| &&
     forall k :: 0 <= k < |options| ==> SlotAccepts(slots[k], options[k]))
  }

  /** The record after the flag and option checks passed: every flag is well
      formed and passes its check (unless the flag schema is empty), and the
      options are words that fit the command's slots. */
  ghost predicate FlagsAndOptionsValid(st: InstructionState, commandData: CommandSchema, flagData: FlagSchema)
  {
    && (forall k :: 0 <= k < |st.flags| ==> WellFormedFlag(st.flags[k]))
    && (flagData == map[] || forall k :: 0 <= k < |st.flags| ==> FlagCheck(st.flags[k], flagData, st.command).None?)
    && (forall k :: 0 <= k < |st.options| ==> |st.options[k]| > 0 && NoSpace(st.options[k]))
    && Fits(st.options, CommandSlots(commandData, st.command))
  }

  lemma RunStagesValid(input: string, start: InstructionState, commandData: CommandSchema, flagData: FlagSchema)
    requires RunStages(input, start, commandData, flagData).result.Ok?
    ensures var st := RunStages(input, start, commandData, flagData).state;
      commandData == map[] || st.command in commandData
    ensures FlagsAndOptionsValid(RunStages(input, start, commandData, flagData).state, commandData, flagData)
  {
    var split := SplitCommand(input);
    var withCommand := start.(command := split.command);
    assert RunStages(input, start, commandData, flagData) == FlagStages(split.rest, withCommand, commandData, flagData);
    FlagStagesValid(split.rest, withCommand, commandData, flagData);
  }

  lemma FlagStagesValid(rest: string, state: InstructionState, commandData: CommandSchema, flagData: FlagSchema)
    requires FlagStages(rest, state, commandData, flagData).result.Ok?
    ensures FlagStages(rest, state, commandData, flagData).state.command == state.command
    ensures FlagsAndOptionsValid(FlagStages(rest, state, commandData, flagData).state, commandData, flagData)
  {
    ScanFlagsShape(rest, flagData);
    var flagScan := ScanFlags(rest, flagData).value;
    var withFlags := state.(flags := flagScan.flags);
    var slots := CommandSlots(commandData, state.command);
    assert FlagStages(rest, state, commandData, flagData) == OptionStages(Trim(flagScan.rest), withFlags, slots);
    ScanOptionsAreWords(Trim(flagScan.rest));
  }

  // ---------------------------------------------------------------------
  // Schemas.
  // ---------------------------------------------------------------------

  /** With no schemas every non-empty input is accepted: the run returns the
      empty string, and no flag captures an argument. */
  lemma ParseWithoutSchemas(input: string, start: InstructionState)
    requires input != ""
    ensures Parse(input, start, map[], map[]).result == Ok("")
    ensures var st := Parse(input, start, map[], map[]).state;
      forall k :: 0 <= k < |st.flags| ==> st.flags[k].arg.None?
  {
    var none: FlagSchema := map[];
    assert LowerCommands(map[]) == map[];
    assert LowerFlags(none) == map[];
    var split := SplitCommand(input);
    ScanFlagsWithoutSchema(split.rest);
    ParseReturnsEmpty(input, start, map[], map[]);
  }

  /** Normalizing the schemas first changes nothing, so schemas that differ
      only in the case of their names behave alike. */
  lemma ParseOfNormalizedSchemas(input: string, start: InstructionState, commands: CommandSchema, flags: FlagSchema)
    requires LowerInjective(commands.Keys) && LowerInjective(flags.Keys)
    ensures LowerInjective(LowerCommands(commands).Keys) && LowerInjective(LowerFlags(flags).Keys)
    ensures Parse(input, start, LowerCommands(commands), LowerFlags(flags)) == Parse(input, start, commands, flags)
  {
    LowerCommandsIdempotent(commands);
    LowerFlagsIdempotent(flags);
    ParseDependsOnNormalized(input, start, LowerCommands(commands), LowerFlags(flags), commands, flags);
  }

  /** A run sees the schemas only through their normalized forms. */
  lemma ParseDependsOnNormalized(input: string, start: InstructionState,
                                 commands: CommandSchema, flags: FlagSchema,
                                 commands': CommandSchema, flags': FlagSchema)
    requires LowerInjective(commands.Keys) && LowerInjective(flags.Keys)
    requires LowerInjective(commands'.Keys) && LowerInjective(flags'.Keys)
    requires LowerCommands(commands) == LowerCommands(commands') && LowerFlags(flags) == LowerFlags(flags')
    ensures Parse(input, start, commands, flags) == Parse(input, start, commands', flags')
  {
    if input != "" {
      var commandData, flagData := LowerCommands(commands), LowerFlags(flags);
      assert Parse(input, start, commands, flags) == RunStages(input, start, commandData, flagData);
      assert Parse(input, start, commands', flags') == RunStages(input, start, commandData, flagData);
    }
  }
}
