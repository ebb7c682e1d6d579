/** The flag stage. `extractFlags` runs the extraction loop with a pass
    that lower-cases the matched name, resolves one alias hop and captures
    the next word as the argument when the resolved entry declares `arg`.
    `validateFlags` then checks each extracted flag against the normalized
    flag schema. */
module FlagStage {
  import opened Config
  import opened Strings
  import opened ExtractionLoop

  /** A name as the flag regular expression can produce it (starting with a
      dash, at least two characters, no whitespace), and an argument as the
      word regular expression can produce it. */
  ghost predicate WellFormedFlag(f: Flag)
  {
    |f.name| >= 2 && f.name[0] == '-' && NoSpace(f.name) &&
    (f.arg.Some? ==> |f.arg.value| > 0 && NoSpace(f.arg.value))
  }

  /** One pass of the extraction loop on the input from the match position
      on (`tail`). An unknown flag never captures an argument; a known flag
      whose alias names no entry fails; otherwise the flag captures the next
      word exactly when its one-hop-resolved entry declares `arg`, whether or
      not that word satisfies the pattern. */
  function FlagStepOn(tail: string, fs: FlagSchema): (r: Result<FlagStep>)
    requires FlagAt(tail, 0)
    ensures r.Ok? ==> 2 <= r.value.removed <= |tail|
  {
    var m := LeadingToken(tail).value;
    var name := Lower(m.text);
    var after := tail[m.length..];
    if name !in fs then Ok(FlagStep(Flag(name, None), m.length))
    else if HasAlias(fs[name]) && fs[name].alias.value !in fs then
      Err(AliasTargetMissing(name, fs[name].alias.value))
    else if Resolve(fs, name).arg.Some? && LeadingToken(after).Some? then
      var a := LeadingToken(after).value;
      Ok(FlagStep(Flag(name, Some(Lower(a.text))), m.length + a.length))
    else Ok(FlagStep(Flag(name, None), m.length))
  }

  /** What one pass does, case by case: it fails exactly when the matched
      name is a key whose alias names no entry; otherwise it records the
      lower-cased name, which then has a resolvable alias, and it captures
      the following word, lower-cased, exactly when the name is a key, its
      resolved entry declares `arg` and a word follows; the flag recorded is
      well formed, and the span removed is the match plus the captured word.
      Beyond the case split of `FlagStepOn`, it states the facts the loop
      lemmas need: well-formedness, a resolvable alias, and the iff for
      capture. */
  lemma FlagStepOnSpec(tail: string, fs: FlagSchema)
    requires FlagAt(tail, 0)
    ensures
      var r := FlagStepOn(tail, fs);
      var m := LeadingToken(tail).value;
      var name := Lower(m.text);
      && (r.Err? <==> name in fs && HasAlias(fs[name]) && fs[name].alias.value !in fs)
      && (r.Err? ==> r.error == AliasTargetMissing(name, fs[name].alias.value))
      && (r.Ok? ==> r.value.flag.name == name && Resolvable(fs, name) && WellFormedFlag(r.value.flag))
      && (r.Ok? ==> (r.value.flag.arg.Some? <==>
            name in fs && Resolve(fs, name).arg.Some? && LeadingToken(tail[m.length..]).Some?))
      && (r.Ok? && r.value.flag.arg.Some? ==>
            var a := LeadingToken(tail[m.length..]).value;
            r.value.flag.arg.value == Lower(a.text) && r.value.removed == m.length + a.length)
      && (r.Ok? && r.value.flag.arg.None? ==> r.value.removed == m.length)
  {
    var m := LeadingToken(tail).value;
    LowerNoSpace(m.text);
    LowerCharKeepsClass(m.text[0]);
    var after := tail[m.length..];
    if LeadingToken(after).Some? {
      LowerNoSpace(LeadingToken(after).value.text);
    }
  }

  /** The body of the extraction loop, on the input from the match position
      on, in the source's own steps: it builds the flag, reassigns the entry
      on an alias hop and grows the count of characters to remove. It is
      the code that `ExtractFlags` runs; `FlagStepOn` is its specification,
      the flat case split that the loop lemmas reason about. */
  method ReadFlag(tail: string, flagData: FlagSchema) returns (r: Result<FlagStep>)
    requires FlagAt(tail, 0)
    ensures r == FlagStepOn(tail, flagData)
  {
    var m := LeadingToken(tail).value;
    var flagObj := Flag(Lower(m.text), None);
    var numCharsRemove := m.length;
    if flagObj.name in flagData {
      var validationData := flagData[flagObj.name];
      if HasAlias(validationData) {
        var aliasFlag := validationData.alias.value;
        if aliasFlag !in flagData {
          return Err(AliasTargetMissing(flagObj.name, aliasFlag));
        }
        validationData := flagData[aliasFlag];
      }
      if validationData.arg.Some? {
        var argMatch := LeadingToken(tail[numCharsRemove..]);
        if argMatch.Some? {
          flagObj := flagObj.(arg := Some(Lower(argMatch.value.text)));
          numCharsRemove := numCharsRemove + argMatch.value.length;
        }
      }
    }
    return Ok(FlagStep(flagObj, numCharsRemove));
  }

  /** The pass `extractFlags` runs, as a value. */
  function FlagPass(fs: FlagSchema): (pass: Pass)
    ensures Progressing(pass)
  {
    tail requires FlagAt(tail, 0) => FlagStepOn(tail, fs)
  }

  /** The whole extraction loop of `extractFlags`, before the final trim. */
  function ScanFlags(s: string, fs: FlagSchema): Result<FlagScan>
  {
    Scan(s, FlagPass(fs))
  }

  /** When the loop succeeds, every flag is well formed, and every recorded
      flag that is a schema key has a resolvable alias. */
  lemma ScanFlagsShape(s: string, fs: FlagSchema)
    ensures ScanFlags(s, fs).Ok? ==> forall k :: 0 <= k < |ScanFlags(s, fs).value.flags| ==>
      WellFormedFlag(ScanFlags(s, fs).value.flags[k]) && Resolvable(fs, ScanFlags(s, fs).value.flags[k].name)
  {
    var good := f => WellFormedFlag(f) && Resolvable(fs, f.name);
    forall tail | FlagAt(tail, 0) && FlagPass(fs)(tail).Ok?
      ensures good(FlagPass(fs)(tail).value.flag)
    {
      FlagStepOnSpec(tail, fs);
    }
    ScanKeeps(s, FlagPass(fs), good);
  }

  /** The loop fails only on a schema key whose alias names no entry, and
      reports that key and that alias. */
  lemma ScanFlagsErrors(s: string, fs: FlagSchema)
    ensures ScanFlags(s, fs).Err? ==>
      exists name :: name in fs && HasAlias(fs[name]) && fs[name].alias.value !in fs &&
        ScanFlags(s, fs).error == AliasTargetMissing(name, fs[name].alias.value)
  {
    ScanFailsByPass(s, FlagPass(fs));
    if ScanFlags(s, fs).Err? {
      var tail :| FlagAt(tail, 0) && FlagPass(fs)(tail) == Err(ScanFlags(s, fs).error);
      FlagStepOnSpec(tail, fs);
    }
  }

  /** With an empty flag schema the loop cannot fail, and no flag captures
      an argument. */
  lemma ScanFlagsWithoutSchema(s: string)
    ensures ScanFlags(s, map[]).Ok?
    ensures forall k :: 0 <= k < |ScanFlags(s, map[]).value.flags| ==> ScanFlags(s, map[]).value.flags[k].arg.None?
  {
    var fs: FlagSchema := map[];
    ScanSucceeds(s, FlagPass(fs));
    ScanKeeps(s, FlagPass(fs), (f: Flag) => f.arg.None?);
  }

  /** One turn of the extraction loop keeps its invariant: a failing pass
      is the failure of the whole loop, and a successful one moves its flag
      from the rest of the loop to the flags found so far. */
  lemma LoopStep(input: string, flags: seq<Flag>, s: string, i: nat, fs: FlagSchema)
    requires FindFlag(s) == Some(i)
    requires PrependFlags(flags, ScanFlags(s, fs)) == ScanFlags(input, fs)
    ensures FlagAt(s[i..], 0)
    ensures FlagStepOn(s[i..], fs).Err? ==> ScanFlags(input, fs) == Err(FlagStepOn(s[i..], fs).error)
    ensures FlagStepOn(s[i..], fs).Ok? ==>
      var step := FlagStepOn(s[i..], fs).value;
      PrependFlags(flags + [step.flag], ScanFlags(Splice(s, i, step.removed), fs)) == ScanFlags(input, fs)
  {
    FlagAtTail(s, i);
    assert ScanFlags(s, fs) == ScanAt(s, i, FlagPass(fs));
    match FlagStepOn(s[i..], fs)
    case Err(e) =>
    case Ok(step) =>
      PrependFlagsTwice(flags, [step.flag], ScanFlags(Splice(s, i, step.removed), fs));
  }

  /** `extractFlags`: on success stores the flags (in the order found) and
      returns the trimmed remainder; when an alias names no entry it fails
      before `instruction.flags` is assigned. Only `flags` is written. */
  method ExtractFlags(input: string, instruction: Instruction, flagData: FlagSchema) returns (r: Result<string>)
    modifies instruction
    ensures ScanFlags(input, flagData).Err? ==>
      r == Err(ScanFlags(input, flagData).error) && instruction.State() == old(instruction.State())
    ensures ScanFlags(input, flagData).Ok? ==>
      r == Ok(Trim(ScanFlags(input, flagData).value.rest)) &&
      instruction.State() == old(instruction.State()).(flags := ScanFlags(input, flagData).value.flags)
  {
    var flags: seq<Flag> := [];
    var s := input;
    var flagMatch := FindFlag(s);
    PrependFlagsTwice([], [], ScanFlags(s, flagData));
    while flagMatch.Some?
      invariant flagMatch == FindFlag(s)
      invariant PrependFlags(flags, ScanFlags(s, flagData)) == ScanFlags(input, flagData)
      invariant unchanged(instruction)
      decreases |s|
    {
      var index := flagMatch.value;
      FlagAtTail(s, index);
      var step := ReadFlag(s[index..], flagData);
      LoopStep(input, flags, s, index, flagData);
      if step.Err? {
        return Err(step.error);
      }
      var flagObj, numCharsRemove := step.value.flag, step.value.removed;
      flags := flags + [flagObj];
      s := Splice(s, index, numCharsRemove);
      flagMatch := FindFlag(s);
    }
    assert ScanFlags(s, flagData) == Ok(FlagScan([], s));
    assert flags + [] == flags;
    instruction.flags := flags;
    return Ok(Trim(s));
  }

  // ---------------------------------------------------------------------
  // Argument capture is decided by the presence of `arg`, never by the
  // pattern: two schemas that differ only in their patterns extract the
  // same flags and leave the same remainder.
  // ---------------------------------------------------------------------

  ghost predicate SameShape(fs: FlagSchema, gs: FlagSchema)
  {
    fs.Keys == gs.Keys &&
    forall k :: k in fs ==> fs[k].alias == gs[k].alias && fs[k].arg.Some? == gs[k].arg.Some?
  }

  lemma ScanFlagsIgnoresPatterns(s: string, fs: FlagSchema, gs: FlagSchema)
    requires SameShape(fs, gs)
    ensures ScanFlags(s, fs) == ScanFlags(s, gs)
  {
    forall tail | FlagAt(tail, 0)
      ensures FlagPass(fs)(tail) == FlagPass(gs)(tail)
    {
    }
    ScanCongruent(s, FlagPass(fs), FlagPass(gs));
  }

  // ---------------------------------------------------------------------
  // Validation.
  // ---------------------------------------------------------------------

  /** Every recorded flag that is a schema key has a resolvable alias: what
      a successful extraction guarantees. */
  ghost predicate AllResolvable(flags: seq<Flag>, fs: FlagSchema)
  {
    forall k :: 0 <= k < |flags| ==> Resolvable(fs, flags[k].name)
  }

  /** The checks `validateFlags` makes on one flag, in its order: the literal
      name must be a key; the resolved entry's `commands`, when present, must
      hold the command; the resolved entry's `arg`, when present, needs a
      captured argument that it matches. An alias naming no entry leaves
      nothing to read those fields from. */
  function FlagCheck(f: Flag, fs: FlagSchema, command: string): Option<ParseError>
  {
    if f.name !in fs then Some(InvalidFlag(f.name))
    else if !Resolvable(fs, f.name) then Some(UndefinedAliasEntry(f.name))
    else
      var spec := Resolve(fs, f.name);
      if spec.commands.Some? && command !in spec.commands.value then
        Some(FlagCommandMismatch(command, f.name))
      else if spec.arg.Some? && (f.arg.None? || !Matches(spec.arg.value, f.arg.value)) then
        Some(InvalidFlagArgument(f.name))
      else None
  }

  /** The first failing flag's error, or `Pass` when every flag passes. */
  function FirstFlagFailure(flags: seq<Flag>, fs: FlagSchema, command: string): (r: Outcome)
    ensures r.Pass? <==> forall k :: 0 <= k < |flags| ==> FlagCheck(flags[k], fs, command).None?
    ensures r.Fail? ==>
      exists k :: 0 <= k < |flags| && FlagCheck(flags[k], fs, command) == Some(r.error) &&
        (forall j :: 0 <= j < k ==> FlagCheck(flags[j], fs, command).None?)
  {
    if |flags| == 0 then Pass
    else match FlagCheck(flags[0], fs, command)
      case Some(e) => Fail(e)
      case None =>
        var r := FirstFlagFailure(flags[1..], fs, command);
        assert forall k :: 1 <= k < |flags| ==> flags[k] == flags[1..][k - 1];
        r
  }

  /** `validateFlags` as a value: an empty schema accepts every flag. */
  function CheckFlags(flags: seq<Flag>, fs: FlagSchema, command: string): Outcome
  {
    if |fs| == 0 then Pass else FirstFlagFailure(flags, fs, command)
  }

  /** The first failure is unique: a flag that fails after only passing
      flags determines the outcome. */
  lemma FirstFlagFailureAt(flags: seq<Flag>, fs: FlagSchema, command: string, i: nat, e: ParseError)
    requires i < |flags| && FlagCheck(flags[i], fs, command) == Some(e)
    requires forall j :: 0 <= j < i ==> FlagCheck(flags[j], fs, command).None?
    ensures FirstFlagFailure(flags, fs, command) == Fail(e)
  {
  }

  /** On flags whose aliases resolve, validation fails only with one of its
      three single-flag errors. */
  lemma CheckFlagsErrors(flags: seq<Flag>, fs: FlagSchema, command: string)
    requires AllResolvable(flags, fs)
    ensures CheckFlags(flags, fs, command).Fail? ==>
      var e := CheckFlags(flags, fs, command).error;
      e.InvalidFlag? || e.FlagCommandMismatch? || e.InvalidFlagArgument?
  {
    var r := CheckFlags(flags, fs, command);
    if r.Fail? {
      var k :| 0 <= k < |flags| && FlagCheck(flags[k], fs, command) == Some(r.error);
      assert Resolvable(fs, flags[k].name);
    }
  }

  /** `validateFlags`: checks the flags in order and stops at the first
      failure. */
  method ValidateFlags(flags: seq<Flag>, flagValidationData: FlagSchema, command: string) returns (r: Outcome)
    ensures r == CheckFlags(flags, flagValidationData, command)
  {
    if |flagValidationData| == 0 {
      return Pass;
    }
    for i := 0 to |flags|
      invariant forall j :: 0 <= j < i ==> FlagCheck(flags[j], flagValidationData, command).None?
    {
      if flags[i].name !in flagValidationData {
        FirstFlagFailureAt(flags, flagValidationData, command, i, InvalidFlag(flags[i].name));
        return Fail(InvalidFlag(flags[i].name));
      }
      var flagData := flagValidationData[flags[i].name];
      if HasAlias(flagData) {
        if flagData.alias.value !in flagValidationData {
          FirstFlagFailureAt(flags, flagValidationData, command, i, UndefinedAliasEntry(flags[i].name));
          return Fail(UndefinedAliasEntry(flags[i].name));
        }
        flagData := flagValidationData[flagData.alias.value];
      }
      if flagData.commands.Some? && command !in flagData.commands.value {
        FirstFlagFailureAt(flags, flagValidationData, command, i, FlagCommandMismatch(command, flags[i].name));
        return Fail(FlagCommandMismatch(command, flags[i].name));
      }
      if flagData.arg.Some? && (flags[i].arg.None? || !Matches(flagData.arg.value, flags[i].arg.value)) {
        FirstFlagFailureAt(flags, flagValidationData, command, i, InvalidFlagArgument(flags[i].name));
        return Fail(InvalidFlagArgument(flags[i].name));
      }
    }
    return Pass;
  }
}
