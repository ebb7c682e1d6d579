/** The data shapes the parser works on: the instruction record it fills in,
    the two validation schemas a caller supplies, and the failures it reports. */
module Config {

  /** A schema pattern. The parser only ever asks whether a pattern is found
      somewhere in a string (a regular expression's `search` not returning -1),
      so a pattern is modelled as that question. */
  type Pattern = string -> bool

  predicate Matches(p: Pattern, s: string)
  {
    p(s)
  }

  /** One extracted flag: its lower-cased name and, when captured, its argument. */
  datatype Flag = Flag(name: string, arg: Option<string>)

  datatype Option<T> = None | Some(value: T)

  /** The value of an instruction record at one moment. */
  datatype InstructionState = InstructionState(command: string, options: seq<string>, flags: seq<Flag>)

  const EmptyInstruction := InstructionState("", [], [])

  /** The instruction record the parser fills in place. */
  class Instruction {
    var command: string
    var options: seq<string>
    var flags: seq<Flag>

    constructor ()
      ensures State() == EmptyInstruction
    {
      command, options, flags := "", [], [];
    }

    function State(): InstructionState
      reads this
    {
      InstructionState(command, options, flags)
    }
  }

  /** A command's positional slots: `None` is the no-constraint marker (`null`). */
  type Slots = seq<Option<Pattern>>

  /** Command schema: command name to its slot list. */
  type CommandSchema = map<string, Slots>

  /** One flag schema entry; every field may be absent. */
  datatype FlagSpec = FlagSpec(commands: Option<seq<string>>, arg: Option<Pattern>, alias: Option<string>)

  /** Flag schema: flag token (canonical or alias) to its entry. */
  type FlagSchema = map<string, FlagSpec>

  /** The entry's `alias` as JavaScript reads it: present and not the empty string. */
  predicate HasAlias(spec: FlagSpec)
  {
    spec.alias.Some? && spec.alias.value != ""
  }

  /** The flag is not in the schema, or its alias (one hop) names an entry. */
  predicate Resolvable(fs: FlagSchema, name: string)
  {
    name in fs ==> (HasAlias(fs[name]) ==> fs[name].alias.value in fs)
  }

  /** The entry whose `commands` and `arg` govern a flag: the alias target
      when the entry has an alias, the entry itself otherwise. One hop only. */
  function Resolve(fs: FlagSchema, name: string): (spec: FlagSpec)
    requires name in fs && Resolvable(fs, name)
    ensures !HasAlias(fs[name]) ==> spec == fs[name]
    ensures HasAlias(fs[name]) ==> spec == fs[fs[name].alias.value]
  {
    if HasAlias(fs[name]) then fs[fs[name].alias.value] else fs[name]
  }

  /** Each `throw` of the parser, with the values its message names.
      `UndefinedAliasEntry` is the `TypeError` that `validateFlags` would
      raise when it reads a field of an alias entry that does not exist;
      `parseInput` never reaches it, because `extractFlags` rejects such an
      alias first. */
  datatype ParseError =
    | InvalidCommand(command: string)
    | AliasTargetMissing(flag: string, alias: string)
    | InvalidFlag(flag: string)
    | FlagCommandMismatch(command: string, flag: string)
    | InvalidFlagArgument(flag: string)
    | UndefinedAliasEntry(flag: string)
    | TooManyOptions(maxAccepted: nat, provided: nat)
    | TooFewOptions(required: nat, provided: nat)
    | InvalidOption(position: nat, option: string)

  datatype Result<T> = Ok(value: T) | Err(error: ParseError)

  /** The result of a validation step, which returns nothing or throws. */
  datatype Outcome = Pass | Fail(error: ParseError)
}
