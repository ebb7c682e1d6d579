# cli-inquirer instruction parser, modelled in Dafny

This project models `parseInput` of cli-inquirer (`src/parser.ts`, compiled
unchanged to `lib/parser.js`) and proves properties of the model.
`parseInput` turns one line typed by a user into an *instruction* record:
`command`, then positional `options`, then `flags` (a name with an optional
argument). It checks the record against two optional schemas supplied by the
caller. The command schema maps a command to its positional slots. The flag
schema maps a flag to its allowed `commands`, an `arg` pattern and an
`alias`.

The pipeline, one module per stage:

| module | file | what it models |
|---|---|---|
| `Config` | config.dfy | the instruction record (a class mutated in place), both schemas, the errors |
| `Strings` | strings.dfy | JavaScript's `\s`, `trim`, `toLowerCase`, `indexOf(' ')` and the word regular expression `/^([^\s]+(?:\s+|$))/` |
| `Normalize` | normalize.dfy | `lowerCaseCommandData`, `lowerCaseFlagData` |
| `CommandStage` | commands.dfy | `extractCommand`, `validateCommand` |
| `ExtractionLoop` | loop.dfy | the splice-and-search loop of `extractFlags`, for any pass |
| `FlagStage` | flags.dfy | the pass of `extractFlags`, and `validateFlags` |
| `OptionStage` | options.dfy | `extractOptions`, `validateOptions` |
| `Parser` | parser.dfy | `parseInput` |
| `Words` | words.dfy | `parseInput` read word by word, for lines of words joined by single spaces |
| `Scenarios` | scenarios.dfy | the unit tests of `parseInput` (`test/unit/parser.test.js`), one theorem each |

The record is a class, `Config.Instruction`, whose fields the stage methods
assign. Each loop of the source is a method with a loop, and each method is
proved equal to a specification function: `Normalize.LowerCommands`,
`FlagStage.ScanFlags`, `OptionStage.ScanOptions`, `FlagStage.CheckFlags`,
`OptionStage.CheckOptions`. The whole run is `Parser.Parse`, a function that
returns the result (the remainder or the error thrown) together with the
record as the run leaves it. Each `throw` is a variant of
`Config.ParseError` that carries the values its message names. The numbers
are the maximum, the required count, the provided count, and the option
position counted from 1.

Behaviour of the code worth knowing, which the model keeps:

- A command whose schema entry is an empty slot list accepts any options.
  `validateOptions` returns at once when it receives no slots
  (`src/parser.ts:200-203`). It cannot tell that list from a command that is
  not in the schema.
- The required count only counts the slots that are not `null`. Slots
  `[null, /x/]` therefore accept one option, which goes into the `null` slot
  (`OptionStage.RequiredCountIsOnlyACount`).
- `validateFlags` on its own reaches a `TypeError` when an alias names no
  entry. That case is the error `UndefinedAliasEntry`. `parseInput` never
  reaches it, because `extractFlags` rejects such an alias first
  (`Parser.ParsePartialWrites`).
- A successful run always returns the empty string (`Parser.ParseReturnsEmpty`).
  `extractOptions` receives a trimmed string and consumes all of it. So the
  caller's "non-empty remainder" rejection (`src/inquirer.ts:28-31`) is never
  taken.

## Model

| member | source | states |
|---|---|---|
| `Normalize.LowerCommands` | src/parser.ts:32-43 | every key, lower-cased, holds its original slot list, and every key of the result is the lower-cased form of an original key |
| `Normalize.LowerFlags` | src/parser.ts:45-66 | every key, lower-cased, holds its entry with `commands` and a non-empty `alias` lower-cased, and nothing else is a key |
| `Normalize.LowerCaseCommandData` | src/parser.ts:32-43 | the key-by-key loop builds exactly the normalized command schema |
| `Normalize.LowerCaseFlagData` | src/parser.ts:45-66 | the key-by-key loop builds exactly the normalized flag schema |
| `Normalize.LowerCommandsIdempotent` | src/parser.ts:32-43 | normalizing a normalized command schema changes nothing |
| `Normalize.LowerFlagsIdempotent` | src/parser.ts:45-66 | normalizing a normalized flag schema changes nothing |
| `Strings.IndexOfChar` | src/parser.ts:70 | the result is absent exactly when the character does not occur, and otherwise is its first position |
| `Strings.LeadingToken` | src/parser.ts:123 | a word is found exactly when the input starts with a non-whitespace character; it is that whole non-whitespace run, and the match also spans the whitespace after it |
| `Strings.TrimmedStart` | src/parser.ts:80 | trimmed text is empty or starts with a non-whitespace character |
| `CommandStage.SplitCommand` | src/parser.ts:68-81 | with no `' '` the whole input, lower-cased, is the command and the remainder is empty; otherwise the command is the lower-cased text before the first `' '` and the remainder is the trimmed text after it |
| `CommandStage.SplitCommandOfWord` | src/parser.ts:68-81 | a word followed by a space and any text splits into the lower-cased word and the trimmed text |
| `CommandStage.ExtractCommand` | src/parser.ts:68-81 | writes only `command`, with the split's command, and returns the split's remainder |
| `CommandStage.ValidateCommand` | src/parser.ts:83-93 | passes exactly when there are no keys or the command is a key; the failure names the command |
| `CommandStage.CommandMatchIsCaseInsensitive` | src/parser.ts:83-93 | the lower-cased typed command passes exactly when the raw schema is empty or has a key equal to it up to case |
| `ExtractionLoop.FindFlagFrom` | src/parser.ts:101-103 | the result is a flag match with none before it, and absence means no match at all |
| `ExtractionLoop.ScanShape` | src/parser.ts:104-138 | after the loop no flag match is left, and each pass removed at least two characters |
| `ExtractionLoop.ScanKeeps` | src/parser.ts:104-138 | a property of every flag a pass records holds of every flag the loop records |
| `ExtractionLoop.ScanSucceeds` | src/parser.ts:104-138 | a pass that never fails makes a loop that never fails |
| `ExtractionLoop.ScanFailsByPass` | src/parser.ts:104-138 | a failing loop fails with the error of one of its passes |
| `ExtractionLoop.ScanCongruent` | src/parser.ts:104-138 | two passes that agree at every match give the same loop |
| `ExtractionLoop.ScanIsLeftToRight` | src/parser.ts:132-137 | the splice-and-search loop equals one left-to-right pass over the original input: the flags come in input order, from disjoint spans, and the remainder is the text between the spans, in order |
| `ExtractionLoop.ScanFromKeepsPrefix` | src/parser.ts:134-135 | the text before the first flag reaches the remainder unchanged |
| `FlagStage.FlagStepOn` | src/parser.ts:105-130 | a successful pass removes at least the two characters of the match and no more than the input holds |
| `FlagStage.FlagStepOnSpec` | src/parser.ts:105-130 | a pass fails exactly when the name is a key whose alias names no entry; it records the lower-cased name; it captures the next word, lower-cased, exactly when the name is a key, its resolved entry declares `arg` and a word follows, whether or not the word matches |
| `FlagStage.ReadFlag` | src/parser.ts:105-130 | the loop body computes exactly the pass |
| `FlagStage.ScanFlagsShape` | src/parser.ts:104-138 | every flag extracted is a dash, a non-whitespace character and more non-whitespace, with a word as its argument, and names an alias that resolves |
| `FlagStage.ScanFlagsErrors` | src/parser.ts:110-117 | extraction fails only on a key whose alias names no entry, and the error names both |
| `FlagStage.ScanFlagsWithoutSchema` | src/parser.ts:108-109 | with an empty flag schema extraction never fails and no flag captures an argument |
| `FlagStage.ExtractFlags` | src/parser.ts:95-142 | on failure, returns the pass's error with the record unchanged; on success, writes only `flags`, in order, and returns the trimmed remainder of the loop |
| `FlagStage.ScanFlagsIgnoresPatterns` | src/parser.ts:120-129 | schemas that differ only in their patterns extract the same flags and leave the same remainder |
| `FlagStage.FirstFlagFailure` | src/parser.ts:154-175 | passes exactly when every flag passes its check; otherwise the error is that of a flag after only passing flags |
| `FlagStage.FirstFlagFailureAt` | src/parser.ts:154-175 | the first failing flag decides the outcome |
| `FlagStage.CheckFlagsErrors` | src/parser.ts:149-175 | on flags whose aliases resolve, validation fails only as an unknown flag, a command the flag does not allow, or a missing or non-matching argument |
| `FlagStage.ValidateFlags` | src/parser.ts:144-176 | the loop returns exactly the checks in order (name, then resolved `commands`, then resolved `arg`), the first failure winning, and an empty schema accepting all |
| `OptionStage.ScanOptionsShape` | src/parser.ts:182-190 | input that does not start with a word is left as it is, and input that does is consumed entirely |
| `OptionStage.ScanOptionsAreWords` | src/parser.ts:182-190 | every option is a non-empty word without whitespace |
| `OptionStage.ScanOptionsOfSeparatedWords` | src/parser.ts:178-194 | words joined by any non-empty runs of whitespace come back as the options, one per word, lower-cased and in order, with nothing left |
| `OptionStage.ScanOptionsOfWords` | src/parser.ts:178-194 | the same round trip for words joined by single spaces, as a corollary |
| `OptionStage.ExtractOptions` | src/parser.ts:178-194 | writes only `options`, with the words in order, and returns the trimmed remainder |
| `OptionStage.RequiredCount` | src/parser.ts:211-212 | the count of non-`null` slots is at most the number of slots and is zero exactly when every slot is `null` |
| `OptionStage.FirstBadOption` | src/parser.ts:218-227 | absent exactly when every option is accepted by its slot; otherwise the first rejected position |
| `OptionStage.CheckOptions` | src/parser.ts:196-227 | passes exactly when there are no slots, or there are at most as many options as slots, at least as many as the non-`null` slots, and each is accepted by its slot; fails only as too-many, too-few or an invalid option; too-many exactly when there are more options than slots; too-few, with both counts, exactly when there are slots, not too many options and fewer than the non-`null` slots; an invalid option only when both counts passed, at its 1-based position after only accepted ones |
| `OptionStage.ValidateOptions` | src/parser.ts:196-227 | the loop, which skips `null` slots, returns exactly the specified outcome |
| `OptionStage.RequiredCountIsOnlyACount` | src/parser.ts:211-227 | slots `[null, p]` accept a single option |
| `Parser.ParseInput` | src/parser.ts:5-30 | the stage methods, run in place, return the run's result and leave the record as the run leaves it |
| `Parser.ParseReturnsEmpty` | src/parser.ts:24-29 | a successful run returns the empty string |
| `Parser.ParsePartialWrites` | src/parser.ts:11-25 | an empty input returns `''` and leaves the record unchanged; any other input writes the command; a failing command check or a missing alias target leaves flags and options as they were; a failing flag check leaves the extracted flags written and the options as they were; a failing option check leaves the extracted flags and the scanned options written; the dangling-alias `TypeError` is never reached |
| `Parser.ParseSuccessIsValid` | src/parser.ts:19-29 | a successful run leaves a command that is a key (or no command schema), well formed flags that pass their checks (or no flag schema), and options that are words fitting the command's slots |
| `Parser.ParseWithoutSchemas` | src/parser.ts:14-29 | with both schemas empty every non-empty input succeeds with `''` and no flag has an argument |
| `Parser.ParseOfNormalizedSchemas` | src/parser.ts:14-17 | a run with already normalized schemas is the same run, so schema names are matched without regard to case |
| `Parser.ParseDependsOnNormalized` | src/parser.ts:14-17 | a run sees the schemas only through their normalized forms |
| `Words.ScanWords` | src/parser.ts:104-138 | the word-by-word flag reading records no more flags and options together than there are words, and keeps only words of the input as options |
| `Words.ParseOfWords` | src/parser.ts:5-227 | on a command word followed by words joined by single spaces, the character-level run equals the word-by-word reading: the first word lower-cased is the command, a flag word is a flag that takes the next word exactly when its resolved entry declares `arg`, every other word is the next option |
| `Scenarios.HelpWithoutSchemas` | test/unit/parser.test.js:10-29 | without schemas, `help file -f dir --target ../test/path` gives command `help`, options `file`, `dir`, `../test/path`, flags `-f`, `--target` without arguments, and returns `''` |
| `Scenarios.CommandAlone` | test/unit/parser.test.js:54-75 | `firstWord` alone is recorded as `firstword` with no options and no flags |
| `Scenarios.CommandAndOptions` | test/unit/parser.test.js:77-98 | `help file direcção` records the options `file`, `direcção` in order |
| `Scenarios.CommandAndFlags` | test/unit/parser.test.js:100-121 | `firstWord -t --flag-one` records both flags in order and no option |
| `Scenarios.HelpWithCommandSchema` | test/unit/parser.test.js:123-147 | a command in the schema whose options fit its slots, the second slot `null`, is accepted |
| `Scenarios.CommandCaseIgnored` | test/unit/parser.test.js:176-201 | `FIrSTworD` is accepted against the key `firstWord` and recorded as `firstword` |
| `Scenarios.OptionalSlotMayBeMissing` | test/unit/parser.test.js:203-228 | `testCommand opt1` passes against slots `[pattern, null]` |
| `Scenarios.UnknownCommandRejected` | test/unit/parser.test.js:230-253 | a command that is not a key fails naming `invalidcommand`, after only the command is written |
| `Scenarios.OptionRejectedByPattern` | test/unit/parser.test.js:255-278 | an option its slot rejects fails at position 2, after flags and options are written |
| `Scenarios.TooManyOptionsRejected` | test/unit/parser.test.js:280-303 | three options against two slots fail with the counts 2 and 3 |
| `Scenarios.TooFewOptionsRejected` | test/unit/parser.test.js:305-329 | no option against one required slot fails with the counts 1 and 0 |
| `Scenarios.FlagsWithSchema` | test/unit/parser.test.js:331-363 | `-t arg` takes `arg` as its argument, not as an option, and the flags pass their checks |
| `Scenarios.UnknownFlagRejected` | test/unit/parser.test.js:400-434 | a flag that is not a key fails after the flags are written, with the options untouched |
| `Scenarios.FlagWithoutCommands` | test/unit/parser.test.js:436-467 | a flag entry without `commands` is accepted for any command |
| `Scenarios.FlagCommandRejected` | test/unit/parser.test.js:503-541 | a flag whose `commands` lack the command fails naming both |
| `Scenarios.FlagArgumentRejected` | test/unit/parser.test.js:577-614 | a following word the `arg` pattern rejects is still captured, lower-cased, and then fails the argument check |
| `Scenarios.FlagArgumentMissing` | test/unit/parser.test.js:616-654 | a flag that declares `arg` at the end of the line captures nothing and fails the argument check |
| `Scenarios.AliasUsesTarget` | test/unit/parser.test.js:656-688 | `--target` takes its argument and command rules from `-t` and is recorded as `--target` |
| `Scenarios.AliasTargetMissingRejected` | test/unit/parser.test.js:690-724 | an alias naming no entry fails during extraction with the flags not yet written |

## Left out

- The caller in `src/inquirer.ts` and the input reading in `src/utils.ts`.
  They are readline and stream I/O inside a Promise. `src/inquirer.ts` is not part of this model.
- The regular expression engine. A schema pattern is an opaque predicate
  standing for `search(pattern) !== -1`. The two tokenizing expressions
  (`src/parser.ts:101`, `:123`, `:180`) are written out as character scans.
- Full Unicode `toLowerCase`. Lower-casing maps ASCII and Latin-1 capitals
  and leaves every other character as it is. Whitespace is exactly
  JavaScript's `\s` set.
- Schemas whose keys collide after lower-casing. `Object.defineProperty`
  would throw a `TypeError` on the second key, so distinct lower-cased keys
  are a precondition (`Normalize.LowerInjective`).
- JavaScript prototype lookups. The normalized schemas are plain objects,
  so a lookup by a name that is not a key can find an inherited member of
  `Object.prototype`. Only the lower-case inherited names `constructor` and
  `__proto__` can be reached, since every looked-up name is lower-cased.
  Schemas are finite maps here, so such a lookup finds nothing, and the model
  differs from the code in three places:
  - A command typed as `constructor` with an empty command schema passes
    `validateCommand`. `parseInput` then hands the `Object` function to
    `validateOptions` as the slot list (`src/parser.ts:26-27`). There it
    fails with too-many when more than one option is given, and otherwise
    with a `TypeError` from `filter`. The model gives it no slots and accepts
    any options.
  - A command typed as `__proto__` with an empty command schema also passes
    `validateCommand`. `parseInput` then hands `Object.prototype` to
    `validateOptions` as the slot list. Its `length` is `undefined`, so
    neither the empty-list return (`src/parser.ts:202`) nor the too-many
    check (`src/parser.ts:207`) fires, and `filter` fails with a `TypeError`
    (`src/parser.ts:211`) whatever the options. The model gives it no slots
    and accepts any options.
  - A flag-schema entry whose `alias` is `constructor` or `__proto__`, with
    no key of that name, finds an inherited member at `src/parser.ts:112`.
    That member is not `undefined`, so the code does not throw. It declares
    neither `arg` nor `commands`, so the flag captures no argument and
    passes validation (`src/parser.ts:160-175`). The model reports
    `AliasTargetMissing` for it instead.

  Flag names themselves always start with a dash and never meet an inherited
  name.
- The wording of the error messages. Each error carries the values its
  message names.
