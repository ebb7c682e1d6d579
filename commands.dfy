/** The command stage: the command is the text before the first space
    character (only `' '`, not other whitespace), lower-cased; it is checked
    against the keys of the normalized command schema. */
module CommandStage {
  import opened Config
  import opened Strings
  import opened Normalize

  /** What `extractCommand` produces: the command and the remaining input. */
  datatype CommandSplit = CommandSplit(command: string, rest: string)

  /** The cut `extractCommand` makes at the first `' '`: with none, the
      whole input and nothing else; otherwise the text on either side. */
  function CutAtSpace(input: string): CommandSplit
  {
    match IndexOfChar(input, ' ')
    case None => CommandSplit(input, "")
    case Some(k) => CommandSplit(input[..k], input[k + 1..])
  }

  /** `extractCommand` as a value: with no `' '` the whole input is the
      command and nothing remains; otherwise the command is the text before
      the first `' '` and the remainder is the trimmed text after it. */
  function SplitCommand(input: string): (r: CommandSplit)
    ensures ' ' !in input ==> r == CommandSplit(Lower(input), "")
    ensures ' ' in input ==>
      var k := |r.command|;
      k < |input| && input[k] == ' ' && ' ' !in input[..k] &&
      r == CommandSplit(Lower(input[..k]), Trim(input[k + 1..]))
  {
    var cut := CutAtSpace(input);
    CommandSplit(Lower(cut.command), Trim(cut.rest))
  }

  /** Splitting a word, a space and a tail gives back the lower-cased word
      and the trimmed tail, whatever whitespace the tail holds. */
  lemma {:induction false} SplitCommandOfWord(word: string, tail: string)
    requires ' ' !in word
    ensures SplitCommand(word) == CommandSplit(Lower(word), "")
    ensures SplitCommand(word + " " + tail) == CommandSplit(Lower(word), Trim(tail))
  {
    var s := word + " " + tail;
    assert s[|word|] == ' ';
    assert s[..|word|] == word;
    assert s[|word| + 1..] == tail;
  }

  /** `extractCommand`: stores the lower-cased command and returns the
      trimmed remainder; the options and flags are not touched. */
  method ExtractCommand(input: string, instruction: Instruction) returns (rest: string)
    modifies instruction
    ensures instruction.State() == old(instruction.State()).(command := SplitCommand(input).command)
    ensures rest == SplitCommand(input).rest
  {
    var command: string;
    var remaining: string;
    var whitespaceIndex := IndexOfChar(input, ' ');
    if whitespaceIndex.None? {
      command := input;
      remaining := "";
    } else {
      command := input[..whitespaceIndex.value];
      remaining := input[whitespaceIndex.value + 1..];
    }
    assert CutAtSpace(input) == CommandSplit(command, remaining);
    instruction.command := Lower(command);
    rest := Trim(remaining);
  }

  /** `validateCommand`: an empty key list accepts every command, otherwise
      the command must be one of the keys. */
  function ValidateCommand(command: string, validCommands: set<string>): (r: Outcome)
    ensures r.Pass? <==> (validCommands == {} || command in validCommands)
    ensures r.Fail? ==> r.error == InvalidCommand(command)
  {
    if |validCommands| == 0 then Pass
    else if command !in validCommands then Fail(InvalidCommand(command))
    else Pass
  }

  /** Command matching is case-insensitive: the lower-cased typed command
      passes against the normalized schema exactly when the raw schema is
      empty or has a key equal to it up to case. */
  lemma {:induction false} CommandMatchIsCaseInsensitive(data: CommandSchema, typed: string)
    requires LowerInjective(data.Keys)
    ensures ValidateCommand(Lower(typed), LowerCommands(data).Keys).Pass? <==>
      (data == map[] || exists k :: k in data && Lower(k) == Lower(typed))
  {
    var norm := LowerCommands(data);
    if data != map[] {
      var k :| k in data;
      assert Lower(k) in norm;
    }
    if Lower(typed) in norm {
      var k :| k in data && Lower(k) == Lower(typed);
    }
  }
}
