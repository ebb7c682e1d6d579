/** The option stage. `extractOptions` repeatedly takes the leading word
    (`/^([^\s]+(?:\s+|$))/`) off the input, lower-cased, as the next
    positional option; `validateOptions` checks the options against the
    slot list of the command. */
module OptionStage {
  import opened Config
  import opened Strings
  import opened ExtractionLoop

  /** The options taken and the input left over. */
  datatype OptionScan = OptionScan(options: seq<string>, rest: string)

  /** The loop of `extractOptions`, before the final trim: while the input
      starts with a word, that word (lower-cased) is the next option and
      the word with the whitespace after it is removed. */
  function ScanOptions(s: string): OptionScan
    decreases |s|
  {
    match LeadingToken(s)
    case None => OptionScan([], s)
    case Some(t) =>
      var r := ScanOptions(s[t.length..]);
      OptionScan([Lower(t.text)] + r.options, r.rest)
  }

  /** Input that does not start with a word is left as it is; input that
      does is consumed completely, since each word takes the whitespace
      after it and the next character, if any, starts another word. */
  lemma {:induction false} ScanOptionsShape(s: string)
    ensures LeadingToken(s).None? ==> ScanOptions(s) == OptionScan([], s)
    ensures LeadingToken(s).Some? ==> ScanOptions(s).rest == ""
    decreases |s|
  {
    match LeadingToken(s)
    case None =>
    case Some(t) =>
      var tail := s[t.length..];
      ScanOptionsShape(tail);
      if tail != [] {
        assert tail[0] == s[t.length];
      }
  }

  /** Every option is a non-empty word without whitespace. */
  lemma {:induction false} ScanOptionsAreWords(s: string)
    ensures forall k :: 0 <= k < |ScanOptions(s).options| ==>
      |ScanOptions(s).options[k]| > 0 && NoSpace(ScanOptions(s).options[k])
    decreases |s|
  {
    match LeadingToken(s)
    case None =>
    case Some(t) =>
      var tail := s[t.length..];
      ScanOptionsAreWords(tail);
      LowerNoSpace(t.text);
      var r := ScanOptions(tail);
      assert ScanOptions(s).options == [Lower(t.text)] + r.options;
      assert forall k :: 1 <= k < |ScanOptions(s).options| ==> ScanOptions(s).options[k] == r.options[k - 1];
  }

  /** Words joined by single spaces. */
  function JoinWords(words: seq<string>): string
  {
    if |words| == 0 then ""
    else if |words| == 1 then words[0]
    else words[0] + " " + JoinWords(words[1..])
  }

  /** The round trip for words joined by single spaces, the separation
      the word-level reading of a run uses. */
  lemma ScanOptionsOfWords(words: seq<string>)
    requires forall k :: 0 <= k < |words| ==> |words[k]| > 0 && NoSpace(words[k])
    ensures ScanOptions(JoinWords(words)) == OptionScan(LowerAll(words), "")
  {
    SingleSpaces(words);
    ScanOptionsOfSeparatedWords(words, seq(if |words| == 0 then 0 else |words| - 1, _ => " "));
  }

  /** Separators for `words`: one between each two neighbouring words,
      each a non-empty run of whitespace. */
  ghost predicate Separators(words: seq<string>, seps: seq<string>)
  {
    (if |words| == 0 then |seps| == 0 else |seps| == |words| - 1) &&
    forall k :: 0 <= k < |seps| ==> |seps[k]| > 0 && AllSpace(seps[k])
  }

  /** Words joined by the given separators: `seps[k]` stands between
      `words[k]` and `words[k + 1]`. */
  function JoinWith(words: seq<string>, seps: seq<string>): string
    requires |seps| + 1 >= |words|
  {
    if |words| == 0 then ""
    else if |words| == 1 then words[0]
    else words[0] + seps[0] + JoinWith(words[1..], seps[1..])
  }

  /** The round trip over any separation: words joined by runs of
      whitespace come back as the options, one per word, lower-cased and in
      order, with nothing left over. The number of whitespace characters
      between two words, and which whitespace characters they are, make no
      difference. */
  lemma {:induction false} ScanOptionsOfSeparatedWords(words: seq<string>, seps: seq<string>)
    requires forall k :: 0 <= k < |words| ==> |words[k]| > 0 && NoSpace(words[k])
    requires Separators(words, seps)
    ensures ScanOptions(JoinWith(words, seps)) == OptionScan(LowerAll(words), "")
    decreases |words|
  {
    if |words| == 0 {
      assert LowerAll(words) == [];
    } else if |words| == 1 {
      var w := words[0];
      LeadingTokenOfWord(w, "");
      assert w[|w|..] == [];
      assert LowerAll(words) == [Lower(w)];
    } else {
      var w, sep := words[0], seps[0];
      var tail := JoinWith(words[1..], seps[1..]);
      assert Separators(words[1..], seps[1..]) by {
        assert forall k :: 0 <= k < |seps[1..]| ==> seps[1..][k] == seps[k + 1];
      }
      ScanOptionsOfSeparatedWords(words[1..], seps[1..]);
      assert tail == [] || !IsSpace(tail[0]) by {
        assert words[1..][0] == words[1];
        if |words[1..]| > 1 {
          assert tail[0] == words[1][0];
        }
      }
      ScanOptionsAfterSeparator(w, sep, tail);
      assert JoinWith(words, seps) == w + sep + tail;
      assert LowerAll(words) == [Lower(w)] + LowerAll(words[1..]);
    }
  }

  /** One step of the scan: a word and the whitespace after it give one
      option, and the scan goes on with the text after the whitespace. */
  lemma ScanOptionsAfterSeparator(w: string, sep: string, tail: string)
    requires |w| > 0 && NoSpace(w) && |sep| > 0 && AllSpace(sep)
    requires tail == [] || !IsSpace(tail[0])
    ensures ScanOptions(w + sep + tail) ==
      OptionScan([Lower(w)] + ScanOptions(tail).options, ScanOptions(tail).rest)
  {
    LeadingTokenOfSeparatedWord(w, sep, tail);
    assert (w + sep + tail)[|w| + |sep|..] == tail;
  }

  /** Single spaces are separators, and joining with them is `JoinWords`. */
  lemma {:induction false} SingleSpaces(words: seq<string>)
    ensures var seps := seq(if |words| == 0 then 0 else |words| - 1, _ => " ");
      Separators(words, seps) && JoinWith(words, seps) == JoinWords(words)
    decreases |words|
  {
    var seps := seq(if |words| == 0 then 0 else |words| - 1, _ => " ");
    assert forall k :: 0 <= k < |seps| ==> seps[k] == " " && IsSpace(seps[k][0]);
    if |words| > 1 {
      SingleSpaces(words[1..]);
      assert seps[1..] == seq(|words[1..]| - 1, _ => " ");
    }
  }

  /** `extractOptions`: stores the options and returns the trimmed
      remainder; only `options` is written. */
  method ExtractOptions(input: string, instruction: Instruction) returns (rest: string)
    modifies instruction
    ensures instruction.State() == old(instruction.State()).(options := ScanOptions(input).options)
    ensures rest == Trim(ScanOptions(input).rest)
  {
    var options: seq<string> := [];
    var s := input;
    var optionMatch := LeadingToken(s);
    assert [] + ScanOptions(s).options == ScanOptions(s).options;
    while optionMatch.Some?
      invariant optionMatch == LeadingToken(s)
      invariant options + ScanOptions(s).options == ScanOptions(input).options
      invariant ScanOptions(s).rest == ScanOptions(input).rest
      invariant unchanged(instruction)
      decreases |s|
    {
      var t := optionMatch.value;
      var r := ScanOptions(s[t.length..]);
      assert ScanOptions(s) == OptionScan([Lower(t.text)] + r.options, r.rest);
      assert options + ([Lower(t.text)] + r.options) == (options + [Lower(t.text)]) + r.options;
      options := options + [Lower(t.text)];
      assert Splice(s, 0, t.length) == s[t.length..];
      s := Splice(s, 0, t.length);
      optionMatch := LeadingToken(s);
    }
    assert options + [] == options;
    instruction.options := options;
    return Trim(s);
  }

  /** A slot accepts an option when it is the no-constraint marker or its
      pattern is found in the option. */
  predicate SlotAccepts(slot: Option<Pattern>, option: string)
  {
    slot.None? || Matches(slot.value, option)
  }

  /** The number of slots that are not the no-constraint marker. */
  function RequiredCount(slots: Slots): (n: nat)
    ensures n <= |slots|
    ensures n == 0 <==> forall k :: 0 <= k < |slots| ==> slots[k].None?
  {
    if |slots| == 0 then 0
    else
      var m := RequiredCount(slots[1..]);
      assert forall k :: 1 <= k < |slots| ==> slots[k] == slots[1..][k - 1];
      (if slots[0].Some? then 1 else 0) + m
  }

  /** The first position whose slot rejects its option. */
  function FirstBadOption(options: seq<string>, slots: Slots): (r: Option<nat>)
    requires |options| <= |slots|
    ensures r.None? <==> forall k :: 0 <= k < |options| ==> SlotAccepts(slots[k], options[k])
    ensures r.Some? ==>
      (r.value < |options| && !SlotAccepts(slots[r.value], options[r.value]) &&
       forall k :: 0 <= k < r.value ==> SlotAccepts(slots[k], options[k]))
  {
    if |options| == 0 then None
    else if !SlotAccepts(slots[0], options[0]) then Some(0)
    else
      var r := FirstBadOption(options[1..], slots[1..]);
      assert forall k :: 1 <= k < |options| ==> options[k] == options[1..][k - 1] && slots[k] == slots[1..][k - 1];
      match r
      case None => None
      case Some(i) => Some(i + 1)
  }

  /** `validateOptions` as a value: an empty slot list accepts any options;
      otherwise there must be no more options than slots, at least as many
      options as required slots, and each option must be accepted by the
      slot at its position. The position in `InvalidOption` counts from 1. */
  function CheckOptions(options: seq<string>, slots: Slots): (r: Outcome)
    ensures r.Pass? <==>
      (|slots| == 0 ||
       (|options| <= |slots| && RequiredCount(slots) <= |options| &&
        forall k :: 0 <= k < |options| ==> SlotAccepts(slots[k], options[k])))
    ensures r.Fail? ==> |slots| > 0
    ensures r == Fail(TooManyOptions(|slots|, |options|)) <==> 0 < |slots| < |options|
    ensures r == Fail(TooFewOptions(RequiredCount(slots), |options|)) <==>
      0 < |slots| && |options| <= |slots| && |options| < RequiredCount(slots)
    ensures r.Fail? ==> r.error.TooManyOptions? || r.error.TooFewOptions? || r.error.InvalidOption?
    ensures r.Fail? && r.error.TooFewOptions? ==>
      |options| <= |slots| && r.error == TooFewOptions(RequiredCount(slots), |options|) &&
      |options| < RequiredCount(slots)
    ensures r.Fail? && r.error.InvalidOption? ==>
      var i := r.error.position - 1;
      |options| <= |slots| && RequiredCount(slots) <= |options| &&
      0 <= i < |options| && r.error.option == options[i] && !SlotAccepts(slots[i], options[i]) &&
      forall k :: 0 <= k < i ==> SlotAccepts(slots[k], options[k])
  {
    if |slots| == 0 then Pass
    else if |slots| < |options| then Fail(TooManyOptions(|slots|, |options|))
    else if RequiredCount(slots) > |options| then Fail(TooFewOptions(RequiredCount(slots), |options|))
    else match FirstBadOption(options, slots)
      case None => Pass
      case Some(i) => Fail(InvalidOption(i + 1, options[i]))
  }

  /** `validateOptions`: the count checks, then the options in order,
      skipping the positions whose slot is the no-constraint marker. */
  method ValidateOptions(options: seq<string>, validOptions: Slots) returns (r: Outcome)
    ensures r == CheckOptions(options, validOptions)
  {
    var maxAcceptedOpts := |validOptions|;
    if maxAcceptedOpts == 0 {
      return Pass;
    }
    var numProvidedOpts := |options|;
    if maxAcceptedOpts < numProvidedOpts {
      return Fail(TooManyOptions(maxAcceptedOpts, numProvidedOpts));
    }
    var numRequiredOpts := RequiredCount(validOptions);
    if numRequiredOpts > numProvidedOpts {
      return Fail(TooFewOptions(numRequiredOpts, numProvidedOpts));
    }
    for i := 0 to numProvidedOpts
      invariant forall k :: 0 <= k < i ==> SlotAccepts(validOptions[k], options[k])
    {
      var optionRegEx := validOptions[i];
      if optionRegEx.None? {
        continue;
      }
      if !Matches(optionRegEx.value, options[i]) {
        FirstBadOptionAt(options, validOptions, i);
        return Fail(InvalidOption(i + 1, options[i]));
      }
    }
    return Pass;
  }

  /** A position that rejects its option after only accepting ones is the
      first bad option. */
  lemma FirstBadOptionAt(options: seq<string>, slots: Slots, i: nat)
    requires |options| <= |slots| && i < |options|
    requires !SlotAccepts(slots[i], options[i])
    requires forall k :: 0 <= k < i ==> SlotAccepts(slots[k], options[k])
    ensures FirstBadOption(options, slots) == Some(i)
  {
  }

  /** Slots are positional and the required count is only a count: a
      no-constraint slot in front of a pattern slot lets a single option
      through, even though no option reaches the pattern slot. */
  lemma RequiredCountIsOnlyACount(p: Pattern, option: string)
    ensures CheckOptions([option], [None, Some(p)]) == Pass
  {
    assert RequiredCount([None, Some(p)]) == 1 by {
      assert [None, Some(p)][1..] == [Some(p)];
      assert [Some(p)][1..] == [];
    }
  }
}
