/** A word-level reading of `parseInput`. For an input made of words joined
    by single spaces, where every word either starts a flag (a dash and at
    least one more character) or holds no flag match at all, a run can be
    told word by word: the first word is the command; a flag word is a flag,
    which takes the next word as its argument when it is a schema key whose
    resolved entry declares `arg`; every other word is the next option.
    `ParseOfWords` proves that the character-level pipeline computes exactly
    this reading. */
module Words {
  import opened Config
  import opened Strings
  import opened Normalize
  import opened CommandStage
  import opened ExtractionLoop
  import opened FlagStage
  import opened OptionStage
  import opened Parser

  /** A word the flag regular expression matches at its first character. */
  predicate StartsFlag(w: string)
  {
    |w| >= 2 && w[0] == '-'
  }

  /** No dash before the last character: a dash at the end of a word is
      followed by a space or ends the input, so it starts no match. */
  predicate DashFree(w: string)
  {
    forall k :: 0 <= k < |w| - 1 ==> w[k] != '-'
  }

  /** A word of this reading: non-empty, without whitespace, and either a
      flag word or free of flag matches. A word such as `a-b`, which holds a
      match after its start, is outside it. */
  ghost predicate IsWord(w: string)
  {
    |w| > 0 && NoSpace(w) && (StartsFlag(w) || DashFree(w))
  }

  ghost predicate AllWords(ws: seq<string>)
  {
    forall k :: 0 <= k < |ws| ==> IsWord(ws[k])
  }

  /** Every word is non-empty and holds no whitespace. */
  ghost predicate SolidWords(ws: seq<string>)
  {
    forall k :: 0 <= k < |ws| ==> |ws[k]| > 0 && NoSpace(ws[k])
  }

  /** The words after the first `n` are words too. */
  lemma AllWordsDrop(ws: seq<string>, n: nat)
    requires AllWords(ws) && n <= |ws|
    ensures AllWords(ws[n..]) && SolidWords(ws[n..]) && SolidWords(ws)
  {
    assert forall k :: 0 <= k < |ws[n..]| ==> ws[n..][k] == ws[k + n];
  }

  lemma SolidWordsDrop(ws: seq<string>, n: nat)
    requires SolidWords(ws) && n <= |ws|
    ensures SolidWords(ws[n..])
  {
    assert forall k :: 0 <= k < |ws[n..]| ==> ws[n..][k] == ws[k + n];
  }

  /** The flags found and the words kept as options. */
  datatype WordScan = WordScan(flags: seq<Flag>, kept: seq<string>)

  function KeepWord(w: string, r: Result<WordScan>): Result<WordScan>
  {
    match r
    case Err(e) => Err(e)
    case Ok(scan) => Ok(WordScan(scan.flags, [w] + scan.kept))
  }

  function AddFlag(f: Flag, r: Result<WordScan>): Result<WordScan>
  {
    match r
    case Err(e) => Err(e)
    case Ok(scan) => Ok(WordScan([f] + scan.flags, scan.kept))
  }

  /** The flag stage, word by word: a word that is not a flag is kept; a
      flag word that is not a key is a flag without argument; a key whose
      alias names no entry is the failure; a key whose resolved entry
      declares `arg` takes the next word, if there is one, as its argument;
      any other key is a flag without argument. The kept words are words of
      the input, and every word is used once. */
  function ScanWords(ws: seq<string>, fs: FlagSchema): (r: Result<WordScan>)
    ensures r.Ok? ==> |r.value.flags| + |r.value.kept| <= |ws|
    ensures r.Ok? ==> forall k :: 0 <= k < |r.value.kept| ==> r.value.kept[k] in ws
    decreases |ws|
  {
    if |ws| == 0 then Ok(WordScan([], []))
    else if !StartsFlag(ws[0]) then
      var r := ScanWords(ws[1..], fs);
      assert forall w :: w in ws[1..] ==> w in ws;
      KeepWord(ws[0], r)
    else
      var name := Lower(ws[0]);
      if name !in fs then AddFlag(Flag(name, None), ScanWords(ws[1..], fs))
      else if HasAlias(fs[name]) && fs[name].alias.value !in fs then
        Err(AliasTargetMissing(name, fs[name].alias.value))
      else if Resolve(fs, name).arg.Some? && |ws| > 1 then
        var r := ScanWords(ws[2..], fs);
        assert forall w :: w in ws[2..] ==> w in ws;
        AddFlag(Flag(name, Some(Lower(ws[1]))), r)
      else
        var r := ScanWords(ws[1..], fs);
        assert forall w :: w in ws[1..] ==> w in ws;
        AddFlag(Flag(name, None), r)
  }

  /** The loop agrees with the word-level scan: the same failure, or the
      same flags and a remainder that is the kept words joined by single
      spaces, with at most one space after them. */
  ghost predicate Agrees(r: Result<FlagScan>, w: Result<WordScan>)
  {
    match w
    case Err(e) => r == Err(e)
    case Ok(scan) =>
      r.Ok? && r.value.flags == scan.flags &&
      (r.value.rest == JoinWords(scan.kept) || (|scan.kept| > 0 && r.value.rest == JoinWords(scan.kept) + " "))
  }

  /** Joined words start and end with a non-whitespace character. */
  lemma {:induction false} JoinWordsEnds(ws: seq<string>)
    requires SolidWords(ws)
    ensures |ws| > 0 ==> |JoinWords(ws)| > 0
    ensures |ws| > 0 ==> JoinWords(ws)[0] == ws[0][0]
    ensures |ws| > 0 ==> !IsSpace(JoinWords(ws)[0]) && !IsSpace(JoinWords(ws)[|JoinWords(ws)| - 1])
    decreases |ws|
  {
    if |ws| > 1 {
      var t := JoinWords(ws[1..]);
      assert ws[1..][0] == ws[1];
      SolidWordsDrop(ws, 1);
      JoinWordsEnds(ws[1..]);
      var s := ws[0] + " " + t;
      assert s[0] == ws[0][0];
      assert s[|s| - 1] == t[|t| - 1];
    } else if |ws| == 1 {
      assert JoinWords(ws)[|ws[0]| - 1] == ws[0][|ws[0]| - 1];
    }
  }

  /** The leading word of joined words is the first word, and what follows
      its span is the join of the other words. */
  lemma LeadingWord(ws: seq<string>)
    requires |ws| > 0
    requires SolidWords(ws)
    ensures LeadingToken(JoinWords(ws)).Some?
    ensures LeadingToken(JoinWords(ws)).value.text == ws[0]
    ensures JoinWords(ws)[LeadingToken(JoinWords(ws)).value.length..] == JoinWords(ws[1..])
  {
    var w := ws[0];
    if |ws| == 1 {
      LeadingTokenOfWord(w, "");
      assert w[|w|..] == [];
    } else {
      var t := JoinWords(ws[1..]);
      SolidWordsDrop(ws, 1);
      JoinWordsEnds(ws[1..]);
      LeadingTokenOfWord(w, t);
      assert (w + " " + t)[|w| + 1..] == t;
    }
  }

  /** Trimming joined words, with or without one space after them, gives
      the joined words. */
  lemma TrimJoined(ws: seq<string>)
    requires SolidWords(ws)
    ensures Trim(JoinWords(ws)) == JoinWords(ws)
    ensures |ws| > 0 ==> Trim(JoinWords(ws) + " ") == JoinWords(ws)
  {
    JoinWordsEnds(ws);
    TrimOfTrimmed(JoinWords(ws));
    if |ws| > 0 {
      TrimSpaceAfter(JoinWords(ws));
    }
  }

  /** Trimming text that has whitespace at neither end, with a space
      after it, gives the text. */
  lemma TrimSpaceAfter(j: string)
    requires |j| > 0 && !IsSpace(j[0]) && !IsSpace(j[|j| - 1])
    ensures Trim(j + " ") == j
  {
    var s := j + " ";
    assert s[0] == j[0];
    assert SpaceEnd(s, 0) == 0;
    assert s[0..] == s;
    assert TrimStart(s) == s;
    assert s[..|s| - 1] == j;
    assert TrimEnd(j) == j;
    assert TrimEnd(s) == TrimEnd(j);
  }

  /** A word without flag matches in front of a space leaves the loop
      untouched: the loop over the whole input is the loop over the text
      after the space, with the word and the space in front of its
      remainder. */
  lemma DashFreeHead(w: string, t: string, pass: Pass)
    requires |w| > 0 && NoSpace(w) && DashFree(w)
    requires Progressing(pass)
    ensures Scan(w + " " + t, pass) == PrependText(w + " ", Scan(t, pass))
  {
    var pre := w + " ";
    assert pre + t[0..] == w + " " + t;
    forall x | 0 <= x < |pre|
      ensures !FlagAt(pre + t[0..], x)
    {
      var u := pre + t[0..];
      if x + 1 < |w| {
        assert u[x] == w[x];
      } else if x + 1 == |w| {
        assert u[x + 1] == ' ';
      } else {
        assert u[x] == ' ';
      }
    }
    ScanShifted(pre, t, 0, pass);
    ScanIsLeftToRight(t, pass);
  }

  /** A word without flag matches, alone, is left as it is. */
  lemma DashFreeAlone(w: string, pass: Pass)
    requires |w| > 0 && NoSpace(w) && DashFree(w)
    requires Progressing(pass)
    ensures Scan(w, pass) == Ok(FlagScan([], w))
  {
  }

  /** The step of a word without flag matches. */
  lemma {:induction false} DashFreeStep(ws: seq<string>, fs: FlagSchema)
    requires |ws| > 0 && AllWords(ws) && !StartsFlag(ws[0])
    requires Agrees(ScanFlags(JoinWords(ws[1..]), fs), ScanWords(ws[1..], fs))
    ensures Agrees(ScanFlags(JoinWords(ws), fs), ScanWords(ws, fs))
  {
    var w := ws[0];
    assert IsWord(w);
    var pass := FlagPass(fs);
    if |ws| == 1 {
      DashFreeAlone(w, pass);
      assert ws[1..] == [];
      assert JoinWords([w]) == w;
    } else {
      var t := JoinWords(ws[1..]);
      DashFreeHead(w, t, pass);
      AgreesOnKept(w, ScanFlags(t, fs), ScanWords(ws[1..], fs));
    }
  }

  /** Keeping one more word in front keeps the agreement. */
  lemma AgreesOnKept(w: string, r: Result<FlagScan>, wr: Result<WordScan>)
    requires Agrees(r, wr)
    ensures Agrees(PrependText(w + " ", r), KeepWord(w, wr))
  {
    match wr
    case Err(e) =>
    case Ok(scan) =>
      JoinInFront(w, scan.kept);
      var rest := r.value.rest;
      if rest == JoinWords(scan.kept) {
        if |scan.kept| == 0 {
          JoinInFront(w, []);
          assert [w] + scan.kept == [w];
        }
      } else {
        assert (w + " ") + (JoinWords(scan.kept) + " ") == (w + " " + JoinWords(scan.kept)) + " ";
      }
  }

  /** The loop over joined words whose first word is a flag word: the pass
      at position 0 decides. */
  /** A flag word starts with a flag match. */
  lemma FlagWordAt(ws: seq<string>)
    requires |ws| > 0 && AllWords(ws) && StartsFlag(ws[0])
    ensures FlagAt(JoinWords(ws), 0)
  {
    var s := JoinWords(ws);
    AllWordsDrop(ws, 1);
    LeadingWord(ws);
    assert s[..|ws[0]|] == ws[0];
    assert s[0] == ws[0][0] && s[1] == ws[0][1];
  }

  /** The first two words are the first two tokens, and what follows them
      is the join of the rest. */
  lemma {:induction false} TwoLeadingWords(ws: seq<string>)
    requires |ws| > 1 && AllWords(ws)
    ensures LeadingToken(JoinWords(ws)).Some? && LeadingToken(JoinWords(ws)).value.text == ws[0]
    ensures var n := LeadingToken(JoinWords(ws)).value.length;
      LeadingToken(JoinWords(ws)[n..]).Some? && LeadingToken(JoinWords(ws)[n..]).value.text == ws[1] &&
      JoinWords(ws)[n + LeadingToken(JoinWords(ws)[n..]).value.length..] == JoinWords(ws[2..])
  {
    var s := JoinWords(ws);
    AllWordsDrop(ws, 1);
    LeadingWord(ws);
    var rest := ws[1..];
    assert rest[0] == ws[1] && rest[1..] == ws[2..];
    LeadingWordAt(s, LeadingToken(s).value.length, rest);
  }

  /** Joined words found at a position of a longer text. */
  lemma {:induction false} LeadingWordAt(s: string, n: nat, rest: seq<string>)
    requires n <= |s| && |rest| > 0 && SolidWords(rest) && s[n..] == JoinWords(rest)
    ensures LeadingToken(s[n..]).Some? && LeadingToken(s[n..]).value.text == rest[0]
    ensures s[n + LeadingToken(s[n..]).value.length..] == JoinWords(rest[1..])
  {
    LeadingWord(rest);
    var a := LeadingToken(s[n..]).value;
    assert s[n..][a.length..] == s[n + a.length..];
  }

  lemma FlagWordScan(ws: seq<string>, fs: FlagSchema)
    requires |ws| > 0 && AllWords(ws) && StartsFlag(ws[0])
    ensures FlagAt(JoinWords(ws), 0)
    ensures ScanFlags(JoinWords(ws), fs) ==
      match FlagStepOn(JoinWords(ws), fs)
      case Err(e) => Err(e)
      case Ok(step) => PrependFlags([step.flag], ScanFlags(Splice(JoinWords(ws), 0, step.removed), fs))
  {
    var s := JoinWords(ws);
    AllWordsDrop(ws, 1);
    LeadingWord(ws);
    assert s[..|ws[0]|] == ws[0];
    assert s[0] == ws[0][0] && s[1] == ws[0][1];
    LeftmostIs(s, 0);
    assert s[0..] == s;
    assert ScanFlags(s, fs) == ScanAt(s, 0, FlagPass(fs));
  }

  /** The argument a flag word takes: the next word when the name is a key
      whose resolved entry declares `arg` and a word follows. */
  predicate TakesArgument(ws: seq<string>, fs: FlagSchema)
    requires |ws| > 0
  {
    var name := Lower(ws[0]);
    name in fs && !(HasAlias(fs[name]) && fs[name].alias.value !in fs) &&
    Resolve(fs, name).arg.Some? && |ws| > 1
  }

  /** The pass at a flag word that takes no argument: it fails on a missing
      alias target, and otherwise records the name alone and removes the
      word and the space after it. */
  lemma {:induction false} FlagWithoutArgument(ws: seq<string>, fs: FlagSchema)
    requires |ws| > 0 && AllWords(ws) && StartsFlag(ws[0]) && !TakesArgument(ws, fs)
    ensures FlagAt(JoinWords(ws), 0)
    ensures var name := Lower(ws[0]);
      name in fs && HasAlias(fs[name]) && fs[name].alias.value !in fs ==>
        FlagStepOn(JoinWords(ws), fs) == Err(AliasTargetMissing(name, fs[name].alias.value))
    ensures var name := Lower(ws[0]);
      !(name in fs && HasAlias(fs[name]) && fs[name].alias.value !in fs) ==>
        FlagStepOn(JoinWords(ws), fs).Ok? &&
        FlagStepOn(JoinWords(ws), fs).value.flag == Flag(name, None) &&
        Splice(JoinWords(ws), 0, FlagStepOn(JoinWords(ws), fs).value.removed) == JoinWords(ws[1..])
  {
    var s := JoinWords(ws);
    FlagWordScan(ws, fs);
    AllWordsDrop(ws, 1);
    LeadingWord(ws);
    var m := LeadingToken(s).value;
    assert s[m.length..] == JoinWords(ws[1..]);
    assert LeadingToken(s[m.length..]).Some? <==> |ws| > 1 by {
      if |ws| > 1 {
        assert ws[1..][0] == ws[1];
        JoinWordsEnds(ws[1..]);
      }
    }
    assert Splice(s, 0, m.length) == s[m.length..];
    PassTakesNoArgument(s, fs, m);
  }

  /** The pass when the name is not a key, its alias names no entry, its
      resolved entry declares no `arg`, or no word follows the match. */
  lemma PassTakesNoArgument(tail: string, fs: FlagSchema, m: Token)
    requires FlagAt(tail, 0) && LeadingToken(tail) == Some(m)
    requires var name := Lower(m.text);
      !(name in fs && !(HasAlias(fs[name]) && fs[name].alias.value !in fs) &&
        Resolve(fs, name).arg.Some? && LeadingToken(tail[m.length..]).Some?)
    ensures var name := Lower(m.text);
      FlagStepOn(tail, fs) ==
        if name in fs && HasAlias(fs[name]) && fs[name].alias.value !in fs
        then Err(AliasTargetMissing(name, fs[name].alias.value))
        else Ok(FlagStep(Flag(name, None), m.length))
  {
  }

  /** The pass at a flag word that takes the next word: it records the
      name with that word, lower-cased, and removes both words. */
  lemma {:induction false} FlagWithArgument(ws: seq<string>, fs: FlagSchema)
    requires |ws| > 0 && AllWords(ws) && StartsFlag(ws[0]) && TakesArgument(ws, fs)
    ensures FlagAt(JoinWords(ws), 0)
    ensures FlagStepOn(JoinWords(ws), fs).Ok?
    ensures FlagStepOn(JoinWords(ws), fs).value.flag == Flag(Lower(ws[0]), Some(Lower(ws[1])))
    ensures Splice(JoinWords(ws), 0, FlagStepOn(JoinWords(ws), fs).value.removed) == JoinWords(ws[2..])
  {
    var s := JoinWords(ws);
    FlagWordAt(ws);
    TwoLeadingWords(ws);
    var m := LeadingToken(s).value;
    var a := LeadingToken(s[m.length..]).value;
    assert Splice(s, 0, m.length + a.length) == s[m.length + a.length..];
    PassTakesArgument(s, fs, m, a);
  }

  /** The pass when the name is a key that resolves to an entry declaring
      `arg` and a word follows the match. */
  lemma PassTakesArgument(tail: string, fs: FlagSchema, m: Token, a: Token)
    requires FlagAt(tail, 0) && LeadingToken(tail) == Some(m) && LeadingToken(tail[m.length..]) == Some(a)
    requires var name := Lower(m.text);
      name in fs && !(HasAlias(fs[name]) && fs[name].alias.value !in fs) && Resolve(fs, name).arg.Some?
    ensures FlagStepOn(tail, fs) == Ok(FlagStep(Flag(Lower(m.text), Some(Lower(a.text))), m.length + a.length))
  {
  }

  /** The step of a flag word. */
  lemma {:induction false} FlagWordStep(ws: seq<string>, fs: FlagSchema)
    requires |ws| > 0 && AllWords(ws) && StartsFlag(ws[0])
    requires Agrees(ScanFlags(JoinWords(ws[1..]), fs), ScanWords(ws[1..], fs))
    requires |ws| > 1 ==> Agrees(ScanFlags(JoinWords(ws[2..]), fs), ScanWords(ws[2..], fs))
    ensures Agrees(ScanFlags(JoinWords(ws), fs), ScanWords(ws, fs))
  {
    var name := Lower(ws[0]);
    FlagWordScan(ws, fs);
    if TakesArgument(ws, fs) {
      FlagWithArgument(ws, fs);
      AgreesOnFlag(Flag(name, Some(Lower(ws[1]))), ScanFlags(JoinWords(ws[2..]), fs), ScanWords(ws[2..], fs));
    } else {
      FlagWithoutArgument(ws, fs);
      AgreesOnFlag(Flag(name, None), ScanFlags(JoinWords(ws[1..]), fs), ScanWords(ws[1..], fs));
    }
  }

  /** Recording one more flag in front keeps the agreement. */
  lemma AgreesOnFlag(f: Flag, r: Result<FlagScan>, w: Result<WordScan>)
    requires Agrees(r, w)
    ensures Agrees(PrependFlags([f], r), AddFlag(f, w))
  {
  }

  /** The extraction loop over joined words is the word-level scan. */
  lemma {:induction false} ScanFlagsOfWords(ws: seq<string>, fs: FlagSchema)
    requires AllWords(ws)
    ensures Agrees(ScanFlags(JoinWords(ws), fs), ScanWords(ws, fs))
    decreases |ws|
  {
    if |ws| == 0 {
      assert FindFlag("") == None;
      assert ScanFlags("", fs) == Ok(FlagScan([], ""));
    } else {
      assert AllWords(ws[1..]) by {
        assert forall k :: 0 <= k < |ws[1..]| ==> ws[1..][k] == ws[k + 1];
      }
      ScanFlagsOfWords(ws[1..], fs);
      if |ws| > 1 {
        assert AllWords(ws[2..]) by {
          assert forall k :: 0 <= k < |ws[2..]| ==> ws[2..][k] == ws[k + 2];
        }
        ScanFlagsOfWords(ws[2..], fs);
      }
      if StartsFlag(ws[0]) {
        FlagWordStep(ws, fs);
      } else {
        DashFreeStep(ws, fs);
      }
    }
  }

  // ---------------------------------------------------------------------
  // The whole run, word by word.
  // ---------------------------------------------------------------------

  /** A run on the command word `cmd` followed by the words `ws`, told word
      by word against normalized schemas: the command is the lower-cased
      first word; then the flags of `ScanWords` are recorded and checked;
      then the kept words, lower-cased, are the options and are checked; a
      run that passes returns the empty string. */
  function RunWords(cmd: string, ws: seq<string>, start: InstructionState,
                    commandData: CommandSchema, flagData: FlagSchema): ParseOutcome
  {
    var withCommand := start.(command := Lower(cmd));
    match ValidateCommand(Lower(cmd), commandData.Keys)
    case Fail(e) => ParseOutcome(Err(e), withCommand)
    case Pass => FlagWords(ws, withCommand, commandData, flagData)
  }

  function FlagWords(ws: seq<string>, state: InstructionState,
                     commandData: CommandSchema, flagData: FlagSchema): ParseOutcome
  {
    match ScanWords(ws, flagData)
    case Err(e) => ParseOutcome(Err(e), state)
    case Ok(scan) =>
      var withFlags := state.(flags := scan.flags);
      match CheckFlags(scan.flags, flagData, state.command)
      case Fail(e) => ParseOutcome(Err(e), withFlags)
      case Pass => OptionWords(scan.kept, withFlags, CommandSlots(commandData, state.command))
  }

  function OptionWords(kept: seq<string>, state: InstructionState, slots: Slots): ParseOutcome
  {
    var withOptions := state.(options := LowerAll(kept));
    match CheckOptions(LowerAll(kept), slots)
    case Fail(e) => ParseOutcome(Err(e), withOptions)
    case Pass => ParseOutcome(Ok(""), withOptions)
  }

  /** The kept words, as the option stage reads them: trimmed, they are
      the joined kept words, and the options are those words lower-cased. */
  lemma KeptWordsAreOptions(ws: seq<string>, fs: FlagSchema, flagScan: FlagScan)
    requires AllWords(ws) && ScanWords(ws, fs).Ok?
    requires Agrees(Ok(flagScan), ScanWords(ws, fs))
    ensures var kept := ScanWords(ws, fs).value.kept;
      ScanOptions(Trim(flagScan.rest)) == OptionScan(LowerAll(kept), "")
  {
    var kept := ScanWords(ws, fs).value.kept;
    AllWordsDrop(ws, 0);
    assert SolidWords(kept) by {
      forall k | 0 <= k < |kept|
        ensures |kept[k]| > 0 && NoSpace(kept[k])
      {
        var i :| 0 <= i < |ws| && ws[i] == kept[k];
      }
    }
    TrimJoined(kept);
    ScanOptionsOfWords(kept);
  }

  /** The flag and option stages over joined words are their word-level
      reading. */
  lemma FlagStagesOfWords(ws: seq<string>, state: InstructionState,
                          commandData: CommandSchema, flagData: FlagSchema)
    requires AllWords(ws)
    ensures FlagStages(JoinWords(ws), state, commandData, flagData) == FlagWords(ws, state, commandData, flagData)
  {
    ScanFlagsOfWords(ws, flagData);
    if ScanWords(ws, flagData).Ok? {
      var scan := ScanWords(ws, flagData).value;
      var flagScan := ScanFlags(JoinWords(ws), flagData).value;
      KeptWordsAreOptions(ws, flagData, flagScan);
      OptionStagesOfKept(Trim(flagScan.rest), scan.kept, state.(flags := scan.flags),
                         CommandSlots(commandData, state.command));
    }
  }

  lemma OptionStagesOfKept(rest: string, kept: seq<string>, state: InstructionState, slots: Slots)
    requires ScanOptions(rest) == OptionScan(LowerAll(kept), "")
    ensures OptionStages(rest, state, slots) == OptionWords(kept, state, slots)
  {
    assert Trim(Trim("")) == "";
  }

  /** The command word in front of the other words splits off as the
      lower-cased command, leaving the other words joined. */
  lemma SplitOfWords(cmd: string, ws: seq<string>)
    requires |cmd| > 0 && NoSpace(cmd) && AllWords(ws)
    ensures JoinWords([cmd] + ws) != ""
    ensures SplitCommand(JoinWords([cmd] + ws)) == CommandSplit(Lower(cmd), JoinWords(ws))
  {
    assert forall i :: 0 <= i < |cmd| ==> cmd[i] != ' ' by {
      forall i | 0 <= i < |cmd|
        ensures cmd[i] != ' '
      {
        assert !IsSpace(cmd[i]);
      }
    }
    JoinInFront(cmd, ws);
    if |ws| == 0 {
      SplitCommandOfWord(cmd, "");
    } else {
      SplitCommandOfWord(cmd, JoinWords(ws));
      AllWordsDrop(ws, 0);
      TrimJoined(ws);
    }
  }

  /** One word in front of joined words. */
  lemma JoinInFront(w: string, ws: seq<string>)
    ensures JoinWords([w] + ws) == if |ws| == 0 then w else w + " " + JoinWords(ws)
  {
    assert ([w] + ws)[0] == w;
    assert ([w] + ws)[1..] == ws;
  }

  /** The theorem: on words joined by single spaces, `parseInput` is its
      word-level reading, against the normalized schemas. */
  lemma ParseOfWords(cmd: string, ws: seq<string>, start: InstructionState,
                     commands: CommandSchema, flags: FlagSchema)
    requires LowerInjective(commands.Keys) && LowerInjective(flags.Keys)
    requires |cmd| > 0 && NoSpace(cmd) && AllWords(ws)
    ensures Parse(JoinWords([cmd] + ws), start, commands, flags) ==
      RunWords(cmd, ws, start, LowerCommands(commands), LowerFlags(flags))
  {
    var input := JoinWords([cmd] + ws);
    var commandData, flagData := LowerCommands(commands), LowerFlags(flags);
    SplitOfWords(cmd, ws);
    assert Parse(input, start, commands, flags) == RunStages(input, start, commandData, flagData);
    FlagStagesOfWords(ws, start.(command := Lower(cmd)), commandData, flagData);
  }
}
