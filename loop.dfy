/** The extraction loop of `extractFlags`, apart from what one pass does:
    find the leftmost match of the flag regular expression
    `/(-{1,2}[^\s]+(?:\s+|$))/`, let the pass decide what to record and how
    much to remove, splice that span out and search again. The pass is a
    parameter here, so that the order of the loop is established once and
    for every pass that removes at least the match. */
module ExtractionLoop {
  import opened Config
  import opened Strings

  /** The flag regular expression matches at `i`: a dash followed by a
      non-whitespace character. Whether one or two dashes are taken, the
      match is the whole non-whitespace run from `i` and the whitespace after
      it, so the second dash needs no case of its own. The match is not
      anchored to a word start: in `a-b` the flag `-b` starts at 1. */
  predicate FlagAt(s: string, i: int)
  {
    0 <= i && i + 1 < |s| && s[i] == '-' && !IsSpace(s[i + 1])
  }

  /** The first flag match at or after `from`. */
  function FindFlagFrom(s: string, from: nat): (r: Option<nat>)
    requires from <= |s|
    ensures r.Some? ==> from <= r.value < |s| && FlagAt(s, r.value)
    ensures r.Some? ==> forall j :: from <= j < r.value ==> !FlagAt(s, j)
    ensures r.None? ==> forall j :: from <= j < |s| ==> !FlagAt(s, j)
    decreases |s| - from
  {
    if from == |s| then None
    else if FlagAt(s, from) then Some(from)
    else FindFlagFrom(s, from + 1)
  }

  /** `input.match(flagRegEx)`: the leftmost flag match, if any. */
  function FindFlag(s: string): Option<nat>
  {
    FindFlagFrom(s, 0)
  }

  lemma FlagAtTail(s: string, i: nat)
    requires FlagAt(s, i)
    ensures FlagAt(s[i..], 0)
  {
    assert s[i..][0] == s[i] && s[i..][1] == s[i + 1];
  }

  /** No flag match starts before `k`. */
  ghost predicate NoFlagBefore(t: string, k: int)
  {
    forall x :: 0 <= x < k ==> !FlagAt(t, x)
  }

  /** With no flag before `i` and one at `i`, the leftmost flag is at `i`. */
  lemma LeftmostIs(t: string, i: nat)
    requires i < |t| && FlagAt(t, i)
    requires NoFlagBefore(t, i)
    ensures FindFlag(t) == Some(i)
  {
    var r := FindFlagFrom(t, 0);
    assert r.Some? && r.value <= i;
  }

  /** One pass of the loop: the flag it records and how many characters it
      splices out. */
  datatype FlagStep = FlagStep(flag: Flag, removed: nat)

  /** A pass, given the input from the match position on. */
  type Pass = string --> Result<FlagStep>

  /** The pass applies at every match and, when it succeeds, removes at
      least the two characters that make the match and no more than there
      is. */
  ghost predicate Progressing(pass: Pass)
  {
    forall tail :: FlagAt(tail, 0) ==>
      pass.requires(tail) && (pass(tail).Ok? ==> 2 <= pass(tail).value.removed <= |tail|)
  }

  /** `input.substring(0, index) + input.substring(index + n)`. */
  function Splice(s: string, i: nat, n: nat): (r: string)
    requires i + n <= |s|
    ensures |r| == |s| - n
  {
    s[..i] + s[i + n..]
  }

  /** The flags found so far and the input left over. */
  datatype FlagScan = FlagScan(flags: seq<Flag>, rest: string)

  function PrependFlags(fl: seq<Flag>, r: Result<FlagScan>): Result<FlagScan>
  {
    match r
    case Ok(scan) => Ok(FlagScan(fl + scan.flags, scan.rest))
    case Err(e) => Err(e)
  }

  lemma PrependFlagsTwice(a: seq<Flag>, b: seq<Flag>, r: Result<FlagScan>)
    ensures PrependFlags(a, PrependFlags(b, r)) == PrependFlags(a + b, r)
    ensures PrependFlags([], r) == r
  {
    match r
    case Err(e) =>
    case Ok(scan) =>
      assert a + (b + scan.flags) == (a + b) + scan.flags;
      assert [] + scan.flags == scan.flags;
  }

  /** The loop, before the final trim: with no match the input is left as
      it is, otherwise the pass at the leftmost match decides. */
  function Scan(s: string, pass: Pass): Result<FlagScan>
    requires Progressing(pass)
    decreases |s|, 1
  {
    match FindFlag(s)
    case None => Ok(FlagScan([], s))
    case Some(i) => ScanAt(s, i, pass)
  }

  /** The loop from a pass at a match at `i`: a failing pass ends it, a
      successful one records its flag and the loop goes on with the span
      spliced out. */
  function ScanAt(s: string, i: nat, pass: Pass): Result<FlagScan>
    requires Progressing(pass) && FlagAt(s, i)
    decreases |s|, 0
  {
    FlagAtTail(s, i);
    match pass(s[i..])
    case Err(e) => Err(e)
    case Ok(step) => PrependFlags([step.flag], Scan(Splice(s, i, step.removed), pass))
  }

  /** When the loop succeeds, no flag is left in the remainder and every
      pass removed at least two characters. */
  lemma {:induction false} ScanShape(s: string, pass: Pass)
    requires Progressing(pass)
    ensures Scan(s, pass).Ok? ==> FindFlag(Scan(s, pass).value.rest) == None
    ensures Scan(s, pass).Ok? ==> |Scan(s, pass).value.rest| + 2 * |Scan(s, pass).value.flags| <= |s|
    decreases |s|
  {
    match FindFlag(s)
    case None =>
    case Some(i) =>
      FlagAtTail(s, i);
      assert Scan(s, pass) == ScanAt(s, i, pass);
      match pass(s[i..])
      case Err(e) =>
      case Ok(step) =>
        ScanShape(Splice(s, i, step.removed), pass);
  }

  /** A property that every flag recorded by a pass has, every flag the
      loop records has. */
  lemma {:induction false} ScanKeeps(s: string, pass: Pass, good: Flag -> bool)
    requires Progressing(pass)
    requires forall tail :: FlagAt(tail, 0) && pass(tail).Ok? ==> good(pass(tail).value.flag)
    ensures Scan(s, pass).Ok? ==>
      forall k :: 0 <= k < |Scan(s, pass).value.flags| ==> good(Scan(s, pass).value.flags[k])
    decreases |s|
  {
    match FindFlag(s)
    case None =>
    case Some(i) =>
      FlagAtTail(s, i);
      assert Scan(s, pass) == ScanAt(s, i, pass);
      match pass(s[i..])
      case Err(e) =>
      case Ok(step) =>
        var s' := Splice(s, i, step.removed);
        ScanKeeps(s', pass, good);
        if Scan(s', pass).Ok? {
          assert Scan(s, pass).value.flags == [step.flag] + Scan(s', pass).value.flags;
        }
  }

  /** A pass that never fails makes a loop that never fails. */
  lemma {:induction false} ScanSucceeds(s: string, pass: Pass)
    requires Progressing(pass)
    requires forall tail :: FlagAt(tail, 0) ==> pass(tail).Ok?
    ensures Scan(s, pass).Ok?
    decreases |s|
  {
    match FindFlag(s)
    case None =>
    case Some(i) =>
      FlagAtTail(s, i);
      assert Scan(s, pass) == ScanAt(s, i, pass);
      var step := pass(s[i..]).value;
      ScanSucceeds(Splice(s, i, step.removed), pass);
  }

  /** A failing loop fails with the error of one of its passes. */
  lemma {:induction false} ScanFailsByPass(s: string, pass: Pass)
    requires Progressing(pass)
    ensures Scan(s, pass).Err? ==>
      exists tail :: FlagAt(tail, 0) && pass(tail) == Err(Scan(s, pass).error)
    decreases |s|
  {
    match FindFlag(s)
    case None =>
    case Some(i) =>
      FlagAtTail(s, i);
      assert Scan(s, pass) == ScanAt(s, i, pass);
      match pass(s[i..])
      case Err(e) =>
        assert FlagAt(s[i..], 0) && pass(s[i..]) == Err(Scan(s, pass).error);
      case Ok(step) =>
        ScanFailsByPass(Splice(s, i, step.removed), pass);
  }

  /** Two passes that agree at every match give the same loop. */
  lemma {:induction false} ScanCongruent(s: string, pass: Pass, pass': Pass)
    requires Progressing(pass) && Progressing(pass')
    requires forall tail :: FlagAt(tail, 0) ==> pass(tail) == pass'(tail)
    ensures Scan(s, pass) == Scan(s, pass')
    decreases |s|
  {
    match FindFlag(s)
    case None =>
    case Some(i) =>
      FlagAtTail(s, i);
      assert Scan(s, pass) == ScanAt(s, i, pass);
      assert Scan(s, pass') == ScanAt(s, i, pass');
      match pass(s[i..])
      case Err(e) =>
      case Ok(step) =>
        ScanCongruent(Splice(s, i, step.removed), pass, pass');
  }

  // ---------------------------------------------------------------------
  // Left-to-right order. `ScanFrom` is an independent, single left-to-right
  // pass over the ORIGINAL input: it looks for the next flag at or after
  // `p`, keeps the text before it, and resumes after the removed span. That
  // the splice-and-rescan loop computes exactly this shows that flags come
  // out in the order of their positions in the input, from disjoint spans,
  // and that the remainder is the untouched text between them, in order.
  // ---------------------------------------------------------------------

  function PrependText(pre: string, r: Result<FlagScan>): Result<FlagScan>
  {
    match r
    case Ok(scan) => Ok(FlagScan(scan.flags, pre + scan.rest))
    case Err(e) => Err(e)
  }

  function ScanFrom(s: string, p: nat, pass: Pass): Result<FlagScan>
    requires p <= |s| && Progressing(pass)
    decreases |s| - p, 1
  {
    match FindFlagFrom(s, p)
    case None => Ok(FlagScan([], s[p..]))
    case Some(j) => ScanFromAt(s, p, j, pass)
  }

  /** The pass from `p` when its first match is at `j`. */
  function ScanFromAt(s: string, p: nat, j: nat, pass: Pass): Result<FlagScan>
    requires p <= j && FlagAt(s, j) && Progressing(pass)
    decreases |s| - p, 0
  {
    FlagAtTail(s, j);
    match pass(s[j..])
    case Err(e) => Err(e)
    case Ok(step) => PrependText(s[p..j], PrependFlags([step.flag], ScanFrom(s, j + step.removed, pass)))
  }

  /** Flag matches at or after the end of a kept prefix are matches of the
      original input at the corresponding position. */
  lemma FlagAtShifted(pre: string, s: string, p: nat, q: nat)
    requires p <= |s|
    ensures FlagAt(pre + s[p..], |pre| + q) <==> FlagAt(s, p + q)
  {
    var t := pre + s[p..];
    if |pre| + q + 1 < |t| {
      assert t[|pre| + q] == s[p + q] && t[|pre| + q + 1] == s[p + q + 1];
    }
  }

  /** With no flag in `pre`, the leftmost flag of `pre + s[p..]` is the
      first flag of `s` at or after `p`, shifted by the length difference. */
  lemma FindFlagShifted(pre: string, s: string, p: nat)
    requires p <= |s|
    requires NoFlagBefore(pre + s[p..], |pre|)
    ensures FindFlagFrom(s, p).None? ==> FindFlag(pre + s[p..]).None?
    ensures FindFlagFrom(s, p).Some? ==>
      FindFlag(pre + s[p..]) == Some(|pre| + (FindFlagFrom(s, p).value - p))
  {
    var t := pre + s[p..];
    match FindFlagFrom(s, p)
    case None =>
      forall x | |pre| <= x < |t|
        ensures !FlagAt(t, x)
      {
        FlagAtShifted(pre, s, p, x - |pre|);
      }
      assert FindFlag(t) == None;
    case Some(j) =>
      var i := |pre| + (j - p);
      FlagAtShifted(pre, s, p, j - p);
      forall x | |pre| <= x < i
        ensures !FlagAt(t, x)
      {
        FlagAtShifted(pre, s, p, x - |pre|);
      }
      LeftmostIs(t, i);
  }

  /** The match of `s` at `j` is a match of `pre + s[p..]` at the shifted
      position, with the same text from there on. */
  lemma MatchShifted(pre: string, s: string, p: nat, j: nat)
    requires p <= j && FlagAt(s, j)
    ensures FlagAt(pre + s[p..], |pre| + (j - p))
    ensures (pre + s[p..])[|pre| + (j - p)..] == s[j..]
  {
    FlagAtShifted(pre, s, p, j - p);
  }

  /** Splicing `pre + s[p..]` at the shifted position of `j` keeps `pre`,
      the text of `s` from `p` to `j`, and the text of `s` after the span;
      no flag starts inside the kept part. */
  lemma SpliceShifted(pre: string, s: string, p: nat, j: nat, n: nat)
    requires p <= |s|
    requires NoFlagBefore(pre + s[p..], |pre|)
    requires FindFlagFrom(s, p) == Some(j) && j + n <= |s|
    ensures Splice(pre + s[p..], |pre| + (j - p), n) == (pre + s[p..j]) + s[j + n..]
    ensures NoFlagBefore((pre + s[p..j]) + s[j + n..], |pre| + (j - p))
  {
    var t := pre + s[p..];
    var i := |pre| + (j - p);
    var u := (pre + s[p..j]) + s[j + n..];
    assert t[..i] == pre + s[p..j];
    assert t[i + n..] == s[j + n..];
    forall x | 0 <= x < i
      ensures !FlagAt(u, x)
    {
      NoFlagInKeptText(pre, s, p, j, n, x);
    }
  }

  /** Splicing out the span of the first flag at or after `p` creates no
      flag before the resumption point: the pairs inside the kept text are
      original pairs, and the character just before the span cannot be a
      dash (it would have made an earlier match, or, at the join with `pre`,
      the hypothesis on `pre` excludes it). */
  lemma NoFlagInKeptText(pre: string, s: string, p: nat, j: nat, n: nat, x: nat)
    requires p <= |s|
    requires NoFlagBefore(pre + s[p..], |pre|)
    requires FindFlagFrom(s, p) == Some(j) && j + n <= |s|
    requires x < |pre| + (j - p)
    ensures !FlagAt((pre + s[p..j]) + s[j + n..], x)
  {
    var t := pre + s[p..];
    var i := |pre| + (j - p);
    KeptCharAt(pre, s, p, j, n, x);
    if x + 1 < i {
      KeptCharAt(pre, s, p, j, n, x + 1);
      assert !FlagAt(t, x) by {
        if x >= |pre| {
          FlagAtShifted(pre, s, p, x - |pre|);
        }
      }
    } else {
      FlagAtShifted(pre, s, p, j - p);
      if x >= |pre| {
        FlagAtShifted(pre, s, p, x - |pre|);
        assert !FlagAt(s, j - 1);
      } else {
        assert !FlagAt(t, x);
      }
    }
  }

  /** A character of the kept text is the character of `pre + s[p..]` at
      the same position. */
  lemma KeptCharAt(pre: string, s: string, p: nat, j: nat, n: nat, y: nat)
    requires p <= j && j + n <= |s|
    requires y < |pre| + (j - p)
    ensures ((pre + s[p..j]) + s[j + n..])[y] == (pre + s[p..])[y]
  {
    if y >= |pre| {
      assert (pre + s[p..j])[y] == s[p..j][y - |pre|] == s[p + (y - |pre|)];
    }
  }

  /** The loop over `pre + s[p..]`, when `pre` holds no flag (not even one
      that starts at its last character), is the left-to-right pass over `s`
      from `p` with `pre` in front of its remainder. */
  lemma {:induction false} ScanShifted(pre: string, s: string, p: nat, pass: Pass)
    requires p <= |s| && Progressing(pass)
    requires NoFlagBefore(pre + s[p..], |pre|)
    ensures Scan(pre + s[p..], pass) == PrependText(pre, ScanFrom(s, p, pass))
    decreases |s| - p, 1
  {
    FindFlagShifted(pre, s, p);
    match FindFlagFrom(s, p)
    case None =>
    case Some(j) =>
      MatchShifted(pre, s, p, j);
      assert Scan(pre + s[p..], pass) == ScanAt(pre + s[p..], |pre| + (j - p), pass);
      assert ScanFrom(s, p, pass) == ScanFromAt(s, p, j, pass);
      ScanShiftedAt(pre, s, p, j, pass);
  }

  /** The inductive step of `ScanShifted`, at the first match `j`. */
  lemma {:induction false} ScanShiftedAt(pre: string, s: string, p: nat, j: nat, pass: Pass)
    requires p <= |s| && Progressing(pass)
    requires NoFlagBefore(pre + s[p..], |pre|)
    requires FindFlagFrom(s, p) == Some(j)
    ensures FlagAt(pre + s[p..], |pre| + (j - p))
    ensures ScanAt(pre + s[p..], |pre| + (j - p), pass) == PrependText(pre, ScanFromAt(s, p, j, pass))
    decreases |s| - p, 0
  {
    var t := pre + s[p..];
    var i := |pre| + (j - p);
    MatchShifted(pre, s, p, j);
    FlagAtTail(s, j);
    assert pass(t[i..]) == pass(s[j..]);
    match pass(s[j..])
    case Err(e) =>
      assert ScanAt(t, i, pass) == Err(e);
      assert ScanFromAt(s, p, j, pass) == Err(e);
    case Ok(step) =>
      var n := step.removed;
      SpliceShifted(pre, s, p, j, n);
      ScanShifted(pre + s[p..j], s, j + n, pass);
      assert ScanAt(t, i, pass) == PrependFlags([step.flag], Scan((pre + s[p..j]) + s[j + n..], pass));
      assert ScanFromAt(s, p, j, pass) == PrependText(s[p..j], PrependFlags([step.flag], ScanFrom(s, j + n, pass)));
      ShiftAlgebra(pre, s[p..j], [step.flag], ScanFrom(s, j + n, pass));
  }

  /** How the pieces of one inductive step fit together. */
  lemma ShiftAlgebra(pre: string, mid: string, f: seq<Flag>, r: Result<FlagScan>)
    ensures PrependFlags(f, PrependText(pre + mid, r)) == PrependText(pre, PrependText(mid, PrependFlags(f, r)))
  {
    match r
    case Err(e) =>
    case Ok(scan) =>
      assert pre + (mid + scan.rest) == (pre + mid) + scan.rest;
  }

  /** The loop is the left-to-right pass over its input. */
  lemma ScanIsLeftToRight(s: string, pass: Pass)
    requires Progressing(pass)
    ensures Scan(s, pass) == ScanFrom(s, 0, pass)
  {
    ScanShifted("", s, 0, pass);
    assert "" + s[0..] == s;
    match ScanFrom(s, 0, pass)
    case Err(e) =>
    case Ok(scan) =>
      assert "" + scan.rest == scan.rest;
  }

  /** The text before the first flag reaches the remainder untouched. */
  lemma ScanFromKeepsPrefix(s: string, p: nat, pass: Pass)
    requires p <= |s| && Progressing(pass)
    requires FindFlagFrom(s, p).Some? && ScanFrom(s, p, pass).Ok?
    ensures var j := FindFlagFrom(s, p).value;
      s[p..j] <= ScanFrom(s, p, pass).value.rest
  {
    var j := FindFlagFrom(s, p).value;
    assert ScanFrom(s, p, pass) == ScanFromAt(s, p, j, pass);
  }
}
