/** The JavaScript string primitives the parser relies on, stated over
    `seq<char>`: the `\s` character class, `trim`, `toLowerCase`, `indexOf`
    and the token regular expression `/^([^\s]+(?:\s+|$))/`. */
module Strings {
  import opened Config

  /** JavaScript's `\s` class (the same set `trim` removes): the ECMAScript
      WhiteSpace and LineTerminator characters. */
  predicate IsSpace(c: char)
  {
    c == '\t' || c == '\n' || c == '\U{000B}' || c == '\U{000C}' || c == '\r' || c == ' ' ||
    c == '\U{00A0}' || c == '\U{1680}' || ('\U{2000}' <= c <= '\U{200A}') ||
    c == '\U{2028}' || c == '\U{2029}' || c == '\U{202F}' || c == '\U{205F}' ||
    c == '\U{3000}' || c == '\U{FEFF}'
  }

  ghost predicate NoSpace(s: string)
  {
    forall k :: 0 <= k < |s| ==> !IsSpace(s[k])
  }

  ghost predicate AllSpace(s: string)
  {
    forall k :: 0 <= k < |s| ==> IsSpace(s[k])
  }

  /** Lower-casing of one character: ASCII and Latin-1 capitals map to their
      small letters, every other character is left as it is. */
  function LowerChar(c: char): char
  {
    if 'A' <= c <= 'Z' || ('\U{00C0}' <= c <= '\U{00DE}' && c != '\U{00D7}')
    then (c as int + 32) as char
    else c
  }

  /** `toLowerCase`, character by character. */
  function Lower(s: string): (r: string)
    ensures |r| == |s|
    ensures forall k :: 0 <= k < |s| ==> r[k] == LowerChar(s[k])
  {
    seq(|s|, k requires 0 <= k < |s| => LowerChar(s[k]))
  }

  /** `toLowerCase` over every element of an array (`Array.prototype.map`). */
  function LowerAll(ss: seq<string>): (r: seq<string>)
    ensures |r| == |ss|
    ensures forall k :: 0 <= k < |ss| ==> r[k] == Lower(ss[k])
  {
    seq(|ss|, k requires 0 <= k < |ss| => Lower(ss[k]))
  }

  lemma LowerCharKeepsClass(c: char)
    ensures IsSpace(LowerChar(c)) <==> IsSpace(c)
    ensures LowerChar(c) == '-' <==> c == '-'
    ensures LowerChar(c) == ' ' <==> c == ' '
    ensures LowerChar(LowerChar(c)) == LowerChar(c)
  {
  }

  lemma LowerIdempotent(s: string)
    ensures Lower(Lower(s)) == Lower(s)
  {
    forall k | 0 <= k < |s|
      ensures Lower(Lower(s))[k] == Lower(s)[k]
    {
      LowerCharKeepsClass(s[k]);
    }
  }

  lemma LowerNoSpace(s: string)
    requires NoSpace(s)
    ensures NoSpace(Lower(s))
  {
    forall k | 0 <= k < |s|
      ensures !IsSpace(Lower(s)[k])
    {
      LowerCharKeepsClass(s[k]);
    }
  }

  /** `trimStart`: drops the leading whitespace. */
  function TrimStart(s: string): (r: string)
    ensures |r| <= |s| && r == s[|s| - |r|..]
    ensures AllSpace(s[..|s| - |r|])
    ensures r == [] || !IsSpace(r[0])
  {
    s[SpaceEnd(s, 0)..]
  }

  /** `trimEnd`: drops the trailing whitespace. */
  function TrimEnd(s: string): (r: string)
    ensures |r| <= |s| && r == s[..|r|]
    ensures AllSpace(s[|r|..])
    ensures r == [] || !IsSpace(r[|r| - 1])
  {
    if |s| > 0 && IsSpace(s[|s| - 1]) then
      var r := TrimEnd(s[..|s| - 1]);
      assert s[|r|..] == s[..|s| - 1][|r|..] + [s[|s| - 1]];
      r
    else s
  }

  /** `trim`: drops the whitespace at both ends. */
  function Trim(s: string): string
  {
    TrimEnd(TrimStart(s))
  }

  lemma {:induction false} TrimmedStart(s: string)
    ensures Trim(s) == [] || !IsSpace(Trim(s)[0])
  {
    var t := TrimStart(s);
    var r := TrimEnd(t);
    if r != [] {
      assert r[0] == t[0];
    }
  }

  lemma {:induction false} TrimOfTrimmed(s: string)
    requires s == [] || (!IsSpace(s[0]) && !IsSpace(s[|s| - 1]))
    ensures Trim(s) == s
  {
  }

  /** `indexOf` of one character: the first position holding `c`. */
  function IndexOfChar(s: string, c: char): (r: Option<nat>)
    ensures r.None? <==> c !in s
    ensures r.Some? ==> r.value < |s| && s[r.value] == c && c !in s[..r.value]
  {
    if |s| == 0 then None
    else if s[0] == c then Some(0)
    else match IndexOfChar(s[1..], c)
      case None => None
      case Some(k) =>
        assert s[..k + 1] == [s[0]] + s[1..][..k];
        Some(k + 1)
  }

  /** End of the run of non-whitespace characters that starts at `i`. */
  function NonSpaceEnd(s: string, i: nat): (j: nat)
    requires i <= |s|
    ensures i <= j <= |s|
    ensures forall k :: i <= k < j ==> !IsSpace(s[k])
    ensures j == |s| || IsSpace(s[j])
    decreases |s| - i
  {
    if i == |s| || IsSpace(s[i]) then i else NonSpaceEnd(s, i + 1)
  }

  /** End of the run of whitespace characters that starts at `i`. */
  function SpaceEnd(s: string, i: nat): (j: nat)
    requires i <= |s|
    ensures i <= j <= |s|
    ensures forall k :: i <= k < j ==> IsSpace(s[k])
    ensures j == |s| || !IsSpace(s[j])
    decreases |s| - i
  {
    if i == |s| || !IsSpace(s[i]) then i else SpaceEnd(s, i + 1)
  }

  /** The run ends are unique: a position that closes the run is its end. */
  lemma NonSpaceEndIs(s: string, i: nat, j: nat)
    requires i <= j <= |s|
    requires forall k :: i <= k < j ==> !IsSpace(s[k])
    requires j == |s| || IsSpace(s[j])
    ensures NonSpaceEnd(s, i) == j
  {
  }

  lemma SpaceEndIs(s: string, i: nat, j: nat)
    requires i <= j <= |s|
    requires forall k :: i <= k < j ==> IsSpace(s[k])
    requires j == |s| || !IsSpace(s[j])
    ensures SpaceEnd(s, i) == j
  {
  }

  /** A match of `/^([^\s]+(?:\s+|$))/`: the word itself (`text`, the group
      with its whitespace trimmed) and the number of characters the group
      spans (`length`, the word and the whitespace run after it). */
  datatype Token = Token(text: string, length: nat)

  /** `s.match(/^([^\s]+(?:\s+|$))/)`: the leading word of `s` when `s`
      starts with a non-whitespace character. The greedy `[^\s]+` always
      stops at whitespace or at the end, so no backtracking is involved. */
  function LeadingToken(s: string): (r: Option<Token>)
    ensures r.None? <==> (|s| == 0 || IsSpace(s[0]))
    ensures r.Some? ==>
      var t := r.value;
      0 < |t.text| <= t.length <= |s| &&
      t.text == s[..|t.text|] && NoSpace(t.text) &&
      (|t.text| == |s| || IsSpace(s[|t.text|])) &&
      AllSpace(s[|t.text|..t.length]) &&
      (t.length == |s| || !IsSpace(s[t.length]))
  {
    if |s| == 0 || IsSpace(s[0]) then None
    else
      var j := NonSpaceEnd(s, 0);
      var k := SpaceEnd(s, j);
      Some(Token(s[..j], k))
  }

  /** The leading token of a word followed by a space and then text that
      does not start with whitespace is that word, spanning one more
      character than the word. */
  lemma {:induction false} LeadingTokenOfWord(w: string, t: string)
    requires |w| > 0 && NoSpace(w)
    requires t == [] || !IsSpace(t[0])
    ensures LeadingToken(w) == Some(Token(w, |w|))
    ensures LeadingToken(w + " " + t) == Some(Token(w, |w| + 1))
  {
    var s := w + " " + t;
    assert s[|w|] == ' ';
    NonSpaceEndIs(s, 0, |w|);
    SpaceEndIs(s, |w|, |w| + 1);
    NonSpaceEndIs(w, 0, |w|);
    SpaceEndIs(w, |w|, |w|);
    assert s[..|w|] == w && w[..|w|] == w;
  }

  /** The same with any non-empty run of whitespace after the word: the
      token is the word, and its span takes the whole run. */
  lemma {:induction false} LeadingTokenOfSeparatedWord(w: string, sep: string, t: string)
    requires |w| > 0 && NoSpace(w)
    requires |sep| > 0 && AllSpace(sep)
    requires t == [] || !IsSpace(t[0])
    ensures LeadingToken(w + sep + t) == Some(Token(w, |w| + |sep|))
  {
    var s := w + sep + t;
    assert forall k :: |w| <= k < |w| + |sep| ==> s[k] == sep[k - |w|];
    assert |w| + |sep| < |s| ==> s[|w| + |sep|] == t[0];
    NonSpaceEndIs(s, 0, |w|);
    SpaceEndIs(s, |w|, |w| + |sep|);
    assert s[..|w|] == w;
  }
}
