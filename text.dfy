/**
  String primitives of the JavaScript runtime that the request adapter relies
  on: searching for a literal pattern, the global replacement that
  `String.prototype.replace` performs with a `g` regular expression whose
  source is a literal, ASCII upper-casing, and decimal numerals.
 */
module Text {

  /** `p` is a prefix of `s`. */
  predicate StartsWith(s: string, p: string) {
    |p| <= |s| && s[..|p|] == p
  }

  /** `pat` occurs in `s` starting at index `i`. */
  predicate OccursAt(pat: string, s: string, i: nat) {
    i + |pat| <= |s| && s[i..i + |pat|] == pat
  }

  /** `pat` occurs somewhere in `s`: what `RegExp.prototype.test` answers
      for a regular expression that matches `pat` literally. */
  predicate Occurs(pat: string, s: string)
    decreases |s|
  {
    StartsWith(s, pat) || (|s| > 0 && Occurs(pat, s[1..]))
  }

  /** Replaces every occurrence of `pat` in `s` by `rep`, scanning left to
      right and resuming after each match, so matches never overlap and text
      produced by `rep` is never rescanned. */
  function ReplaceAll(s: string, pat: string, rep: string): string
    requires |pat| > 0
    decreases |s|
  {
    if |s| < |pat| then s
    else if s[..|pat|] == pat then rep + ReplaceAll(s[|pat|..], pat, rep)
    else [s[0]] + ReplaceAll(s[1..], pat, rep)
  }

  /** The recursive search agrees with the positional definition. */
  lemma {:induction false} OccursIffSomeIndex(pat: string, s: string)
    ensures Occurs(pat, s) <==> exists i: nat :: OccursAt(pat, s, i)
    decreases |s|
  {
    if Occurs(pat, s) {
      if StartsWith(s, pat) {
        assert OccursAt(pat, s, 0);
      } else {
        OccursIffSomeIndex(pat, s[1..]);
        var j: nat :| OccursAt(pat, s[1..], j);
        assert s[1..][j..j + |pat|] == s[j + 1..j + 1 + |pat|];
        assert OccursAt(pat, s, j + 1);
      }
    }
    if exists i: nat :: OccursAt(pat, s, i) {
      var i: nat :| OccursAt(pat, s, i);
      if i == 0 {
        assert StartsWith(s, pat);
      } else {
        assert s[1..][i - 1..i - 1 + |pat|] == s[i..i + |pat|];
        assert OccursAt(pat, s[1..], i - 1);
        OccursIffSomeIndex(pat, s[1..]);
      }
    }
  }

  /** Replacing a pattern that does not occur leaves the string as it is. */
  lemma {:induction false} ReplaceAbsent(s: string, pat: string, rep: string)
    requires |pat| > 0
    requires !Occurs(pat, s)
    ensures ReplaceAll(s, pat, rep) == s
    decreases |s|
  {
    if |s| >= |pat| {
      assert s[..|pat|] != pat;
      ReplaceAbsent(s[1..], pat, rep);
    }
  }

  /** No occurrence of `pat` starts at any index below `i` of `s`. */
  predicate NoMatchBefore(pat: string, s: string, i: nat)
    decreases i
  {
    i == 0 || (|s| > 0 && !StartsWith(s, pat) && NoMatchBefore(pat, s[1..], i - 1))
  }

  /** Where no match starts at the head, the head character is kept. */
  lemma ReplaceSkipsHead(s: string, pat: string, rep: string)
    requires |pat| > 0 && |pat| <= |s| && !StartsWith(s, pat)
    ensures ReplaceAll(s, pat, rep) == [s[0]] + ReplaceAll(s[1..], pat, rep)
  {
  }

  /** The inductive step of `ReplaceAtFirstMatch`: the statement for the tail
      of `s` gives the statement for `s` when no match starts at its head. */
  lemma ReplaceFirstMatchStep(s: string, pat: string, rep: string, i: nat, rest: string)
    requires |pat| > 0 && 0 < i && i + |pat| <= |s| && !StartsWith(s, pat)
    requires ReplaceAll(s[1..], pat, rep) == s[1..][..i - 1] + rep + rest
    ensures ReplaceAll(s, pat, rep) == s[..i] + rep + rest
  {
    ReplaceSkipsHead(s, pat, rep);
    assert [s[0]] + s[1..][..i - 1] == s[..i];
  }

  /** The scan is leftmost-first and resumes after the match: if the first
      occurrence of `pat` starts at `i`, everything before `i` is kept, the
      match becomes `rep`, and the scan continues right after it. */
  lemma {:induction false} ReplaceAtFirstMatch(s: string, pat: string, rep: string, i: nat)
    requires |pat| > 0
    requires i <= |s| && StartsWith(s[i..], pat)
    requires NoMatchBefore(pat, s, i)
    ensures ReplaceAll(s, pat, rep) == s[..i] + rep + ReplaceAll(s[i + |pat|..], pat, rep)
    decreases i
  {
    if i == 0 {
      assert s[..|pat|] == pat;
    } else {
      var t := s[1..];
      assert t[i - 1..] == s[i..];
      ReplaceAtFirstMatch(t, pat, rep, i - 1);
      assert t[i - 1 + |pat|..] == s[i + |pat|..];
      ReplaceFirstMatchStep(s, pat, rep, i, ReplaceAll(s[i + |pat|..], pat, rep));
    }
  }

  /** Upper-cases the ASCII letters of a character; other characters are kept. */
  function UpperChar(c: char): char {
    if 'a' <= c <= 'z' then (c as int - 32) as char else c
  }

  /** `String.prototype.toUpperCase`, restricted to ASCII case mapping. */
  function ToUpper(s: string): string
    decreases |s|
  {
    if s == [] then [] else [UpperChar(s[0])] + ToUpper(s[1..])
  }

  predicate IsLowerAscii(c: char) {
    'a' <= c <= 'z'
  }

  /** An upper-cased string has the same length and holds no lower-case ASCII letter. */
  lemma {:induction false} UpperHasNoLower(s: string)
    ensures |ToUpper(s)| == |s|
    ensures forall i :: 0 <= i < |ToUpper(s)| ==> !IsLowerAscii(ToUpper(s)[i])
    decreases |s|
  {
    if s != [] {
      UpperHasNoLower(s[1..]);
      assert ToUpper(s) == [UpperChar(s[0])] + ToUpper(s[1..]);
    }
  }

  /** An upper-cased string never equals a string that holds a lower-case ASCII letter. */
  lemma UpperNeverEquals(s: string, t: string, k: nat)
    requires k < |t| && IsLowerAscii(t[k])
    ensures ToUpper(s) != t
  {
    UpperHasNoLower(s);
  }

  function DigitChar(d: nat): char
    requires d < 10
  {
    "0123456789"[d]
  }

  /** Decimal numeral of a natural number, most significant digit first. */
  function NatToString(n: nat): string
    decreases n
  {
    if n < 10 then [DigitChar(n)] else NatToString(n / 10) + [DigitChar(n % 10)]
  }

  /** Decimal numeral of an integer, with a leading '-' when negative. */
  function IntToString(n: int): string {
    if n < 0 then "-" + NatToString(-n) else NatToString(n)
  }
}
