/**
 Python's `str.replace(old, new)` on strings, and the facts about it that
 the importer needs to derive its table names.

 `str.replace` scans left to right and rewrites every leftmost,
 non-overlapping occurrence of `old`; with an empty `old` it inserts `new`
 before every character and once more at the end.
 */
module Strings {

  /** `pat` occurs in `s` starting at offset `i`. */
  predicate MatchAt(s: string, pat: string, i: nat) {
    i + |pat| <= |s| && s[i..i + |pat|] == pat
  }

  /** `pat` occurs somewhere in `s`. */
  predicate Occurs(s: string, pat: string) {
    exists i | 0 <= i <= |s| :: MatchAt(s, pat, i)
  }

  /** `"abc".replace("", rep)`: `rep` before every character and at the end. */
  function Interleave(s: string, rep: string): (r: string)
    ensures |rep| == 0 ==> r == s
    decreases |s|
  {
    if |s| == 0 then rep else rep + [s[0]] + Interleave(s[1..], rep)
  }

  /** `s.replace(pat, rep)` with Python's semantics. */
  function ReplaceAll(s: string, pat: string, rep: string): (r: string)
    ensures |pat| > 0 && |rep| <= |pat| ==> |r| <= |s|
    ensures |pat| > 0 && |rep| == |pat| ==> |r| == |s|
    decreases |s|
  {
    if |pat| == 0 then Interleave(s, rep)
    else if |s| < |pat| then s
    else if MatchAt(s, pat, 0) then rep + ReplaceAll(s[|pat|..], pat, rep)
    else [s[0]] + ReplaceAll(s[1..], pat, rep)
  }

  /** `s.replace(pat, "")`: every occurrence of `pat` removed. */
  function RemoveAll(s: string, pat: string): (r: string)
    ensures |r| <= |s|
  {
    ReplaceAll(s, pat, "")
  }

  /** Shifting an occurrence-free string by one character keeps it occurrence-free. */
  lemma NoOccurrenceInTail(s: string, pat: string)
    requires |s| > 0 && !Occurs(s, pat)
    ensures !Occurs(s[1..], pat)
  {
    forall i | 0 <= i <= |s[1..]|
      ensures !MatchAt(s[1..], pat, i)
    {
      assert !MatchAt(s, pat, i + 1);
      if i + |pat| <= |s[1..]| {
        assert s[1..][i..i + |pat|] == s[i + 1..i + 1 + |pat|];
      }
    }
  }

  /** With no occurrence of a non-empty pattern, `replace` is the identity. */
  lemma {:induction false} NoOccurrenceUnchanged(s: string, pat: string, rep: string)
    requires |pat| > 0 && !Occurs(s, pat)
    ensures ReplaceAll(s, pat, rep) == s
    decreases |s|
  {
    if |s| >= |pat| {
      assert !MatchAt(s, pat, 0);
      NoOccurrenceInTail(s, pat);
      NoOccurrenceUnchanged(s[1..], pat, rep);
      assert [s[0]] + s[1..] == s;
    }
  }

  /** Removing a pattern that does occur strictly shortens the string. */
  lemma {:induction false} RemovalShrinks(s: string, pat: string)
    requires |pat| > 0 && Occurs(s, pat)
    ensures |RemoveAll(s, pat)| < |s|
    decreases |s|
  {
    var i :| 0 <= i <= |s| && MatchAt(s, pat, i);
    if !MatchAt(s, pat, 0) {
      assert i > 0;
      assert MatchAt(s[1..], pat, i - 1) by {
        assert s[1..][i - 1..i - 1 + |pat|] == s[i..i + |pat|];
      }
      RemovalShrinks(s[1..], pat);
    }
  }

  /** Removing a non-empty pattern leaves the string unchanged exactly when it does not occur. */
  lemma RemovalIsIdentityIff(s: string, pat: string)
    requires |pat| > 0
    ensures RemoveAll(s, pat) == s <==> !Occurs(s, pat)
  {
    if Occurs(s, pat) {
      RemovalShrinks(s, pat);
    } else {
      NoOccurrenceUnchanged(s, pat, "");
    }
  }

  /** A string shorter than the pattern cannot contain it. */
  lemma ShorterHasNoOccurrence(s: string, pat: string)
    requires |s| < |pat|
    ensures !Occurs(s, pat)
  {
  }

  /** A head character that cannot start the pattern is copied and the scan moves on. */
  lemma ReplaceSkipsHead(s: string, pat: string, rep: string)
    requires |pat| > 0 && |s| > 0 && s[0] != pat[0]
    ensures ReplaceAll(s, pat, rep) == [s[0]] + ReplaceAll(s[1..], pat, rep)
  {
    if |s| < |pat| {
      NoOccurrenceUnchanged(s[1..], pat, rep);
      assert s == [s[0]] + s[1..];
    } else {
      assert s[0..|pat|][0] != pat[0];
    }
  }

  /** A prefix that does not contain the pattern's first character is copied through. */
  lemma {:induction false} ReplaceSkipsFreePrefix(a: string, b: string, pat: string, rep: string)
    requires |pat| > 0 && pat[0] !in a
    ensures ReplaceAll(a + b, pat, rep) == a + ReplaceAll(b, pat, rep)
    decreases |a|
  {
    if |a| == 0 {
      assert a + b == b;
    } else {
      var t, rb := a[1..], ReplaceAll(b, pat, rep);
      var x := ReplaceAll(t + b, pat, rep);
      assert ReplaceAll(a + b, pat, rep) == [a[0]] + x by {
        var s := a + b;
        assert s[0] == a[0] && a[0] != pat[0];
        assert s[1..] == t + b;
        ReplaceSkipsHead(s, pat, rep);
      }
      assert x == t + rb by {
        assert pat[0] !in t;
        ReplaceSkipsFreePrefix(t, b, pat, rep);
      }
      assert [a[0]] + (t + rb) == a + rb by {
        assert a == [a[0]] + t;
      }
    }
  }

  /** A leading occurrence is rewritten and the scan resumes right after it. */
  lemma ReplaceLeadingMatch(pat: string, b: string, rep: string)
    requires |pat| > 0
    ensures ReplaceAll(pat + b, pat, rep) == rep + ReplaceAll(b, pat, rep)
  {
    assert (pat + b)[0..|pat|] == pat;
    assert (pat + b)[|pat|..] == b;
  }
}
