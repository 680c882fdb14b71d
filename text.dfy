/** Ordinal string tests and the literal replace-all of StringBuilder.Replace(string, string). */
module Text {

  /** `sub` occurs in `s` starting at position `i` (ordinal comparison). */
  predicate OccursAt(s: string, sub: string, i: nat) {
    i + |sub| <= |s| && s[i..i + |sub|] == sub
  }

  /** String.Contains(string): an ordinal substring test. */
  predicate Contains(s: string, sub: string) {
    exists i: nat | i <= |s| :: OccursAt(s, sub, i)
  }

  /** String.EndsWith(string, StringComparison.Ordinal). */
  predicate EndsWith(s: string, suffix: string) {
    |suffix| <= |s| && s[|s| - |suffix|..] == suffix
  }

  /**
   * Replaces every occurrence of `pat` found by one left-to-right scan:
   * after a match the scan resumes behind it, so matches never overlap and
   * the inserted text is never looked at again.
   * The library throws on an empty `pat`; every caller here passes a literal.
   */
  function ReplaceAll(s: string, pat: string, rep: string): string
    requires |pat| > 0
    decreases |s|
  {
    if |s| < |pat| then s
    else if s[..|pat|] == pat then rep + ReplaceAll(s[|pat|..], pat, rep)
    else [s[0]] + ReplaceAll(s[1..], pat, rep)
  }

  /** Text without an occurrence of the pattern comes back unchanged. */
  lemma {:induction false} ReplaceAllWithoutOccurrence(s: string, pat: string, rep: string)
    requires |pat| > 0
    requires !Contains(s, pat)
    ensures ReplaceAll(s, pat, rep) == s
    decreases |s|
  {
    if |s| >= |pat| {
      assert !OccursAt(s, pat, 0);
      assert !Contains(s[1..], pat) by {
        forall i: nat | i <= |s[1..]| && OccursAt(s[1..], pat, i)
          ensures OccursAt(s, pat, i + 1)
        {
          OccursAtShift(s, pat, i);
        }
      }
      ReplaceAllWithoutOccurrence(s[1..], pat, rep);
    }
  }

  /** An occurrence one position further in corresponds to an occurrence in the text's tail. */
  lemma OccursAtShift(s: string, pat: string, i: nat)
    requires |s| > 0
    ensures OccursAt(s, pat, i + 1) <==> OccursAt(s[1..], pat, i)
  {
    if i + 1 + |pat| <= |s| {
      assert s[1..][i..i + |pat|] == s[i + 1..i + 1 + |pat|];
    }
  }

  /** Replacing a pattern by itself is the identity. */
  lemma {:induction false} ReplaceAllSelf(s: string, pat: string)
    requires |pat| > 0
    ensures ReplaceAll(s, pat, pat) == s
    decreases |s|
  {
    if |s| >= |pat| {
      if s[..|pat|] == pat {
        ReplaceAllSelf(s[|pat|..], pat);
        assert s == pat + s[|pat|..];
      } else {
        ReplaceAllSelf(s[1..], pat);
        assert s == [s[0]] + s[1..];
      }
    }
  }

  /**
   * The replacement of a leading occurrence is never rescanned: the rest of
   * the text is processed on its own, whatever the replacement contains.
   */
  lemma ReplaceAllLeadingMatch(pat: string, rest: string, rep: string)
    requires |pat| > 0
    ensures ReplaceAll(pat + rest, pat, rep) == rep + ReplaceAll(rest, pat, rep)
  {
    assert (pat + rest)[..|pat|] == pat;
    assert (pat + rest)[|pat|..] == rest;
  }

  /** A prefix none of whose characters can start the pattern is copied, and the scan goes on behind it. */
  lemma {:induction false} ReplaceAllCopiesPrefix(pre: string, rest: string, pat: string, rep: string)
    requires |pat| > 0
    requires forall i | 0 <= i < |pre| :: pre[i] != pat[0]
    ensures ReplaceAll(pre + rest, pat, rep) == pre + ReplaceAll(rest, pat, rep)
    decreases |pre|
  {
    if pre == [] {
      assert pre + rest == rest;
    } else {
      var tail := pre[1..];
      var done := ReplaceAll(rest, pat, rep);
      assert pre == [pre[0]] + tail;
      calc {
        ReplaceAll(pre + rest, pat, rep);
        { assert pre + rest == [pre[0]] + (tail + rest); }
        ReplaceAll([pre[0]] + (tail + rest), pat, rep);
        { ReplaceAllCopiesHead(pre[0], tail + rest, pat, rep); }
        [pre[0]] + ReplaceAll(tail + rest, pat, rep);
        { ReplaceAllCopiesPrefix(tail, rest, pat, rep); }
        [pre[0]] + (tail + done);
        pre + done;
      }
    }
  }

  /** A first character that cannot start the pattern is copied, and the scan goes on behind it. */
  lemma ReplaceAllCopiesHead(c: char, rest: string, pat: string, rep: string)
    requires |pat| > 0 && c != pat[0]
    ensures ReplaceAll([c] + rest, pat, rep) == [c] + ReplaceAll(rest, pat, rep)
  {
    var s := [c] + rest;
    assert s[1..] == rest;
    if |s| >= |pat| {
      assert s[..|pat|][0] == c;
    }
  }

  /** One step of ReplaceAll on the suffix that starts at `i`. */
  lemma ReplaceAllStep(s: string, pat: string, rep: string, i: nat)
    requires |pat| > 0 && i + |pat| <= |s|
    ensures OccursAt(s, pat, i) ==> ReplaceAll(s[i..], pat, rep) == rep + ReplaceAll(s[i + |pat|..], pat, rep)
    ensures !OccursAt(s, pat, i) ==> ReplaceAll(s[i..], pat, rep) == [s[i]] + ReplaceAll(s[i + 1..], pat, rep)
  {
    assert s[i..][..|pat|] == s[i..i + |pat|];
    assert s[i..][|pat|..] == s[i + |pat|..];
    assert s[i..][1..] == s[i + 1..];
  }

  /** The scan has consumed `s[..i]` and produced `result`: the rest of the replacement is that of `s[i..]`. */
  predicate Scanned(s: string, pat: string, rep: string, i: nat, result: string)
    requires |pat| > 0
  {
    i <= |s| && result + ReplaceAll(s[i..], pat, rep) == ReplaceAll(s, pat, rep)
  }

  /** One step of the loop of StringBuilder.Replace keeps the scan invariant. */
  lemma ScanStep(s: string, pat: string, rep: string, i: nat, result: string)
    requires |pat| > 0 && i < |s| && Scanned(s, pat, rep, i, result)
    ensures OccursAt(s, pat, i) ==> Scanned(s, pat, rep, i + |pat|, result + rep)
    ensures !OccursAt(s, pat, i) ==> Scanned(s, pat, rep, i + 1, result + [s[i]])
  {
    if i + |pat| <= |s| {
      ReplaceAllStep(s, pat, rep, i);
    } else {
      assert s[i..] == [s[i]] + s[i + 1..];
    }
    if OccursAt(s, pat, i) {
      assert (result + rep) + ReplaceAll(s[i + |pat|..], pat, rep) == result + (rep + ReplaceAll(s[i + |pat|..], pat, rep));
    } else {
      assert (result + [s[i]]) + ReplaceAll(s[i + 1..], pat, rep) == result + ([s[i]] + ReplaceAll(s[i + 1..], pat, rep));
    }
  }

  /** The scan starts with nothing produced and ends with the whole replacement. */
  lemma ScanBounds(s: string, pat: string, rep: string, result: string)
    requires |pat| > 0
    ensures Scanned(s, pat, rep, 0, "")
    ensures Scanned(s, pat, rep, |s|, result) ==> result == ReplaceAll(s, pat, rep)
  {
    assert s[0..] == s;
    assert s[|s|..] == [];
    assert result + [] == result;
  }

  /** StringBuilder: a mutable character buffer. */
  class StringBuilder {
    var content: string

    constructor (text: string)
      ensures content == text
    {
      content := text;
    }

    /** StringBuilder.Replace(oldValue, newValue): one scan over the buffer, building the new content. */
    method Replace(pat: string, rep: string)
      requires |pat| > 0
      modifies this
      ensures content == ReplaceAll(old(content), pat, rep)
    {
      var s := content;
      var result := "";
      var i := 0;
      ScanBounds(s, pat, rep, result);
      while i < |s|
        invariant Scanned(s, pat, rep, i, result)
        decreases |s| - i
      {
        ScanStep(s, pat, rep, i, result);
        if OccursAt(s, pat, i) {
          result := result + rep;
          i := i + |pat|;
        } else {
          result := result + [s[i]];
          i := i + 1;
        }
      }
      ScanBounds(s, pat, rep, result);
      content := result;
    }

    function ToString(): (r: string)
      reads this
      ensures r == content
    {
      content
    }
  }
}
