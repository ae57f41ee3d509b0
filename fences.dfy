/**
 * Text clean-up done by the browser client before it parses a reply
 * (src/App.jsx): `s.replace(/```json/g, '').replace(/```/g, '').trim()`,
 * and the blank-input guard `!inputText.trim()`.
 *
 * `RemoveAll` is the left-to-right, non-overlapping deletion a global
 * regular expression of a literal performs; `Trim` strips a fixed set of
 * whitespace characters from both ends.
 */
module Fences {

  const Fence: string := "```"
  const JsonFence: string := "```json"

  /** The whitespace characters `String.prototype.trim` strips (a fixed subset). */
  predicate IsWhitespace(c: char) {
    c == ' ' || c == '\t' || c == '\n' || c == '\r' || c == '\U{000B}' || c == '\U{000C}'
    || c == '\U{00A0}' || c == '\U{FEFF}' || c == '\U{2028}' || c == '\U{2029}'
  }

  /** `pat` occurs in `s` starting at index `i`. */
  predicate OccursAt(s: string, pat: string, i: int) {
    0 <= i && i + |pat| <= |s| && s[i..i + |pat|] == pat
  }

  predicate Contains(s: string, pat: string) {
    exists i | 0 <= i <= |s| :: OccursAt(s, pat, i)
  }

  /** Neither end of `s` is whitespace. */
  predicate IsTrimmed(s: string) {
    s == [] || (!IsWhitespace(s[0]) && !IsWhitespace(s[|s| - 1]))
  }

  // ---------------------------------------------------------------------
  // Deleting every occurrence of a literal
  // ---------------------------------------------------------------------

  /** Scan left to right; at a match drop the whole match and go on after it,
      otherwise keep one character and go on with the next. */
  function RemoveAll(s: string, pat: string): (r: string)
    requires pat != []
    ensures |r| <= |s|
    decreases |s|
  {
    if s == [] then []
    else if pat <= s then RemoveAll(s[|pat|..], pat)
    else [s[0]] + RemoveAll(s[1..], pat)
  }

  /** Deletion only: every character of the result is a character of the input, no more often. */
  lemma {:induction false} RemoveAllOnlyDeletes(s: string, pat: string)
    requires pat != []
    ensures multiset(RemoveAll(s, pat)) <= multiset(s)
    decreases |s|
  {
    if s != [] {
      if pat <= s {
        RemoveAllOnlyDeletes(s[|pat|..], pat);
        assert s == s[..|pat|] + s[|pat|..];
      } else {
        RemoveAllOnlyDeletes(s[1..], pat);
        assert s == [s[0]] + s[1..];
      }
    }
  }

  /** An occurrence in `s[lo..hi]` is an occurrence in `s`. */
  lemma OccursInSlice(s: string, pat: string, lo: int, hi: int, i: int)
    requires 0 <= lo <= hi <= |s|
    ensures OccursAt(s[lo..hi], pat, i) ==> OccursAt(s, pat, lo + i)
  {
    if 0 <= i && i + |pat| <= hi - lo {
      var inSlice, inWhole := s[lo..hi][i..i + |pat|], s[lo + i..lo + i + |pat|];
      forall k | 0 <= k < |pat| ensures inSlice[k] == inWhole[k] {
        assert inSlice[k] == s[lo..hi][i + k] == s[lo + i + k];
      }
      assert inSlice == inWhole;
    }
  }

  /** Text without the pattern comes out of `RemoveAll` unchanged. */
  lemma {:induction false} RemoveAllAbsent(s: string, pat: string)
    requires pat != []
    requires !Contains(s, pat)
    ensures RemoveAll(s, pat) == s
    decreases |s|
  {
    if s != [] {
      if pat <= s {
        assert OccursAt(s, pat, 0);
      } else {
        assert s[1..] == s[1..|s|];
        forall i | 0 <= i <= |s[1..]| ensures !OccursAt(s[1..], pat, i) {
          OccursInSlice(s, pat, 1, |s|, i);
        }
        RemoveAllAbsent(s[1..], pat);
        assert [s[0]] + s[1..] == s;
      }
    }
  }

  /** A prefix that cannot start a match is copied through unchanged. */
  lemma {:induction false} RemoveAllSkipsPrefix(u: string, t: string, pat: string)
    requires pat != []
    requires forall k :: 0 <= k < |u| ==> u[k] != pat[0]
    ensures RemoveAll(u + t, pat) == u + RemoveAll(t, pat)
    decreases |u|
  {
    if u != [] {
      assert (u + t)[0] == u[0];
      assert !(pat <= u + t);
      assert (u + t)[1..] == u[1..] + t;
      assert RemoveAll(u + t, pat) == [u[0]] + RemoveAll(u[1..] + t, pat);
      RemoveAllSkipsPrefix(u[1..], t, pat);
      assert [u[0]] + (u[1..] + RemoveAll(t, pat)) == u + RemoveAll(t, pat);
    } else {
      assert u + t == t;
    }
  }

  /** Putting one character in front adds no match except possibly at index 0. */
  lemma ConsKeepsAbsence(c: char, rest: string, pat: string)
    requires !Contains(rest, pat)
    requires !OccursAt([c] + rest, pat, 0)
    ensures !Contains([c] + rest, pat)
  {
    var r := [c] + rest;
    assert r[1..] == rest;
    forall i | 1 <= i <= |r| ensures !OccursAt(r, pat, i) {
      assert !OccursAt(rest, pat, i - 1);
      if i + |pat| <= |r| {
        assert rest[i - 1..i - 1 + |pat|] == r[i..i + |pat|];
      }
    }
  }

  /** A match at the front is dropped whole. */
  lemma RemoveAllAfterMatch(pat: string, rest: string)
    requires pat != []
    ensures RemoveAll(pat + rest, pat) == RemoveAll(rest, pat)
  {
    assert (pat + rest)[..|pat|] == pat;
    assert (pat + rest)[|pat|..] == rest;
  }

  /** Text shorter than the pattern cannot contain it. */
  lemma ShorterAbsent(s: string, pat: string)
    requires |s| < |pat|
    ensures !Contains(s, pat)
  {
  }

  /** Number of backticks `s` starts with. */
  function LeadingTicks(s: string): nat
    decreases |s|
  {
    if s != [] && s[0] == '`' then 1 + LeadingTicks(s[1..]) else 0
  }

  /** `s` starts with three backticks exactly when it starts with the fence. */
  lemma TicksAndFence(s: string)
    ensures LeadingTicks(s) >= 3 <==> Fence <= s
  {
    var threeTicks := |s| >= 3 && s[0] == '`' && s[1] == '`' && s[2] == '`';
    assert Fence <= s <==> threeTicks by {
      if |s| >= 3 {
        assert s[..3] == [s[0], s[1], s[2]];
      }
    }
    if s != [] && s[0] == '`' {
      var s1 := s[1..];
      if s1 != [] && s1[0] == '`' {
        var s2 := s1[1..];
        assert LeadingTicks(s2) >= 1 <==> s2 != [] && s2[0] == '`';
        assert LeadingTicks(s) == 2 + LeadingTicks(s2);
      } else {
        assert LeadingTicks(s) == 1;
      }
    }
  }

  /**
   * After deleting every fence no fence is left, and the leading run of
   * backticks is cut down to its length modulo three.
   */
  lemma {:induction false} RemoveFenceLeavesNone(s: string)
    ensures !Contains(RemoveAll(s, Fence), Fence)
    ensures LeadingTicks(RemoveAll(s, Fence)) == LeadingTicks(s) % 3
    decreases |s|
  {
    if s == [] {
    } else if Fence <= s {
      RemoveFenceLeavesNone(s[3..]);
      DropFence(s);
    } else {
      RemoveFenceLeavesNone(s[1..]);
      KeepFirst(s);
    }
  }

  /** A leading fence is dropped: three backticks fewer in front. */
  lemma DropFence(s: string)
    requires Fence <= s
    ensures RemoveAll(s, Fence) == RemoveAll(s[3..], Fence)
    ensures LeadingTicks(s) == 3 + LeadingTicks(s[3..])
  {
    assert s[0] == '`' && s[1] == '`' && s[2] == '`' by { assert s[..3] == Fence; }
    assert s[1..][1..][1..] == s[3..];
    assert LeadingTicks(s[1..]) == 1 + LeadingTicks(s[1..][1..]);
    assert LeadingTicks(s[1..][1..]) == 1 + LeadingTicks(s[3..]);
  }

  /** Without a fence in front the first character is kept, and no fence is formed with it. */
  lemma KeepFirst(s: string)
    requires s != [] && !(Fence <= s)
    requires !Contains(RemoveAll(s[1..], Fence), Fence)
    requires LeadingTicks(RemoveAll(s[1..], Fence)) == LeadingTicks(s[1..]) % 3
    ensures !Contains(RemoveAll(s, Fence), Fence)
    ensures LeadingTicks(RemoveAll(s, Fence)) == LeadingTicks(s) % 3
  {
    var rest := RemoveAll(s[1..], Fence);
    var r := RemoveAll(s, Fence);
    assert r == [s[0]] + rest;
    ConsTicks(s[0], s[1..], rest);
    assert [s[0]] + s[1..] == s;
    TicksAndFence(s);
    if s[0] == '`' {
      assert LeadingTicks(s[1..]) < 2;
      assert LeadingTicks(s[1..]) % 3 == LeadingTicks(s[1..]);
      assert LeadingTicks(s) % 3 == LeadingTicks(s);
    }
    TicksAndFence(r);
    assert !OccursAt(r, Fence, 0) by {
      if |r| >= 3 { assert r[0..3] == r[..3]; }
    }
    ConsKeepsAbsence(s[0], rest, Fence);
  }

  /** One character in front of two texts whose leading ticks agree modulo three. */
  lemma ConsTicks(c: char, t: string, u: string)
    requires LeadingTicks(u) == LeadingTicks(t) % 3
    ensures c == '`' ==> LeadingTicks([c] + u) == 1 + LeadingTicks(t) % 3
    ensures c == '`' ==> LeadingTicks([c] + t) == 1 + LeadingTicks(t)
    ensures c != '`' ==> LeadingTicks([c] + u) == 0 == LeadingTicks([c] + t)
  {
    assert ([c] + u)[1..] == u;
    assert ([c] + t)[1..] == t;
  }

  /** An occurrence of "```json" is an occurrence of "```". */
  lemma JsonFenceHasFence(s: string)
    requires Contains(s, JsonFence)
    ensures Contains(s, Fence)
  {
    var i :| 0 <= i <= |s| && OccursAt(s, JsonFence, i);
    assert |JsonFence| == 7 && JsonFence[..3] == Fence;
    assert i + 7 <= |s| && s[i..i + 7] == JsonFence;
    assert s[i..i + 3] == s[i..i + 7][..3];
    assert OccursAt(s, Fence, i);
  }

  // ---------------------------------------------------------------------
  // Trimming
  // ---------------------------------------------------------------------

  /** Drops the longest whitespace prefix. */
  function TrimStart(s: string): (r: string)
    ensures |r| <= |s| && r == s[|s| - |r|..]
    ensures forall i :: 0 <= i < |s| - |r| ==> IsWhitespace(s[i])
    ensures r == [] || !IsWhitespace(r[0])
    decreases |s|
  {
    if s != [] && IsWhitespace(s[0]) then TrimStart(s[1..]) else s
  }

  /** Drops the longest whitespace suffix. */
  function TrimEnd(s: string): (r: string)
    ensures |r| <= |s| && r == s[..|r|]
    ensures forall i :: |r| <= i < |s| ==> IsWhitespace(s[i])
    ensures r == [] || !IsWhitespace(r[|r| - 1])
    decreases |s|
  {
    if s != [] && IsWhitespace(s[|s| - 1]) then TrimEnd(s[..|s| - 1]) else s
  }

  /** `String.prototype.trim` over the fixed whitespace set. */
  function Trim(s: string): (r: string)
    ensures IsTrimmed(r)
    ensures IsTrimmed(s) ==> r == s
    ensures r == [] <==> forall i :: 0 <= i < |s| ==> IsWhitespace(s[i])
  {
    TrimBothEnds(s);
    TrimEnd(TrimStart(s))
  }

  /** What trimming the front and then the back leaves. */
  lemma TrimBothEnds(s: string)
    ensures IsTrimmed(TrimEnd(TrimStart(s)))
    ensures TrimEnd(TrimStart(s)) == [] <==> forall i :: 0 <= i < |s| ==> IsWhitespace(s[i])
  {
    var t := TrimStart(s);
    var r := TrimEnd(t);
    assert r != [] ==> r[0] == t[0];
    assert t != [] ==> t[0] == s[|s| - |t|];
  }

  /** Trimming keeps any pattern absence: the result is a slice of `s`. */
  lemma TrimKeepsAbsence(s: string, pat: string)
    requires !Contains(s, pat)
    ensures !Contains(Trim(s), pat)
  {
    var t := TrimStart(s);
    var r := Trim(s);
    assert r == TrimEnd(t);
    assert r == t[0..|r|];
    assert t == s[|s| - |t|..|s|];
    forall i | 0 <= i <= |r| ensures !OccursAt(r, pat, i) {
      OccursInSlice(t, pat, 0, |r|, i);
      OccursInSlice(s, pat, |s| - |t|, |s|, i);
    }
  }

  // ---------------------------------------------------------------------
  // The cleaning chain and the blank guard
  // ---------------------------------------------------------------------

  /**
   * `s.replace(/```json/g, '').replace(/```/g, '').trim()`: no fence
   * survives, and the result has no surrounding whitespace.
   */
  function CleanFences(s: string): (r: string)
    ensures !Contains(r, Fence)
    ensures IsTrimmed(r)
    ensures |r| <= |s|
  {
    var once := RemoveAll(s, JsonFence);
    RemoveFenceLeavesNone(once);
    TrimKeepsAbsence(RemoveAll(once, Fence), Fence);
    Trim(RemoveAll(once, Fence))
  }

  /** `!s.trim()`: the text is empty once trimmed, that is, it is all whitespace. */
  predicate IsBlank(s: string): (b: bool)
    ensures b <==> forall i :: 0 <= i < |s| ==> IsWhitespace(s[i])
  {
    Trim(s) == []
  }

  /** Cleaning twice is cleaning once. */
  lemma CleanIdempotent(s: string)
    ensures CleanFences(CleanFences(s)) == CleanFences(s)
  {
    var c := CleanFences(s);
    if Contains(c, JsonFence) {
      JsonFenceHasFence(c);
    }
    RemoveAllAbsent(c, JsonFence);
    RemoveAllAbsent(c, Fence);
  }

  /** Trimmed text without backticks is left as it is by cleaning. */
  lemma CleanKeepsBare(s: string)
    requires forall k :: 0 <= k < |s| ==> s[k] != '`'
    requires IsTrimmed(s)
    ensures CleanFences(s) == s
  {
    RemoveAllSkipsPrefix(s, [], JsonFence);
    RemoveAllSkipsPrefix(s, [], Fence);
    assert s + [] == s;
  }

  /** Text with no backtick, between two newlines. */
  lemma NoTicksBetweenNewlines(s: string)
    requires forall k :: 0 <= k < |s| ==> s[k] != '`'
    ensures forall k :: 0 <= k < |"\n" + s + "\n"| ==> ("\n" + s + "\n")[k] != '`'
  {
    var inner := "\n" + s + "\n";
    forall k | 0 <= k < |inner| ensures inner[k] != '`' {
      if k == 0 || k == |inner| - 1 {
      } else {
        assert inner[k] == s[k - 1];
      }
    }
  }

  /** First pass: the leading "```json" goes, the closing fence stays. */
  lemma FirstPassOfFenced(inner: string)
    requires forall k :: 0 <= k < |inner| ==> inner[k] != '`'
    ensures RemoveAll(JsonFence + inner + Fence, JsonFence) == inner + Fence
  {
    var rest := inner + Fence;
    assert JsonFence + inner + Fence == JsonFence + rest;
    RemoveAllAfterMatch(JsonFence, rest);
    RemoveAllSkipsPrefix(inner, Fence, JsonFence);
    ShorterAbsent(Fence, JsonFence);
    RemoveAllAbsent(Fence, JsonFence);
  }

  /** Second pass: the closing fence goes. */
  lemma SecondPassOfFenced(inner: string)
    requires forall k :: 0 <= k < |inner| ==> inner[k] != '`'
    ensures RemoveAll(inner + Fence, Fence) == inner
  {
    RemoveAllSkipsPrefix(inner, Fence, Fence);
    assert RemoveAll(Fence, Fence) == [] by { assert Fence[3..] == []; }
    assert inner + [] == inner;
  }

  /** Trimming strips the two newlines around trimmed text. */
  lemma TrimNewlines(s: string)
    requires IsTrimmed(s)
    ensures Trim("\n" + s + "\n") == s
  {
    var inner := "\n" + s + "\n";
    if s == [] {
      assert inner == "\n\n";
    } else {
      assert inner[1..] == s + "\n";
      assert (s + "\n")[0] == s[0];
      assert TrimStart(inner) == s + "\n";
      assert (s + "\n")[..|s|] == s;
      assert TrimEnd(s + "\n") == TrimEnd(s) == s;
    }
  }

  /** A payload wrapped in a json-tagged fence cleans to the bare payload. */
  lemma CleanFencedPayload(s: string)
    requires forall k :: 0 <= k < |s| ==> s[k] != '`'
    requires IsTrimmed(s)
    ensures CleanFences("```json\n" + s + "\n```") == s
  {
    var inner := "\n" + s + "\n";
    assert "```json\n" + s + "\n```" == JsonFence + inner + Fence;
    NoTicksBetweenNewlines(s);
    FirstPassOfFenced(inner);
    SecondPassOfFenced(inner);
    TrimNewlines(s);
  }
}
