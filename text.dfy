/**
 * String operations the editor code borrows from the .NET runtime:
 * ordinal prefix and substring tests, lower-casing, and splitting a
 * path on '/'. Strings are sequences of characters.
 */
module Text {

  /** `p` is a prefix of `s` (String.StartsWith, ordinal). */
  predicate StartsWith(s: string, p: string) {
    |p| <= |s| && s[..|p|] == p
  }

  /** `p` occurs in `s` starting at index `i`. */
  predicate OccursAt(s: string, p: string, i: int) {
    0 <= i && i + |p| <= |s| && s[i..i + |p|] == p
  }

  /** Ordinal substring test, as String.Contains(string): try every start position in turn. */
  predicate Contains(s: string, p: string)
    decreases |s|
  {
    StartsWith(s, p) || (|s| > 0 && Contains(s[1..], p))
  }

  /** Contains is exactly "there is a position where `p` occurs". */
  lemma {:induction false} ContainsIffOccurs(s: string, p: string)
    ensures Contains(s, p) <==> exists i :: OccursAt(s, p, i)
    decreases |s|
  {
    if Contains(s, p) {
      if StartsWith(s, p) {
        assert OccursAt(s, p, 0);
      } else {
        ContainsIffOccurs(s[1..], p);
        var i :| OccursAt(s[1..], p, i);
        assert s[1..][i..i + |p|] == s[i + 1..i + 1 + |p|];
        assert OccursAt(s, p, i + 1);
      }
    }
    if exists i :: OccursAt(s, p, i) {
      var i :| OccursAt(s, p, i);
      if i == 0 {
        assert StartsWith(s, p);
      } else {
        assert s[1..][i - 1..i - 1 + |p|] == s[i..i + |p|];
        assert OccursAt(s[1..], p, i - 1);
        ContainsIffOccurs(s[1..], p);
      }
    }
  }

  /** A string contains each of its prefixes. */
  lemma PrefixIsContained(s: string, p: string)
    requires StartsWith(s, p)
    ensures Contains(s, p)
  {
  }

  /** Lower-casing of one character; only the ASCII letters A-Z change. */
  function LowerChar(c: char): (r: char)
    ensures 'A' <= c <= 'Z' ==> 'a' <= r <= 'z'
    ensures !('A' <= c <= 'Z') ==> r == c
  {
    if 'A' <= c <= 'Z' then (c as int - 'A' as int + 'a' as int) as char else c
  }

  /** String.ToLower, restricted to ASCII: lower-cases every character in place. */
  function Lower(s: string): (r: string)
    ensures |r| == |s|
    ensures forall i :: 0 <= i < |s| ==> r[i] == LowerChar(s[i])
  {
    if s == [] then [] else [LowerChar(s[0])] + Lower(s[1..])
  }

  /** A string without upper-case ASCII letters is its own lower case. */
  predicate IsLowerCase(s: string) {
    forall i :: 0 <= i < |s| ==> !('A' <= s[i] <= 'Z')
  }

  lemma LowerOfLowerCase(s: string)
    requires IsLowerCase(s)
    ensures Lower(s) == s
  {
  }

  /** Lower-casing twice is lower-casing once. */
  lemma LowerIdempotent(s: string)
    ensures IsLowerCase(Lower(s))
    ensures Lower(Lower(s)) == Lower(s)
  {
  }

  /** Lower-casing distributes over concatenation. */
  lemma LowerAppend(a: string, b: string)
    ensures Lower(a + b) == Lower(a) + Lower(b)
  {
  }

  /** Case-insensitive substring test: both sides lower-cased, then Contains. */
  predicate ContainsIgnoreCase(s: string, p: string) {
    Contains(Lower(s), Lower(p))
  }

  /** `p` occurs in `s` at index `i` when case is ignored, character by character. */
  predicate OccursAtIgnoreCase(s: string, p: string, i: int) {
    0 <= i && i + |p| <= |s| && forall j :: 0 <= j < |p| ==> LowerChar(s[i + j]) == LowerChar(p[j])
  }

  /** The case-insensitive test finds `p` exactly where its characters match `s` up to case. */
  lemma ContainsIgnoreCaseIffOccurs(s: string, p: string)
    ensures ContainsIgnoreCase(s, p) <==> exists i :: OccursAtIgnoreCase(s, p, i)
    ensures forall i :: OccursAt(Lower(s), Lower(p), i) <==> OccursAtIgnoreCase(s, p, i)
  {
    ContainsIffOccurs(Lower(s), Lower(p));
    forall i ensures OccursAt(Lower(s), Lower(p), i) <==> OccursAtIgnoreCase(s, p, i) {
      if 0 <= i && i + |p| <= |s| {
        var w := Lower(s)[i..i + |p|];
        assert forall j :: 0 <= j < |p| ==> w[j] == LowerChar(s[i + j]);
        if OccursAtIgnoreCase(s, p, i) {
          assert forall j :: 0 <= j < |p| ==> w[j] == Lower(p)[j];
          assert w == Lower(p);
        }
      }
    }
  }

  /**
   * String.Split(new string[]{"/"}, StringSplitOptions.None): the pieces of
   * `s` between slashes, empty pieces kept. Built from the end of `s`, one
   * character at a time.
   */
  function Split(s: string): (segs: seq<string>)
    ensures |segs| >= 1
    decreases |s|
  {
    if s == [] then [""]
    else
      var init := Split(s[..|s| - 1]);
      if s[|s| - 1] == '/' then init + [""]
      else init[..|init| - 1] + [init[|init| - 1] + [s[|s| - 1]]]
  }

  /** Each segment followed by "/", all concatenated: the loop `acc += seg + "/"`. */
  function JoinEach(segs: seq<string>): string {
    if segs == [] then "" else JoinEach(segs[..|segs| - 1]) + segs[|segs| - 1] + "/"
  }

  /** Re-joining the pieces of a split, each followed by "/", gives `s` followed by "/". */
  lemma {:induction false} SplitRoundTrip(s: string)
    ensures JoinEach(Split(s)) == s + "/"
    decreases |s|
  {
    if s != [] {
      var t, c := s[..|s| - 1], s[|s| - 1];
      assert s == t + [c];
      SplitRoundTrip(t);
      var init := Split(t);
      if c == '/' {
        assert Split(s)[..|init|] == init;
      } else {
        var front, last := init[..|init| - 1], init[|init| - 1];
        var segs := Split(s);
        assert segs[..|front|] == front;
        assert init[..|front|] == front;
        assert JoinEach(segs) == JoinEach(front) + (last + [c]) + "/";
        assert JoinEach(init) == JoinEach(front) + last + "/";
        assert JoinEach(front) + last == (t + "/")[..|t|] == t;
      }
    }
  }

  /** No piece of a split holds a slash. */
  lemma {:induction false} SplitPiecesHaveNoSlash(s: string)
    ensures forall k :: 0 <= k < |Split(s)| ==> '/' !in Split(s)[k]
    decreases |s|
  {
    if s != [] {
      var t, c := s[..|s| - 1], s[|s| - 1];
      SplitPiecesHaveNoSlash(t);
      var init := Split(t);
      var segs := Split(s);
      if c == '/' {
        assert forall k :: 0 <= k < |init| ==> segs[k] == init[k];
        assert segs[|init|] == "";
      } else {
        assert forall k :: 0 <= k < |init| - 1 ==> segs[k] == init[k];
        assert segs[|init| - 1] == init[|init| - 1] + [c];
        assert '/' !in init[|init| - 1];
      }
    }
  }

  /** The prefix of `s` up to and including its last '/', or "" when `s` has no '/'. */
  function PrefixThroughLastSlash(s: string): string
    decreases |s|
  {
    if s == [] then ""
    else if s[|s| - 1] == '/' then s
    else PrefixThroughLastSlash(s[..|s| - 1])
  }

  /**
   * What PrefixThroughLastSlash means: a prefix of `s` that is empty or ends
   * in '/', after which no '/' follows.
   */
  lemma {:induction false} PrefixThroughLastSlashSpec(s: string)
    ensures var r := PrefixThroughLastSlash(s);
      StartsWith(s, r) &&
      (r == "" || r[|r| - 1] == '/') &&
      '/' !in s[|r|..]
    decreases |s|
  {
    if s != [] && s[|s| - 1] != '/' {
      var t := s[..|s| - 1];
      PrefixThroughLastSlashSpec(t);
      var r := PrefixThroughLastSlash(t);
      assert s[..|r|] == t[..|r|];
      assert s[|r|..] == t[|r|..] + [s[|s| - 1]];
    }
  }

  /**
   * The loop of GetTargetPath: re-joining every segment of the split except
   * the last, each followed by '/', gives the prefix through the last '/'.
   */
  lemma {:induction false} JoinAllButLastSegment(s: string)
    ensures JoinEach(Split(s)[..|Split(s)| - 1]) == PrefixThroughLastSlash(s)
    decreases |s|
  {
    if s != [] {
      var t := s[..|s| - 1];
      var init := Split(t);
      if s[|s| - 1] == '/' {
        assert Split(s)[..|Split(s)| - 1] == init;
        SplitRoundTrip(t);
        assert t + "/" == s;
      } else {
        assert Split(s)[..|Split(s)| - 1] == init[..|init| - 1];
        JoinAllButLastSegment(t);
      }
    }
  }
}
