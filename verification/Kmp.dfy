/**
 The Knuth-Morris-Pratt automaton of the scanner: the failure table holds longest borders, and the
 matcher state after a prefix of the line is the longest pattern prefix that is a suffix of it.
 */
module Kmp {
  import opened Bytes

  /** The first `k` pattern bytes are the last `k` text bytes. */
  predicate PrefixIsSuffix(pattern: seq<Byte>, text: seq<Byte>, k: nat) {
    k <= |pattern| && k <= |text| && pattern[..k] == text[|text| - k..]
  }

  /** `k` is the longest pattern prefix, shorter than `bound`, that is a suffix of `text`. */
  ghost predicate LongestBelow(pattern: seq<Byte>, text: seq<Byte>, bound: nat, k: nat) {
    && k < bound
    && PrefixIsSuffix(pattern, text, k)
    && forall j: nat :: j < bound && PrefixIsSuffix(pattern, text, j) ==> j <= k
  }

  /** `failure[i]` is the length of the longest proper border of `pattern[..i + 1]`, for `i < n`. */
  ghost predicate FailureUpTo(pattern: seq<Byte>, failure: seq<nat>, n: nat) {
    && n <= |pattern| && n <= |failure|
    && forall i :: 0 <= i < n ==> LongestBelow(pattern, pattern[..i + 1], i + 1, failure[i])
  }

  ghost predicate FailureTable(pattern: seq<Byte>, failure: seq<nat>) {
    |failure| == |pattern| && FailureUpTo(pattern, failure, |pattern|)
  }

  lemma SuffixOfPrefix(pattern: seq<Byte>, text: seq<Byte>, k: nat, j: nat)
    requires PrefixIsSuffix(pattern, text, k) && j <= k
    ensures PrefixIsSuffix(pattern, text, j) <==> PrefixIsSuffix(pattern, pattern[..k], j)
  {
    assert pattern[..k][k - j..] == text[|text| - k..][k - j..] == text[|text| - j..];
  }

  lemma SuffixExtend(pattern: seq<Byte>, text: seq<Byte>, c: Byte, k: nat)
    ensures PrefixIsSuffix(pattern, text + [c], k + 1)
       <==> k < |pattern| && PrefixIsSuffix(pattern, text, k) && pattern[k] == c
  {
    var longer := text + [c];
    if k < |pattern| && k <= |text| {
      assert longer[|longer| - (k + 1)..] == text[|text| - k..] + [c];
      assert pattern[..k + 1] == pattern[..k] + [pattern[k]];
      if PrefixIsSuffix(pattern, longer, k + 1) {
        var left := pattern[..k] + [pattern[k]];
        var right := text[|text| - k..] + [c];
        assert left == right;
        assert left[..k] == right[..k];
        assert left[k] == right[k];
      }
    }
  }

  /** What the fallback loop of the matcher keeps: no longer candidate can be extended by `c`. */
  ghost predicate NoLongerCandidate(pattern: seq<Byte>, text: seq<Byte>, c: Byte, bound: nat, k: nat) {
    && k < bound <= |pattern|
    && PrefixIsSuffix(pattern, text, k)
    && forall j: nat :: k < j < bound && PrefixIsSuffix(pattern, text, j) ==> pattern[j] != c
  }

  lemma FallBack(pattern: seq<Byte>, text: seq<Byte>, c: Byte, bound: nat, k: nat, border: nat)
    requires k > 0 && NoLongerCandidate(pattern, text, c, bound, k) && pattern[k] != c
    requires LongestBelow(pattern, pattern[..k], k, border)
    ensures border < k && NoLongerCandidate(pattern, text, c, bound, border)
  {
    SuffixOfPrefix(pattern, text, k, border);
    forall j: nat | border < j < bound && PrefixIsSuffix(pattern, text, j)
      ensures pattern[j] != c
    {
      if j < k {
        SuffixOfPrefix(pattern, text, k, j);
      }
    }
  }

  /** After the fallback loop the state, one longer when `c` fits, is longest for the extended text. */
  lemma Extended(pattern: seq<Byte>, text: seq<Byte>, c: Byte, bound: nat, k: nat)
    requires NoLongerCandidate(pattern, text, c, bound, k)
    requires k == 0 || pattern[k] == c
    ensures LongestBelow(pattern, text + [c], bound + 1, if pattern[k] == c then k + 1 else 0)
  {
    var next := if pattern[k] == c then k + 1 else 0;
    SuffixExtend(pattern, text, c, k);
    assert next == 0 ==> pattern[..0] == (text + [c])[|text| + 1..];
    forall j: nat | j < bound + 1 && PrefixIsSuffix(pattern, text + [c], j)
      ensures j <= next
    {
      if j > 0 {
        SuffixExtend(pattern, text, c, j - 1);
      }
    }
  }

  /** The longest candidate is where the fallback loop begins. */
  lemma LongestIsCandidate(pattern: seq<Byte>, text: seq<Byte>, c: Byte, bound: nat, k: nat)
    requires bound <= |pattern| && LongestBelow(pattern, text, bound, k)
    ensures k < bound && NoLongerCandidate(pattern, text, c, bound, k)
  {
  }

  lemma NoBorderOfOne(pattern: seq<Byte>)
    requires |pattern| > 0
    ensures LongestBelow(pattern, pattern[..1], 1, 0)
  {
  }

  /** The failure table is the table of longest proper borders. */
  method BuildFailureTable(pattern: seq<Byte>) returns (failure: seq<nat>)
    requires |pattern| > 0
    ensures FailureTable(pattern, failure)
  {
    hide PrefixIsSuffix, LongestBelow, NoLongerCandidate;
    failure := seq(|pattern|, _ => 0);
    var prefixLen: nat := 0;
    NoBorderOfOne(pattern);
    for index := 1 to |pattern|
      invariant |failure| == |pattern|
      invariant FailureUpTo(pattern, failure, index)
      invariant prefixLen == failure[index - 1]
      invariant forall i :: index <= i < |pattern| ==> failure[i] == 0
    {
      var text := pattern[..index];
      var c := pattern[index];
      assert text + [c] == pattern[..index + 1];
      LongestIsCandidate(pattern, text, c, index, prefixLen);
      while prefixLen > 0 && c != pattern[prefixLen]
        invariant prefixLen < index
        invariant NoLongerCandidate(pattern, text, c, index, prefixLen)
      {
        FallBack(pattern, text, c, index, prefixLen, failure[prefixLen - 1]);
        prefixLen := failure[prefixLen - 1];
      }
      Extended(pattern, text, c, index, prefixLen);
      ghost var before := failure;
      if c == pattern[prefixLen] {
        prefixLen := prefixLen + 1;
        failure := failure[index := prefixLen];
      }
      assert forall i :: 0 <= i < index ==> failure[i] == before[i];
    }
  }

  /** One matcher step on a text that does not yet contain the pattern. */
  method Advance(pattern: seq<Byte>, failure: seq<nat>, ghost text: seq<Byte>, state: nat, c: Byte) returns (next: nat)
    requires |pattern| > 0 && FailureTable(pattern, failure)
    requires LongestBelow(pattern, text, |pattern|, state)
    ensures LongestBelow(pattern, text + [c], |pattern| + 1, next)
  {
    hide PrefixIsSuffix, LongestBelow, NoLongerCandidate;
    next := state;
    LongestIsCandidate(pattern, text, c, |pattern|, state);
    while next > 0 && pattern[next] != c
      invariant next < |pattern|
      invariant NoLongerCandidate(pattern, text, c, |pattern|, next)
    {
      FallBack(pattern, text, c, |pattern|, next, failure[next - 1]);
      next := failure[next - 1];
    }
    Extended(pattern, text, c, |pattern|, next);
    if pattern[next] == c {
      next := next + 1;
    }
  }
}
