/**
 Bytes, ASCII case folding and the leftmost folded occurrence of a keyword.

 File contents, read buffers and Rust strings are all `seq<Byte>`; a Rust `String` is one that is also
 `Utf8.Valid`.
 */
module Bytes {
  import opened Wrappers

  type Byte = b: int | 0 <= b < 256

  const LF: Byte := 10
  const CR: Byte := 13

  /** One more than the largest `u64`. */
  const U64_LIMIT: int := 0x1_0000_0000_0000_0000

  function Min(a: int, b: int): int {
    if a <= b then a else b
  }

  function Max(a: int, b: int): int {
    if a <= b then b else a
  }

  /** `saturating_sub` on unsigned integers. */
  function SaturatingSub(a: nat, b: nat): nat {
    if a <= b then 0 else a - b
  }

  /** The rest of `s` from byte `k` on. */
  function From(s: seq<Byte>, k: nat): (r: seq<Byte>)
    requires k <= |s|
    ensures |r| == |s| - k
    ensures forall i :: 0 <= i < |r| ==> r[i] == s[k + i]
  {
    if k == 0 then s else s[k..]
  }

  lemma FromTwice(s: seq<Byte>, j: nat, k: nat)
    requires j + k <= |s|
    ensures From(s, j)[k..] == From(s, j + k)
  {
  }

  function Fold(b: Byte, caseSensitive: bool): Byte {
    if !caseSensitive && 65 <= b <= 90 then b + 32 else b
  }

  function FoldAll(s: seq<Byte>, caseSensitive: bool): (r: seq<Byte>)
    ensures |r| == |s|
    ensures forall i :: 0 <= i < |s| ==> r[i] == Fold(s[i], caseSensitive)
  {
    if s == [] then [] else [Fold(s[0], caseSensitive)] + FoldAll(s[1..], caseSensitive)
  }

  predicate FoldEqual(a: seq<Byte>, b: seq<Byte>, caseSensitive: bool) {
    |a| == |b| && forall i :: 0 <= i < |a| ==> Fold(a[i], caseSensitive) == Fold(b[i], caseSensitive)
  }

  /** `needle` occurs in `haystack` at byte `i`, up to ASCII case when `caseSensitive` is false. */
  predicate OccursAt(haystack: seq<Byte>, needle: seq<Byte>, caseSensitive: bool, i: nat) {
    i + |needle| <= |haystack| && FoldEqual(haystack[i..i + |needle|], needle, caseSensitive)
  }

  /** An occurrence, byte by byte. */
  lemma OccursByByte(haystack: seq<Byte>, needle: seq<Byte>, caseSensitive: bool, i: nat)
    requires i + |needle| <= |haystack|
    ensures OccursAt(haystack, needle, caseSensitive, i)
       <==> forall k :: 0 <= k < |needle| ==> Fold(haystack[i + k], caseSensitive) == Fold(needle[k], caseSensitive)
  {
    var copy := haystack[i..i + |needle|];
    assert forall k :: 0 <= k < |needle| ==> copy[k] == haystack[i + k];
  }

  /** The same byte, or the two cases of one ASCII letter. */
  predicate SameLetter(a: Byte, b: Byte) {
    || a == b
    || ('A' as int <= a <= 'Z' as int && b - a == 'a' as int - 'A' as int)
    || ('A' as int <= b <= 'Z' as int && a - b == 'a' as int - 'A' as int)
  }

  /** What an occurrence is: the same bytes, or without regard to case the same up to the case of ASCII letters. */
  lemma OccursMeans(haystack: seq<Byte>, needle: seq<Byte>, i: nat)
    ensures OccursAt(haystack, needle, true, i)
       <==> i + |needle| <= |haystack| && haystack[i..i + |needle|] == needle
    ensures OccursAt(haystack, needle, false, i)
       <==> i + |needle| <= |haystack| && forall k :: 0 <= k < |needle| ==> SameLetter(haystack[i + k], needle[k])
  {
    if i + |needle| <= |haystack| {
      var copy := haystack[i..i + |needle|];
      OccursByByte(haystack, needle, false, i);
      assert forall k :: 0 <= k < |needle| ==> copy[k] == haystack[i + k];
      if OccursAt(haystack, needle, true, i) {
        forall k | 0 <= k < |needle|
          ensures copy[k] == needle[k]
        {
          assert Fold(copy[k], true) == Fold(needle[k], true);
        }
      }
      FoldMeans();
    }
  }

  lemma FoldMeans()
    ensures forall a: Byte, b: Byte :: Fold(a, false) == Fold(b, false) <==> SameLetter(a, b)
  {
  }

  /** The leftmost occurrence at or after `from`. */
  function FindFrom(haystack: seq<Byte>, needle: seq<Byte>, caseSensitive: bool, from: nat): (r: Option<nat>)
    ensures r.Some? ==> r.value + |needle| <= |haystack|
    decreases |haystack| - from
  {
    if from + |needle| > |haystack| then None
    else if OccursAt(haystack, needle, caseSensitive, from) then Some(from)
    else FindFrom(haystack, needle, caseSensitive, from + 1)
  }

  function FindFolded(haystack: seq<Byte>, needle: seq<Byte>, caseSensitive: bool): (r: Option<nat>)
    ensures r.Some? ==> r.value + |needle| <= |haystack|
  {
    if needle == [] then None else FindFrom(haystack, needle, caseSensitive, 0)
  }

  /** `at` is the leftmost occurrence. */
  ghost predicate Leftmost(haystack: seq<Byte>, needle: seq<Byte>, caseSensitive: bool, at: nat) {
    && OccursAt(haystack, needle, caseSensitive, at)
    && forall j: nat :: j < at ==> !OccursAt(haystack, needle, caseSensitive, j)
  }

  lemma {:induction false} FindFromIsLeftmost(haystack: seq<Byte>, needle: seq<Byte>, caseSensitive: bool, from: nat)
    ensures var r := FindFrom(haystack, needle, caseSensitive, from);
            && (r.Some? ==> from <= r.value && OccursAt(haystack, needle, caseSensitive, r.value))
            && (forall j: nat :: from <= j && (r.Some? ==> j < r.value) ==>
                   !OccursAt(haystack, needle, caseSensitive, j))
    decreases |haystack| - from
  {
    if from + |needle| > |haystack| || OccursAt(haystack, needle, caseSensitive, from) {
    } else {
      FindFromIsLeftmost(haystack, needle, caseSensitive, from + 1);
    }
  }

  /** The search finds the leftmost occurrence exactly when there is one. */
  lemma FindFoldedIsLeftmost(haystack: seq<Byte>, needle: seq<Byte>, caseSensitive: bool)
    requires needle != []
    ensures match FindFolded(haystack, needle, caseSensitive)
            case Some(at) => Leftmost(haystack, needle, caseSensitive, at)
            case None => forall j: nat :: !OccursAt(haystack, needle, caseSensitive, j)
  {
    FindFromIsLeftmost(haystack, needle, caseSensitive, 0);
  }

  lemma LeftmostIsFound(haystack: seq<Byte>, needle: seq<Byte>, caseSensitive: bool, at: nat)
    requires needle != [] && Leftmost(haystack, needle, caseSensitive, at)
    ensures FindFolded(haystack, needle, caseSensitive) == Some(at)
  {
    FindFoldedIsLeftmost(haystack, needle, caseSensitive);
  }

  /** Index of the first line feed, or the length when there is none. */
  function NewlineIndex(s: seq<Byte>): (n: nat)
    ensures n <= |s|
    ensures forall i :: 0 <= i < n ==> s[i] != LF
    ensures n < |s| ==> s[n] == LF
  {
    if s == [] || s[0] == LF then 0 else 1 + NewlineIndex(s[1..])
  }
}
