/** Facts about sequences and sets that several parts of the model need. */
module Collections {

  ghost predicate NoDuplicates<T>(s: seq<T>) {
    forall i, j :: 0 <= i < j < |s| ==> s[i] != s[j]
  }

  lemma {:induction false} SeqCardinality<T>(s: seq<T>)
    requires NoDuplicates(s)
    ensures |set x | x in s| == |s|
  {
    if s == [] {
    } else {
      var init, last := s[..|s| - 1], s[|s| - 1];
      SeqCardinality(init);
      assert s == init + [last];
      assert (set x | x in s) == (set x | x in init) + {last};
    }
  }

  lemma FewerMembers<T>(a: set<T>, b: set<T>)
    requires a <= b
    ensures |a| <= |b|
  {
    assert |b| == |a| + |b - a| by {
      assert a + (b - a) == b;
    }
  }

  lemma Regroup<T>(a: seq<T>, b: seq<T>, c: seq<T>)
    ensures a + (b + c) == (a + b) + c
  {
  }

  lemma TakeInto<T>(a: seq<T>, b: seq<T>, k: nat)
    requires k <= |b|
    ensures (a + b)[..|a| + k] == a + b[..k]
  {
  }

  lemma TakePart<T>(a: seq<T>, b: seq<T>, k: nat)
    requires k <= |a|
    ensures (a + b)[..k] == a[..k]
  {
  }

  lemma CutInThree<T>(s: seq<T>, i: nat, j: nat)
    requires i <= j <= |s|
    ensures s == s[..i] + s[i..j] + s[j..] && s[i..] == s[i..j] + s[j..]
  {
  }

  lemma AroundMiddle<T>(a: seq<T>, x: T, b: seq<T>)
    ensures var s := a + [x] + b;
            |s| == |a| + 1 + |b| && s[..|a|] == a && s[|a|] == x && s[|a| + 1..] == b
  {
  }

  /** A part of a part is a part of the whole. */
  lemma PartOfPart<T>(s: seq<T>, from: nat, to: nat, i: nat, j: nat)
    requires i <= j <= to - from && from <= to <= |s|
    ensures s[from..to][i..j] == s[from + i..from + j]
  {
    forall k | 0 <= k < j - i
      ensures s[from..to][i..j][k] == s[from + i..from + j][k]
    {
      assert s[from..to][i + k] == s[from + i + k];
    }
  }

  /** `s` is the end of `whole`. */
  ghost predicate EndOf<T>(s: seq<T>, whole: seq<T>) {
    |s| <= |whole| && s == whole[|whole| - |s|..]
  }

  lemma EndOfEnd<T>(a: seq<T>, b: seq<T>, c: seq<T>)
    requires EndOf(a, b) && EndOf(b, c)
    ensures EndOf(a, c)
  {
    assert c[|c| - |b|..][|b| - |a|..] == c[|c| - |a|..];
  }

  lemma EndSnoc<T>(s: seq<T>, whole: seq<T>, last: T)
    requires EndOf(s, whole)
    ensures EndOf(s + [last], whole + [last])
  {
  }
}
