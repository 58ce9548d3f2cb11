/**
 Lossy UTF-8 decoding as Rust strings do it: well-formed sequences per section 4 of RFC 3629, and one
 replacement character for every maximal subpart of an ill-formed sequence (section 3.9 of the Unicode
 Standard). A decoded string is again a byte sequence, namely its own UTF-8 encoding.
 */
module Utf8 {
  import opened Bytes
  import opened Collections

  /** U+FFFD in UTF-8. */
  const REPLACEMENT: seq<Byte> := [0xEF, 0xBF, 0xBD]

  predicate Continuation(b: Byte) {
    0x80 <= b <= 0xBF
  }

  /** Which second bytes may follow a three- or four-byte leader (RFC 3629 section 4). */
  predicate SecondAllowed(leader: Byte, second: Byte) {
    Continuation(second)
    && (leader == 0xE0 ==> 0xA0 <= second)
    && (leader == 0xED ==> second <= 0x9F)
    && (leader == 0xF0 ==> 0x90 <= second)
    && (leader == 0xF4 ==> second <= 0x8F)
  }

  /** How many bytes the next step takes, and whether they are a well-formed character. */
  datatype Unit = Unit(length: nat, wellFormed: bool)

  function FirstUnit(s: seq<Byte>): (u: Unit)
    requires s != []
    ensures 1 <= u.length <= |s| && u.length <= 4
    ensures !u.wellFormed ==> u.length <= 3
  {
    var leader := s[0];
    if leader < 0x80 then Unit(1, true)
    else if 0xC2 <= leader <= 0xDF then
      if |s| > 1 && Continuation(s[1]) then Unit(2, true) else Unit(1, false)
    else if 0xE0 <= leader <= 0xEF then
      if |s| > 1 && SecondAllowed(leader, s[1]) then
        if |s| > 2 && Continuation(s[2]) then Unit(3, true) else Unit(2, false)
      else Unit(1, false)
    else if 0xF0 <= leader <= 0xF4 then
      if |s| > 1 && SecondAllowed(leader, s[1]) then
        if |s| > 2 && Continuation(s[2]) then
          if |s| > 3 && Continuation(s[3]) then Unit(4, true) else Unit(3, false)
        else Unit(2, false)
      else Unit(1, false)
    else Unit(1, false)
  }

  predicate Valid(s: seq<Byte>) {
    s == [] || (FirstUnit(s).wellFormed && Valid(s[FirstUnit(s).length..]))
  }

  function Lossy(s: seq<Byte>): seq<Byte> {
    if s == [] then []
    else
      var u := FirstUnit(s);
      (if u.wellFormed then s[..u.length] else REPLACEMENT) + Lossy(s[u.length..])
  }

  /** `str::is_char_boundary`. */
  predicate CharBoundary(s: seq<Byte>, i: nat) {
    i == 0 || i == |s| || (i < |s| && !Continuation(s[i]))
  }

  /** No character can straddle the start of `s`. */
  predicate StartsUnit(s: seq<Byte>) {
    s == [] || !Continuation(s[0])
  }

  lemma ValidStartsUnit(s: seq<Byte>)
    requires Valid(s)
    ensures StartsUnit(s)
  {
  }

  lemma FirstUnitAppend(a: seq<Byte>, b: seq<Byte>)
    requires a != []
    requires FirstUnit(a).wellFormed || StartsUnit(b)
    ensures FirstUnit(a + b) == FirstUnit(a)
  {
  }

  /** A string in front changes nothing about what follows it. */
  lemma {:induction false} ValidAppend(a: seq<Byte>, b: seq<Byte>)
    requires Valid(a)
    ensures Valid(a + b) <==> Valid(b)
  {
    if a == [] {
      assert a + b == b;
    } else {
      var n := FirstUnit(a).length;
      FirstUnitAppend(a, b);
      ValidAppend(a[n..], b);
      SliceAppend(a, b, n);
    }
  }

  lemma {:induction false} LossyKeepsString(a: seq<Byte>, b: seq<Byte>)
    requires Valid(a)
    ensures Lossy(a + b) == a + Lossy(b)
  {
    if a == [] {
      assert a + b == b;
    } else {
      var n := FirstUnit(a).length;
      LossyKeepsString(a[n..], b);
      FirstUnitAppend(a, b);
      calc {
        Lossy(a + b);
        { LossyStep(a + b, n, true); SliceAppend(a, b, n); }
        a[..n] + Lossy(a[n..] + b);
        a[..n] + (a[n..] + Lossy(b));
        { Regroup(a[..n], a[n..], Lossy(b)); }
        (a[..n] + a[n..]) + Lossy(b);
        { assert a[..n] + a[n..] == a; }
        a + Lossy(b);
      }
    }
  }

  /** Lossy decoding distributes over a split at which no character can straddle. */
  lemma {:induction false} LossySplit(a: seq<Byte>, b: seq<Byte>)
    requires StartsUnit(b)
    ensures Lossy(a + b) == Lossy(a) + Lossy(b)
  {
    if a == [] {
      assert a + b == b;
    } else {
      var u := FirstUnit(a);
      LossySplit(a[u.length..], b);
      LossyHead(a, b, u.length, u.wellFormed);
    }
  }

  lemma LossyHead(a: seq<Byte>, b: seq<Byte>, n: nat, wellFormed: bool)
    requires a != [] && FirstUnit(a) == Unit(n, wellFormed)
    requires wellFormed || StartsUnit(b)
    requires Lossy(a[n..] + b) == Lossy(a[n..]) + Lossy(b)
    ensures Lossy(a + b) == Lossy(a) + Lossy(b)
  {
    FirstUnitAppend(a, b);
    var head := if wellFormed then a[..n] else REPLACEMENT;
    calc {
      Lossy(a + b);
      { LossyStep(a + b, n, wellFormed); SliceAppend(a, b, n); }
      head + Lossy(a[n..] + b);
      head + (Lossy(a[n..]) + Lossy(b));
      { Regroup(head, Lossy(a[n..]), Lossy(b)); }
      (head + Lossy(a[n..])) + Lossy(b);
      { LossyStep(a, n, wellFormed); }
      Lossy(a) + Lossy(b);
    }
  }

  lemma SliceAppend(a: seq<Byte>, b: seq<Byte>, n: nat)
    requires n <= |a|
    ensures (a + b)[n..] == a[n..] + b && (a + b)[..n] == a[..n]
  {
  }

  lemma LossyStep(s: seq<Byte>, n: nat, wellFormed: bool)
    requires s != [] && FirstUnit(s) == Unit(n, wellFormed)
    ensures Lossy(s) == (if wellFormed then s[..n] else REPLACEMENT) + Lossy(s[n..])
    ensures Valid(s) <==> wellFormed && Valid(s[n..])
  {
  }

  lemma {:induction false} ValidSplit(a: seq<Byte>, b: seq<Byte>)
    requires StartsUnit(b)
    ensures Valid(a + b) <==> Valid(a) && Valid(b)
  {
    if a == [] {
      assert a + b == b;
    } else {
      var n := FirstUnit(a).length;
      FirstUnitAppend(a, b);
      ValidSplit(a[n..], b);
      assert (a + b)[n..] == a[n..] + b;
    }
  }

  /** The replacement text is at most three times as long; this is the query layer's expansion factor. */
  lemma {:induction false} LossyExpansion(s: seq<Byte>)
    ensures |Lossy(s)| <= 3 * |s|
  {
    if s == [] {
    } else {
      LossyExpansion(s[FirstUnit(s).length..]);
    }
  }

  /** Lossy decoding always yields a string. */
  lemma {:induction false} LossyIsValid(s: seq<Byte>)
    ensures Valid(Lossy(s))
  {
    if s == [] {
    } else {
      var u := FirstUnit(s);
      var head := if u.wellFormed then s[..u.length] else REPLACEMENT;
      LossyIsValid(s[u.length..]);
      HeadIsValid(s);
      ValidAppend(head, Lossy(s[u.length..]));
    }
  }

  /** Lossy decoding leaves strings alone, and nothing else. */
  lemma LossyFixesStrings(s: seq<Byte>)
    ensures Valid(s) <==> Lossy(s) == s
  {
    LossyIsValid(s);
    if Valid(s) {
      LossyKeepsString(s, []);
      assert s + [] == s;
    }
  }

  lemma HeadIsValid(s: seq<Byte>)
    requires s != []
    ensures FirstUnit(s).wellFormed ==> Valid(s[..FirstUnit(s).length])
    ensures Valid(REPLACEMENT)
  {
    var n := FirstUnit(s).length;
    var head := s[..n];
    assert FirstUnit(s).wellFormed ==> FirstUnit(head) == Unit(n, true);
    assert head[n..] == [];
    assert FirstUnit(REPLACEMENT) == Unit(3, true);
    assert REPLACEMENT[3..] == [];
  }

  /** Char boundaries are exactly the places where a string may be cut into two strings. */
  lemma {:induction false} BoundarySplits(s: seq<Byte>, i: nat)
    requires Valid(s) && i <= |s|
    ensures CharBoundary(s, i) <==> Valid(s[..i]) && Valid(s[i..])
  {
    assert s[..i] + s[i..] == s;
    if CharBoundary(s, i) {
      if i == 0 {
        assert s[i..] == s;
      } else {
        ValidSplit(s[..i], s[i..]);
      }
    } else if Valid(s[i..]) {
      ValidStartsUnit(s[i..]);
      assert false;
    }
  }

  /** Folding ASCII case moves no character boundary and spoils no string. */
  lemma FoldKeepsUnits(a: seq<Byte>, b: seq<Byte>, caseSensitive: bool)
    requires FoldEqual(a, b, caseSensitive) && a != []
    ensures FirstUnit(a) == FirstUnit(b)
  {
    assert forall i :: 0 <= i < |a| ==> (a[i] >= 0x80 || b[i] >= 0x80 ==> a[i] == b[i]) by {
      forall i | 0 <= i < |a|
        ensures a[i] >= 0x80 || b[i] >= 0x80 ==> a[i] == b[i]
      {
        assert Fold(a[i], caseSensitive) == Fold(b[i], caseSensitive);
      }
    }
  }

  lemma {:induction false} FoldKeepsValid(a: seq<Byte>, b: seq<Byte>, caseSensitive: bool)
    requires FoldEqual(a, b, caseSensitive)
    ensures Valid(a) <==> Valid(b)
  {
    if a == [] {
    } else {
      FoldKeepsUnits(a, b, caseSensitive);
      var n := FirstUnit(a).length;
      FoldKeepsValid(a[n..], b[n..], caseSensitive);
    }
  }

  /** A fold-equal copy of a string keyword survives lossy decoding, wherever it stands. */
  lemma KeywordSurvivesLossy(s: seq<Byte>, keyword: seq<Byte>, caseSensitive: bool, at: nat)
    requires Valid(keyword) && keyword != []
    requires OccursAt(s, keyword, caseSensitive, at)
    ensures OccursAt(Lossy(s), keyword, caseSensitive, |Lossy(s[..at])|)
  {
    hide Valid, Lossy;
    var copy := s[at..at + |keyword|];
    FoldKeepsValid(copy, keyword, caseSensitive);
    CutInThree(s, at, at + |keyword|);
    CopySurvives(s[..at], copy, s[at + |keyword|..], keyword, caseSensitive);
  }

  lemma CopySurvives(before: seq<Byte>, copy: seq<Byte>, after: seq<Byte>, keyword: seq<Byte>, caseSensitive: bool)
    requires Valid(copy) && copy != [] && FoldEqual(copy, keyword, caseSensitive)
    ensures OccursAt(Lossy(before + copy + after), keyword, caseSensitive, |Lossy(before)|)
  {
    LossyAround(before, copy, after);
    OccursBetween(Lossy(before), copy, Lossy(after), keyword, caseSensitive);
  }

  lemma OccursBetween(a: seq<Byte>, b: seq<Byte>, c: seq<Byte>, keyword: seq<Byte>, caseSensitive: bool)
    requires FoldEqual(b, keyword, caseSensitive)
    ensures |a + b + c| >= |a| + |keyword|
    ensures OccursAt(a + b + c, keyword, caseSensitive, |a|)
  {
    assert (a + b + c)[|a|..|a| + |b|] == b;
  }

  lemma LossyAround(before: seq<Byte>, middle: seq<Byte>, after: seq<Byte>)
    requires Valid(middle) && middle != []
    ensures Lossy(before + middle + after) == Lossy(before) + middle + Lossy(after)
  {
    ValidStartsUnit(middle);
    assert (middle + after)[0] == middle[0];
    Regroup(before, middle, after);
    LossySplit(before, middle + after);
    LossyKeepsString(middle, after);
    Regroup(Lossy(before), middle, Lossy(after));
  }

  /** A keyword copy inside a string begins and ends at char boundaries. */
  lemma KeywordOnBoundaries(text: seq<Byte>, keyword: seq<Byte>, caseSensitive: bool, at: nat)
    requires Valid(text) && Valid(keyword) && keyword != []
    requires OccursAt(text, keyword, caseSensitive, at)
    ensures CharBoundary(text, at) && CharBoundary(text, at + |keyword|)
  {
    hide Valid;
    var copy, after := text[at..at + |keyword|], text[at + |keyword|..];
    FoldKeepsValid(copy, keyword, caseSensitive);
    ValidStartsUnit(copy);
    assert !Continuation(text[at]);
    BoundarySplits(text, at);
    CutInThree(text, at, at + |keyword|);
    ValidAppend(copy, after);
    ValidStartsUnit(after);
  }

  // ---------- against the tables of the standards ----------

  /** One character, row by row as in the table of RFC 3629 section 4. */
  predicate Character(c: seq<Byte>) {
    || (|c| == 1 && c[0] <= 0x7F)
    || (|c| == 2 && 0xC2 <= c[0] <= 0xDF && Continuation(c[1]))
    || (|c| == 3 && c[0] == 0xE0 && 0xA0 <= c[1] <= 0xBF && Continuation(c[2]))
    || (|c| == 3 && (0xE1 <= c[0] <= 0xEC || 0xEE <= c[0] <= 0xEF) && Continuation(c[1]) && Continuation(c[2]))
    || (|c| == 3 && c[0] == 0xED && 0x80 <= c[1] <= 0x9F && Continuation(c[2]))
    || (|c| == 4 && c[0] == 0xF0 && 0x90 <= c[1] <= 0xBF && Continuation(c[2]) && Continuation(c[3]))
    || (|c| == 4 && 0xF1 <= c[0] <= 0xF3 && Continuation(c[1]) && Continuation(c[2]) && Continuation(c[3]))
    || (|c| == 4 && c[0] == 0xF4 && 0x80 <= c[1] <= 0x8F && Continuation(c[2]) && Continuation(c[3]))
  }

  /** The first `k` bytes are the beginning of some character, and not all of it. */
  ghost predicate BeginsCharacter(s: seq<Byte>, k: nat)
    requires k <= |s|
  {
    exists c: seq<Byte> :: Character(c) && k < |c| && c[..k] == s[..k]
  }

  /** A step is well formed exactly when the bytes begin with a character, and then takes that character. */
  lemma UnitIsCharacter(s: seq<Byte>)
    requires s != []
    ensures FirstUnit(s).wellFormed ==> Character(s[..FirstUnit(s).length])
    ensures forall n: nat :: n <= |s| && Character(s[..n]) ==> FirstUnit(s) == Unit(n, true)
  {
    forall n: nat | n <= |s| && Character(s[..n])
      ensures FirstUnit(s) == Unit(n, true)
    {
      var c := s[..n];
      assert forall i :: 0 <= i < n ==> c[i] == s[i];
    }
  }

  /** An ill-formed step takes the maximal subpart: the longest beginning of a character, or one byte. */
  lemma IllFormedUnitIsMaximal(s: seq<Byte>)
    requires s != [] && !FirstUnit(s).wellFormed
    ensures FirstUnit(s).length == 1 || BeginsCharacter(s, FirstUnit(s).length)
    ensures forall k: nat :: k <= |s| && BeginsCharacter(s, k) ==> k <= FirstUnit(s).length
  {
    var length := FirstUnit(s).length;
    if length > 1 {
      var c := s[..length] + if s[0] >= 0xF0 && length == 2 then [0x80, 0x80] else [0x80];
      assert Character(c) && c[..length] == s[..length];
    }
    forall k: nat | k <= |s| && BeginsCharacter(s, k)
      ensures k <= length
    {
      var c: seq<Byte> :| Character(c) && k < |c| && c[..k] == s[..k];
      assert forall i :: 0 <= i < k ==> c[i] == c[..k][i] == s[..k][i] == s[i];
    }
  }

  /** The encoding of a code point in three bytes (section 3 of RFC 3629). */
  function ThreeBytes(codePoint: nat): seq<int> {
    [0xE0 + codePoint / 0x1000, 0x80 + codePoint / 0x40 % 0x40, 0x80 + codePoint % 0x40]
  }

  /** No beginning of `s` is a character, and the longest that begins one has `k` bytes, or is one byte alone. */
  ghost predicate MaximalSubpart(s: seq<Byte>, k: nat) {
    && 0 < k <= |s|
    && (forall n: nat :: n <= |s| ==> !Character(s[..n]))
    && (k == 1 || BeginsCharacter(s, k))
    && forall n: nat :: k < n <= |s| ==> !BeginsCharacter(s, n)
  }

  /**
   Lossy decoding keeps every character of the table and puts U+FFFD in the place of every maximal subpart of an
   ill-formed sequence.
   */
  lemma LossyByTable(s: seq<Byte>, k: nat)
    requires k <= |s|
    ensures Character(s[..k]) ==> Lossy(s) == s[..k] + Lossy(s[k..])
    ensures MaximalSubpart(s, k) ==> Lossy(s) == ThreeBytes(0xFFFD) + Lossy(s[k..])
  {
    hide FirstUnit, Lossy, Character, BeginsCharacter;
    if s != [] {
      UnitIsCharacter(s);
      var u := FirstUnit(s);
      LossyStep(s, u.length, u.wellFormed);
      if MaximalSubpart(s, k) {
        IllFormedUnitIsMaximal(s);
        assert u.length == k;
      }
    } else {
      NoCharacter();
    }
  }

  lemma NoCharacter()
    ensures !Character([])
  {
  }
}
