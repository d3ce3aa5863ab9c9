/** Removing from, and standing at a place of, a sequence. */
module Sequences {

  function Without<T>(s: seq<T>, i: nat): (r: seq<T>)
    requires i < |s|
    ensures |r| == |s| - 1
  {
    s[..i] + s[i + 1..]
  }

  predicate Distinct<T(==)>(s: seq<T>) {
    forall i, j :: 0 <= i < j < |s| ==> s[i] != s[j]
  }

  /** Where an element of the rest was. */
  lemma WithoutFrom<T>(s: seq<T>, k: nat, j: nat) returns (i: nat)
    requires k < |s| && j < |s| - 1
    ensures i == (if j < k then j else j + 1) && Without(s, k)[j] == s[i]
  {
    i := if j < k then j else j + 1;
  }

  /** Where an element that is kept goes. */
  lemma WithoutTo<T>(s: seq<T>, k: nat, i: nat) returns (j: nat)
    requires k < |s| && i < |s| && i != k
    ensures j == (if i < k then i else i - 1) && Without(s, k)[j] == s[i]
  {
    j := if i < k then i else i - 1;
  }

  /** `w` stands at `i` in `s`. */
  predicate At<T(==)>(s: seq<T>, i: nat, w: seq<T>) {
    i + |w| <= |s| && s[i..i + |w|] == w
  }

  lemma AtJoin<T>(s: seq<T>, i: nat, a: seq<T>, b: seq<T>)
    ensures At(s, i, a + b) <==> At(s, i, a) && At(s, i + |a|, b)
  {
    if At(s, i, a + b) {
      assert s[i..i + |a|] == s[i..i + |a + b|][..|a|];
      assert s[i + |a|..i + |a| + |b|] == s[i..i + |a + b|][|a|..];
    }
    if At(s, i, a) && At(s, i + |a|, b) {
      assert s[i..i + |a + b|] == s[i..i + |a|] + s[i + |a|..i + |a| + |b|];
    }
  }

  lemma AtHead<T>(s: seq<T>, i: nat, w: seq<T>)
    requires At(s, i, w) && |w| > 0
    ensures i < |s| && s[i] == w[0]
  {
    assert s[i..i + |w|][0] == s[i];
  }

  lemma AtEnd<T>(s: seq<T>, i: nat, w: seq<T>)
    requires At(s, i, w)
    ensures i + |w| <= |s|
  {
  }

  lemma Joined<T>(a: seq<T>, b: seq<T>, c: seq<T>)
    ensures a + (b + c) == (a + b) + c
  {
  }
}
