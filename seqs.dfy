/** Small facts about concatenation and slicing, stated for any element
    type so that the solver never looks inside the elements. */
module Seqs {
  lemma ConcatAssoc<T>(a: seq<T>, b: seq<T>, c: seq<T>)
    ensures (a + b) + c == a + (b + c)
  {
  }

  lemma ConcatParts<T>(a: seq<T>, b: seq<T>)
    ensures |a + b| == |a| + |b|
    ensures (a + b)[..|a|] == a
    ensures forall i :: 0 <= i < |a| ==> (a + b)[i] == a[i]
    ensures forall i :: |a| <= i < |a| + |b| ==> (a + b)[i] == b[i - |a|]
  {
  }

  lemma TakeOneMore<T>(s: seq<T>, i: nat)
    requires i < |s|
    ensures s[..i + 1] == s[..i] + [s[i]]
  {
  }

  lemma AppendNothing<T>(s: seq<T>)
    ensures s + [] == s
  {
  }

  lemma PrependNothing<T>(s: seq<T>)
    ensures [] + s == s
  {
  }

  lemma TakeAll<T>(s: seq<T>)
    ensures s[..|s|] == s
  {
  }

  lemma PrefixOfConcat<T>(a: seq<T>, b: seq<T>, k: nat)
    requires k <= |a|
    ensures (a + b)[..k] == a[..k]
  {
  }

  /** Where the elements of `front + [last]` sit. */
  lemma AppendLast<T>(whole: seq<T>, front: seq<T>, last: T)
    requires whole == front + [last]
    ensures |whole| == |front| + 1 && whole[|front|] == last
    ensures forall i :: 0 <= i < |front| ==> whole[i] == front[i]
  {
  }

  /** Where the elements of `a + b + c` sit. */
  lemma ThreeParts<T>(s: seq<T>, a: seq<T>, b: seq<T>, c: seq<T>)
    requires s == a + b + c
    requires c != []
    ensures |s| == |a| + |b| + |c|
    ensures s[..|a|] == a
    ensures forall i :: |a| <= i < |a| + |b| ==> s[i] == b[i - |a|]
    ensures forall i :: |a| + |b| <= i < |s| ==> s[i] == c[i - (|a| + |b|)]
    ensures s[..|a| + |b| + 1] == a + b + [c[0]]
  {
    assert s[..|a| + |b| + 1] == (a + b) + [c[0]];
  }
}
