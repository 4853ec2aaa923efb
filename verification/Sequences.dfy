/** Sequences: grouping, and applying a function to every element. */
module Sequences {
  lemma Associate<T>(a: seq<T>, b: seq<T>, c: seq<T>)
    ensures a + b + c == a + (b + c)
  {
  }

  lemma WithoutAt<T>(s: seq<T>, i: nat, k: nat)
    requires i < |s| && k < |s| - 1
    ensures (s[..i] + s[i + 1..])[k] == s[if k < i then k else k + 1]
  {
  }

  lemma PrefixOfFirst<T>(a: seq<T>, b: seq<T>, n: nat)
    requires n <= |a|
    ensures (a + b)[..n] == a[..n]
  {
  }

  lemma PrefixOfSum<T>(a: seq<T>, b: seq<T>, n: nat)
    requires |a| <= n <= |a| + |b|
    ensures (a + b)[..n] == a + b[..n - |a|]
  {
  }

  /** std::views::transform. */
  function Transform<A, B>(f: A -> B, s: seq<A>): (r: seq<B>)
    ensures |r| == |s|
  {
    if s == [] then [] else [f(s[0])] + Transform(f, s[1..])
  }

  lemma {:induction false} TransformAt<A, B>(f: A -> B, s: seq<A>, i: nat)
    requires i < |s|
    ensures Transform(f, s)[i] == f(s[i])
  {
    if i > 0 {
      TransformAt(f, s[1..], i - 1);
    }
  }

  lemma {:induction false} TransformAppend<A, B>(f: A -> B, a: seq<A>, b: seq<A>)
    ensures Transform(f, a + b) == Transform(f, a) + Transform(f, b)
  {
    if a == [] {
      assert a + b == b;
    } else {
      assert (a + b)[0] == a[0] && (a + b)[1..] == a[1..] + b;
      TransformAppend(f, a[1..], b);
    }
  }
}
