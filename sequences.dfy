/** Generic facts about sequences used by the template engine. */
module Sequences {

  /** No element occurs twice. */
  predicate Distinct<T(==)>(s: seq<T>)
  {
    forall i, j :: 0 <= i < j < |s| ==> s[i] != s[j]
  }

  /** `a` is obtained from `b` by deleting elements, keeping the order of the rest. */
  predicate IsSubsequence<T(==)>(a: seq<T>, b: seq<T>)
    decreases |b|
  {
    if b == [] then a == []
    else
      (a != [] && a[|a| - 1] == b[|b| - 1] && IsSubsequence(a[..|a| - 1], b[..|b| - 1]))
      || IsSubsequence(a, b[..|b| - 1])
  }

  /** Position of the first occurrence of `x` in `s`. */
  function FirstIndex<T(==)>(s: seq<T>, x: T): (k: nat)
    requires x in s
    ensures k < |s| && s[k] == x && x !in s[..k]
  {
    if s[0] == x then 0 else 1 + FirstIndex(s[1..], x)
  }

  /**
   * Keeps the first occurrence of every element and drops the later ones,
   * as PHP's `array_unique` does with the values of a list.
   */
  function Dedup<T(==,!new)>(s: seq<T>): (r: seq<T>)
    ensures Distinct(r)
    ensures forall x :: x in r <==> x in s
    decreases |s|
  {
    if s == [] then []
    else
      var init, last := s[..|s| - 1], s[|s| - 1];
      assert forall x :: x in s <==> x in init || x == last;
      if last in init then Dedup(init) else Dedup(init) + [last]
  }

  lemma {:induction false} FirstIndexOfPrefix<T>(a: seq<T>, b: seq<T>, x: T)
    requires x in a
    ensures FirstIndex(a + b, x) == FirstIndex(a, x)
  {
    if a[0] != x {
      assert (a + b)[1..] == a[1..] + b;
      FirstIndexOfPrefix(a[1..], b, x);
    }
  }

  /** The survivors of `Dedup` come in the order in which they first occur in the input. */
  lemma {:induction false} DedupKeepsFirstSeenOrder<T(!new)>(s: seq<T>)
    ensures forall i, j :: 0 <= i < j < |Dedup(s)| ==>
      FirstIndex(s, Dedup(s)[i]) < FirstIndex(s, Dedup(s)[j])
  {
    if s != [] {
      var init, last := s[..|s| - 1], s[|s| - 1];
      assert s == init + [last];
      DedupKeepsFirstSeenOrder(init);
      var d := Dedup(init);
      forall y | y in init
        ensures FirstIndex(s, y) == FirstIndex(init, y)
      {
        FirstIndexOfPrefix(init, [last], y);
      }
      if last !in init {
        assert FirstIndex(s, last) == |s| - 1;
      }
    }
  }

  /**
   * The keys `array_unique` keeps: each kept value stays under its original
   * key, the position of its first occurrence, so the keys may have gaps.
   */
  function KeptKeys<T(==,!new)>(s: seq<T>): (keys: seq<nat>)
    ensures |keys| == |Dedup(s)|
    ensures forall i :: 0 <= i < |keys| ==>
      keys[i] < |s| && s[keys[i]] == Dedup(s)[i] && Dedup(s)[i] !in s[..keys[i]]
    ensures forall i, j :: 0 <= i < j < |keys| ==> keys[i] < keys[j]
  {
    DedupKeepsFirstSeenOrder(s);
    seq(|Dedup(s)|, i requires 0 <= i < |Dedup(s)| => FirstIndex(s, Dedup(s)[i]))
  }

  /** Concatenation regrouped; the solver does not always find this step by itself. */
  lemma ConcatAssoc<T>(a: seq<T>, b: seq<T>, c: seq<T>)
    ensures a + b + c == a + (b + c)
  {
  }

  /** A common head keeps one sequence a prefix of another. */
  lemma PrefixUnderHead<T>(h: seq<T>, p: seq<T>, q: seq<T>)
    requires p <= q
    ensures h + p <= h + q
  {
    assert (h + q)[..|h + p|] == h + p;
  }

  /** A slice that lies inside `a` is not affected by what is appended to `a`. */
  lemma SliceOfAppend<T>(a: seq<T>, c: seq<T>, i: nat, j: nat)
    requires i <= j <= |a|
    ensures (a + c)[i..j] == a[i..j]
  {
  }

  lemma DropOfAppend<T>(a: seq<T>, c: seq<T>, i: nat)
    requires i <= |a|
    ensures (a + c)[i..] == a[i..] + c
  {
  }
}
