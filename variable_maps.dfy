/**
 * PHP ordered arrays with string keys, as used for the variable maps of the
 * template engine: a sequence of (key, value) entries in insertion order.
 */
module VariableMaps {
  import opened Options
  import opened Sequences

  type Entry = (string, string)

  /** The keys of `m`, in order. */
  function Keys(m: seq<Entry>): (ks: seq<string>)
    ensures |ks| == |m|
    ensures forall i :: 0 <= i < |m| ==> ks[i] == m[i].0
  {
    if m == [] then [] else [m[0].0] + Keys(m[1..])
  }

  /** A PHP array never holds the same key twice. */
  predicate UniqueKeys(m: seq<Entry>)
  {
    Distinct(Keys(m))
  }

  /** `array_key_exists(k, m)`. */
  predicate HasKey(m: seq<Entry>, k: string)
  {
    k in Keys(m)
  }

  /** `m[k]`: the value stored under `k`, or None when the key is absent. */
  function Get(m: seq<Entry>, k: string): (r: Option<string>)
    ensures r.Some? <==> HasKey(m, k)
    ensures r.Some? ==> (k, r.value) in m
  {
    if m == [] then None
    else if m[0].0 == k then Some(m[0].1)
    else Get(m[1..], k)
  }

  /**
   * `m[k] = v`: an existing key keeps its position and takes the new value,
   * a new key is appended at the end.
   */
  function Put(m: seq<Entry>, k: string, v: string): (r: seq<Entry>)
    ensures Keys(r) == if HasKey(m, k) then Keys(m) else Keys(m) + [k]
    ensures forall k' :: Get(r, k') == if k' == k then Some(v) else Get(m, k')
  {
    if m == [] then [(k, v)]
    else if m[0].0 == k then [(k, v)] + m[1..]
    else
      assert Keys(m) == [m[0].0] + Keys(m[1..]);
      [m[0]] + Put(m[1..], k, v)
  }

  /**
   * `array_merge(base, over)` for string keys: the entries of `over` are
   * written into `base` one after the other.
   */
  function Merge(base: seq<Entry>, over: seq<Entry>): seq<Entry>
    decreases |over|
  {
    if over == [] then base else Merge(Put(base, over[0].0, over[0].1), over[1..])
  }

  /** The keys of `ks` that are not in `excluded`, in their order. */
  function Fresh(ks: seq<string>, excluded: seq<string>): (r: seq<string>)
    ensures forall k :: k in r <==> k in ks && k !in excluded
  {
    if ks == [] then []
    else if ks[0] in excluded then Fresh(ks[1..], excluded)
    else [ks[0]] + Fresh(ks[1..], excluded)
  }

  /** Caller entries win: a key of `over` takes its value from `over`, any other key keeps the one in `base`. */
  lemma {:induction false} MergeGet(base: seq<Entry>, over: seq<Entry>, k: string)
    requires UniqueKeys(over)
    ensures Get(Merge(base, over), k) == if HasKey(over, k) then Get(over, k) else Get(base, k)
    decreases |over|
  {
    if over != [] {
      var k0, v0 := over[0].0, over[0].1;
      assert Keys(over) == [k0] + Keys(over[1..]);
      assert UniqueKeys(over[1..]);
      MergeGet(Put(base, k0, v0), over[1..], k);
    }
  }

  lemma {:induction false} FreshIgnoresAbsentKey(ks: seq<string>, excluded: seq<string>, k: string)
    requires k !in ks
    ensures Fresh(ks, excluded + [k]) == Fresh(ks, excluded)
  {
    if ks != [] {
      FreshIgnoresAbsentKey(ks[1..], excluded, k);
    }
  }

  /**
   * The merged map lists the keys of `base` first, in their original
   * positions, followed by the new keys of `over` in the order `over` gives them.
   */
  lemma {:induction false} MergeKeyOrder(base: seq<Entry>, over: seq<Entry>)
    requires UniqueKeys(over)
    ensures Keys(Merge(base, over)) == Keys(base) + Fresh(Keys(over), Keys(base))
    decreases |over|
  {
    if over == [] {
      assert Keys(base) + [] == Keys(base);
    } else {
      var baseKeys, k0, v0 := Keys(base), over[0].0, over[0].1;
      var next := Put(base, k0, v0);
      var rest := Keys(over[1..]);
      assert Keys(over) == [k0] + rest;
      assert UniqueKeys(over[1..]);
      MergeKeyOrder(next, over[1..]);
      FreshCons(k0, rest, baseKeys);
      if !HasKey(base, k0) {
        assert k0 !in rest;
        FreshIgnoresAbsentKey(rest, baseKeys, k0);
        ConcatAssoc(baseKeys, [k0], Fresh(rest, baseKeys));
      }
    }
  }

  lemma FreshCons(k: string, ks: seq<string>, excluded: seq<string>)
    ensures Fresh([k] + ks, excluded) == if k in excluded then Fresh(ks, excluded) else [k] + Fresh(ks, excluded)
  {
    assert ([k] + ks)[1..] == ks;
  }

  /** Merging two PHP arrays yields a PHP array again: no key is listed twice. */
  lemma {:induction false} MergeKeepsKeysUnique(base: seq<Entry>, over: seq<Entry>)
    requires UniqueKeys(base)
    ensures UniqueKeys(Merge(base, over))
    decreases |over|
  {
    if over != [] {
      var next := Put(base, over[0].0, over[0].1);
      assert UniqueKeys(next);
      MergeKeepsKeysUnique(next, over[1..]);
    }
  }
}
