/** Sequence helpers shared by the modules: concatenation of batches and sorted distinct values. */
module Seqs {

  /** The elements of a sequence, as a set. */
  function Elems<T>(s: seq<T>): set<T> { set x | x in s }

  /** Concatenation of a sequence of batches, in order. */
  function Flatten<T>(ss: seq<seq<T>>): seq<T>
  {
    if ss == [] then [] else Flatten(ss[..|ss| - 1]) + ss[|ss| - 1]
  }

  lemma FlattenAppend<T>(ss: seq<seq<T>>, s: seq<T>)
    ensures Flatten(ss + [s]) == Flatten(ss) + s
  {
    assert (ss + [s])[..|ss|] == ss;
  }

  /** The concatenation of all batches is that of the first `j` followed by that of the rest. */
  lemma {:induction false} FlattenSplit<T>(ss: seq<seq<T>>, j: nat)
    requires j <= |ss|
    ensures Flatten(ss) == Flatten(ss[..j]) + Flatten(ss[j..])
  {
    if j < |ss| {
      var init := ss[..|ss| - 1];
      FlattenSplit(init, j);
      assert init[..j] == ss[..j];
      assert ss[j..] == init[j..] + [ss[|ss| - 1]];
      FlattenAppend(init[j..], ss[|ss| - 1]);
    } else {
      assert ss[..j] == ss;
      assert ss[j..] == [];
    }
  }

  lemma {:induction false} FlattenLength<T>(ss: seq<seq<T>>, lens: seq<nat>)
    requires |lens| == |ss| && forall i :: 0 <= i < |ss| ==> |ss[i]| == lens[i]
    ensures |Flatten(ss)| == SumNat(lens)
  {
    if ss != [] {
      FlattenLength(ss[..|ss| - 1], lens[..|lens| - 1]);
    }
  }

  function SumNat(s: seq<nat>): nat
  {
    if s == [] then 0 else SumNat(s[..|s| - 1]) + s[|s| - 1]
  }

  /** An element is in the concatenation exactly when it is in one of the batches. */
  lemma {:induction false} InFlatten<T>(ss: seq<seq<T>>, x: T)
    ensures x in Flatten(ss) <==> exists k :: 0 <= k < |ss| && x in ss[k]
  {
    if ss != [] {
      var init := ss[..|ss| - 1];
      InFlatten(init, x);
      if x in Flatten(ss) && x !in ss[|ss| - 1] {
        var k :| 0 <= k < |init| && x in init[k];
        assert x in ss[k];
      }
      if exists k :: 0 <= k < |ss| && x in ss[k] {
        var k :| 0 <= k < |ss| && x in ss[k];
        if k < |ss| - 1 {
          assert x in init[k];
        }
      }
    }
  }

  predicate StrictlyIncreasing(s: seq<int>)
  {
    forall i, j :: 0 <= i < j < |s| ==> s[i] < s[j]
  }

  /** Inserts `x` into a strictly increasing sequence, unless it is already there. */
  function Insert(s: seq<int>, x: int): seq<int>
  {
    if s == [] then [x]
    else if x < s[0] then [x] + s
    else if x == s[0] then s
    else [s[0]] + Insert(s[1..], x)
  }

  lemma {:induction false} InsertSorted(s: seq<int>, x: int)
    requires StrictlyIncreasing(s)
    ensures StrictlyIncreasing(Insert(s, x))
    ensures forall y :: y in Insert(s, x) <==> y in s || y == x
    ensures Elems(Insert(s, x)) == Elems(s) + {x}
  {
    if s != [] && x > s[0] {
      var rest := Insert(s[1..], x);
      InsertSorted(s[1..], x);
      assert forall y :: y in s <==> y == s[0] || y in s[1..];
      forall k | 0 <= k < |rest|
        ensures s[0] < rest[k]
      {
        assert rest[k] in rest;
        if rest[k] != x {
          var j :| 0 <= j < |s[1..]| && s[1..][j] == rest[k];
          assert s[j + 1] == rest[k];
        }
      }
    }
  }

  /**
   * `sorted(set(xs))`: the distinct values of `xs` in increasing order; also
   * the values `np.unique` returns.
   */
  function SortedDistinct(xs: seq<int>): (r: seq<int>)
    ensures StrictlyIncreasing(r)
    ensures Elems(r) == Elems(xs)
  {
    if xs == [] then []
    else
      var init := xs[..|xs| - 1];
      assert Elems(xs) == Elems(init) + {xs[|xs| - 1]} by {
        assert xs == init + [xs[|xs| - 1]];
      }
      InsertSorted(SortedDistinct(init), xs[|xs| - 1]);
      Insert(SortedDistinct(init), xs[|xs| - 1])
  }
}
