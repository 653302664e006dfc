/**
 * numpy's `RandomState`, abstracted: the seed fixes a stream of raw draws,
 * and the generator's state is how many of them have been consumed.
 * `randint(lo, hi)` consumes one draw and maps it into `[lo, hi)`; how numpy
 * maps its internal state to integers is not modelled.
 */
module Random {

  /** Draw `at` of `stream`, as `randint(lo, hi)` returns it. */
  function DrawAt(stream: nat -> nat, lo: int, hi: int, at: nat): (v: int)
    requires lo < hi
    ensures lo <= v < hi
  {
    lo + stream(at) % (hi - lo)
  }

  /** After position `at`, some draw of `stream` is congruent to `v` modulo `m`. */
  ghost predicate Recurs(stream: nat -> nat, at: nat, v: nat, m: nat)
  {
    exists q: nat :: q >= at && m > 0 && stream(q) % m == v
  }

  /**
   * A stream in which every residue keeps recurring: whatever has been drawn,
   * each value of `randint(lo, hi)` is still drawn eventually.
   */
  ghost predicate Fair(stream: nat -> nat)
  {
    forall at: nat, v: nat, m: nat :: v < m ==> Recurs(stream, at, v, m)
  }

  class RandomState {
    /** The draws determined by the seed. */
    const stream: nat -> nat
    /** How many draws have been consumed. */
    var drawn: nat

    constructor (stream: nat -> nat)
      ensures this.stream == stream && drawn == 0
    {
      this.stream := stream;
      drawn := 0;
    }

    /** `randint(lo, hi)`. */
    method RandInt(lo: int, hi: int) returns (v: int)
      requires lo < hi
      modifies this
      ensures v == DrawAt(stream, lo, hi, old(drawn))
      ensures drawn == old(drawn) + 1
    {
      v := DrawAt(stream, lo, hi, drawn);
      drawn := drawn + 1;
    }

    /** `randint(lo, hi, size=size)`: `size` successive draws. */
    method RandInts(lo: int, hi: int, size: nat) returns (vs: seq<int>)
      requires lo < hi
      modifies this
      ensures |vs| == size
      ensures forall i :: 0 <= i < size ==> vs[i] == DrawAt(stream, lo, hi, old(drawn) + i)
      ensures drawn == old(drawn) + size
    {
      var from := drawn;
      vs := seq(size, i requires 0 <= i => DrawAt(stream, lo, hi, from + i));
      drawn := drawn + size;
    }
  }
}
