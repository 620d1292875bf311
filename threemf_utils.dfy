/**
 * IncrementalIdFactory: hands out resource ids from `from` in steps of
 * `step`, refusing once the counter has gone below the bound `to`.
 */
module ThreeMfUtils {
  import opened Wrappers

  /** Number.MIN_SAFE_INTEGER, the default bound. */
  const MinSafeInteger: int := -9007199254740991

  /** The k-th id handed out since the last reset. */
  function IdAt(from: int, step: int, k: nat): int {
    from + k * step
  }

  /** With a positive step the ids handed out between resets strictly increase, so no two are equal. */
  lemma IdsIncrease(from: int, step: int, j: nat, k: nat)
    requires step > 0 && j < k
    ensures IdAt(from, step, j) < IdAt(from, step, k)
  {
    assert k * step - j * step == (k - j) * step;
  }

  class IncrementalIdFactory {
    const from: int
    const to: int
    const step: int
    var i: int
    /** The ids handed out since construction or the last reset, in order. */
    ghost var issued: seq<int>

    /** The counter is the next id of the run that began at `from`. */
    ghost predicate Valid()
      reads this
    {
      i == IdAt(from, step, |issued|) && forall k :: 0 <= k < |issued| ==> issued[k] == IdAt(from, step, k)
    }

    constructor (from: int, to: int, step: int)
      ensures this.from == from && this.to == to && this.step == step
      ensures i == from && issued == [] && Valid()
    {
      this.from := from;
      this.to := to;
      this.step := step;
      i := from;
      issued := [];
    }

    /** `new IncrementalIdFactory()`: from 0, bound Number.MIN_SAFE_INTEGER, step 1. */
    constructor Default()
      ensures from == 0 && to == MinSafeInteger && step == 1
      ensures i == 0 && issued == [] && Valid()
    {
      from := 0;
      to := MinSafeInteger;
      step := 1;
      i := 0;
      issued := [];
    }

    /**
     * next(): the current counter, then the counter moves on by `step`; when
     * the counter is below the bound, an error and no change at all.
     */
    method Next() returns (r: Result<int>)
      requires Valid()
      modifies this
      ensures Valid()
      ensures old(i) < to ==> r.Err? && i == old(i) && issued == old(issued)
      ensures old(i) >= to ==> r == Ok(old(i)) && i == old(i) + step && issued == old(issued) + [old(i)]
    {
      if i < to {
        return Err("ST_ResourceID out of bound");
      }
      var v := i;
      i := i + step;
      issued := issued + [v];
      assert IdAt(from, step, |issued|) == IdAt(from, step, |old(issued)|) + step;
      return Ok(v);
    }

    /** reset(): back to `from`, returning the same factory. */
    method Reset() returns (self: IncrementalIdFactory)
      modifies this
      ensures self == this && i == from && issued == [] && Valid()
    {
      i := from;
      issued := [];
      return this;
    }
  }

  /**
   * The default factory's counter after k ids is k, never below its bound,
   * so (by Next's contract and Valid) it never refuses while counting up.
   */
  lemma DefaultNeverRefuses(k: nat)
    ensures IdAt(0, 1, k) == k && IdAt(0, 1, k) >= MinSafeInteger
  {
  }
}
