/** The bounded retry loop the HNS callers share: try up to `limit` times, going round again
 *  only while the attempt fails with an error the caller names as transient. */
module Retry {
  import opened Wrappers
  import opened Errors

  /** The index of the first attempt from `from` on that does not ask for another round (it
   *  succeeds, or fails with an error that is not transient), or `limit` if there is none. */
  function Settle<T>(attempt: nat -> Result<T, Error>, transient: Error -> bool, limit: nat, from: nat): (k: nat)
    requires from <= limit
    ensures from <= k <= limit
    ensures forall i :: from <= i < k ==> attempt(i).Failure? && transient(attempt(i).error)
    ensures k < limit ==> attempt(k).Success? || !transient(attempt(k).error)
    decreases limit - from
  {
    if from == limit then limit
    else if attempt(from).Success? || !transient(attempt(from).error) then from
    else Settle(attempt, transient, limit, from + 1)
  }

  /** The loop's result, with the number of attempts it made: the first success or lasting
   *  failure, or the last transient failure once the limit is spent. */
  function Loop<T>(attempt: nat -> Result<T, Error>, transient: Error -> bool, limit: nat): (r: (Result<T, Error>, nat))
    requires limit > 0
    ensures 1 <= r.1 <= limit && r.0 == attempt(r.1 - 1)
    ensures forall i :: 0 <= i < r.1 - 1 ==> attempt(i).Failure? && transient(attempt(i).error)
    ensures r.0.Failure? && transient(r.0.error) ==> r.1 == limit
  {
    var k := Settle(attempt, transient, limit, 0);
    if k < limit then (attempt(k), k + 1) else (attempt(limit - 1), limit)
  }

  /** The loop succeeds exactly when some attempt within the limit succeeds before any lasting
   *  failure; an attempt that is not made cannot influence it. */
  lemma {:induction false} LoopSucceedsIff<T>(attempt: nat -> Result<T, Error>, transient: Error -> bool, limit: nat)
    requires limit > 0
    ensures Loop(attempt, transient, limit).0.Success? <==>
              exists k :: 0 <= k < limit && attempt(k).Success?
                          && forall i :: 0 <= i < k ==> attempt(i).Failure? && transient(attempt(i).error)
  {
    var r := Loop(attempt, transient, limit);
    if exists k :: 0 <= k < limit && attempt(k).Success? && forall i :: 0 <= i < k ==> attempt(i).Failure? && transient(attempt(i).error) {
      var k :| 0 <= k < limit && attempt(k).Success? && forall i :: 0 <= i < k ==> attempt(i).Failure? && transient(attempt(i).error);
      assert r.1 - 1 <= k by {
        assert attempt(k).Success?;
      }
    }
    if r.0.Success? {
      assert 0 <= r.1 - 1 < limit;
    }
  }
}
