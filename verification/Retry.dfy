/** retry.Do: attempts with back-off until success, an error not worth retrying, a cancelled
    context, or the last attempt. */
module Retry {
  import opened Wrappers

  /** What errors.Is and errors.As find in the chain of an error: a cancelled or expired context, a
      network error, an HTTP status, and a ProduceError with its retryable flag. */
  datatype Err = Err(canceled: bool, network: bool, status: Option<int>, produce: Option<bool>)

  const CONTEXT_ERROR := Err(true, false, None, None)

  predicate IsRetryable(e: Err) {
    if e.canceled then false
    else if e.network then true
    else if e.status.Some? then e.status.value >= 500 || e.status.value == 429
    else true
  }

  /** One pass of the loop: whether the context is done before the call, what the call returns, and
      whether the context ends the wait after it. */
  datatype Attempt = Attempt(doneBefore: bool, outcome: Option<Err>, doneAfter: bool)

  const DEFAULT_MAX_RETRIES := 3

  /** The loop from pass i on: the error returned, and how often the function was called in all. */
  function DoFrom(max: int, attempts: nat -> Attempt, i: nat, last: Option<Err>): (Option<Err>, nat)
    decreases max + 1 - i
  {
    if i > max then (last, i)
    else
      var a := attempts(i);
      if a.doneBefore then (Some(CONTEXT_ERROR), i)
      else if a.outcome == None then (None, i + 1)
      else if !IsRetryable(a.outcome.value) || i == max then (a.outcome, i + 1)
      else if a.doneAfter then (Some(CONTEXT_ERROR), i + 1)
      else DoFrom(max, attempts, i + 1, a.outcome)
  }

  function DoResult(max: int, attempts: nat -> Attempt): (Option<Err>, nat) {
    DoFrom(max, attempts, 0, None)
  }

  method Do(max: int, attempts: nat -> Attempt) returns (err: Option<Err>, calls: nat)
    ensures (err, calls) == DoResult(max, attempts)
  {
    var last: Option<Err> := None;
    var i := 0;
    while i <= max
      invariant DoResult(max, attempts) == DoFrom(max, attempts, i, last)
      decreases max + 1 - i
    {
      var a := attempts(i);
      if a.doneBefore {
        return Some(CONTEXT_ERROR), i;
      }
      if a.outcome == None {
        return None, i + 1;
      }
      last := a.outcome;
      if !IsRetryable(a.outcome.value) {
        return a.outcome, i + 1;
      }
      if i == max {
        return last, i + 1;
      }
      if a.doneAfter {
        return Some(CONTEXT_ERROR), i + 1;
      }
      i := i + 1;
    }
    return last, i;
  }

  /** Pass i failed with an error worth retrying and the context let the loop go on. */
  predicate Continues(attempts: nat -> Attempt, i: nat) {
    var a := attempts(i);
    !a.doneBefore && a.outcome.Some? && IsRetryable(a.outcome.value) && !a.doneAfter
  }

  /** The last call decides: success exactly if it succeeded; otherwise its own error, not worth
      retrying or from the last attempt allowed, or the context's. */
  ghost predicate Decided(max: int, attempts: nat -> Attempt, err: Option<Err>, calls: nat) {
    && calls <= max + 1
    && (forall j: nat :: j + 1 < calls ==> Continues(attempts, j))
    && (forall j: nat :: j < calls ==> !attempts(j).doneBefore)
    && (err == None <==> calls >= 1 && attempts(calls - 1).outcome == None && !attempts(calls - 1).doneBefore)
    && (err.Some? ==>
          || (err.value == CONTEXT_ERROR && calls <= max && attempts(calls).doneBefore)
          || (err.value == CONTEXT_ERROR && calls >= 1 && attempts(calls - 1).doneAfter)
          || (calls >= 1 && attempts(calls - 1).outcome == err && (!IsRetryable(err.value) || calls == max + 1)))
  }

  lemma {:induction false} DoFromExact(max: int, attempts: nat -> Attempt, i: nat, last: Option<Err>)
    requires i <= max && forall j: nat :: j < i ==> Continues(attempts, j) && !attempts(j).doneBefore
    ensures Decided(max, attempts, DoFrom(max, attempts, i, last).0, DoFrom(max, attempts, i, last).1)
    decreases max - i
  {
    if i > 0 {
      assert Continues(attempts, i - 1);
    }
    if Continues(attempts, i) && i < max {
      DoFromExact(max, attempts, i + 1, attempts(i).outcome);
    }
  }

  /** The context lives throughout, and every call fails with the same error. */
  ghost predicate AlwaysFails(attempts: nat -> Attempt, e: Err) {
    forall i: nat :: attempts(i) == Attempt(false, Some(e), false)
  }

  lemma {:induction false} CallsFrom(max: nat, attempts: nat -> Attempt, e: Err, i: nat, last: Option<Err>)
    requires AlwaysFails(attempts, e) && i <= max
    ensures DoFrom(max, attempts, i, last) == (Some(e), if IsRetryable(e) then max + 1 else i + 1)
    decreases max - i
  {
    if IsRetryable(e) && i < max {
      CallsFrom(max, attempts, e, i + 1, Some(e));
    }
  }

  /** Which errors are worth another call: a function that keeps failing is called max + 1 times for a
      network error, for HTTP 429 and from 500 on, and for an unknown error, permanent broker errors
      included; it is called once for a cancelled context and for any other HTTP status. */
  lemma CallsByError(max: nat, attempts: nat -> Attempt, status: int, produce: Option<bool>)
    ensures AlwaysFails(attempts, Err(false, false, Some(status), None)) ==>
              DoResult(max, attempts).1 == if status == 429 || status >= 500 then max + 1 else 1
    ensures AlwaysFails(attempts, Err(false, true, None, None)) ==> DoResult(max, attempts).1 == max + 1
    ensures AlwaysFails(attempts, Err(false, false, None, produce)) ==> DoResult(max, attempts).1 == max + 1
    ensures AlwaysFails(attempts, Err(true, false, None, None)) ==> DoResult(max, attempts).1 == 1
  {
    hide DoFrom, AlwaysFails;
    if AlwaysFails(attempts, Err(false, false, Some(status), None)) {
      CallsFrom(max, attempts, Err(false, false, Some(status), None), 0, None);
    }
    if AlwaysFails(attempts, Err(false, true, None, None)) {
      CallsFrom(max, attempts, Err(false, true, None, None), 0, None);
    }
    if AlwaysFails(attempts, Err(false, false, None, produce)) {
      CallsFrom(max, attempts, Err(false, false, None, produce), 0, None);
    }
    if AlwaysFails(attempts, Err(true, false, None, None)) {
      CallsFrom(max, attempts, Err(true, false, None, None), 0, None);
    }
  }

  /** For every configuration and every behaviour of the function and the context: each call is
      followed by another exactly if it failed with an error worth retrying, was not the last one
      allowed, and the context let the loop wait and go on; with a negative
      maximum the function is never called and the result is success. */
  lemma DoExact(max: int, attempts: nat -> Attempt)
    ensures max >= 0 ==> Decided(max, attempts, DoResult(max, attempts).0, DoResult(max, attempts).1)
    ensures forall i: nat :: i < DoResult(max, attempts).1 ==>
              !attempts(i).doneBefore
              && (i + 1 < DoResult(max, attempts).1 <==> Continues(attempts, i) && i < max && !attempts(i + 1).doneBefore)
    ensures max < 0 ==> DoResult(max, attempts) == (None, 0)
  {
    if max >= 0 {
      DoFromExact(max, attempts, 0, None);
      var (err, calls) := DoResult(max, attempts);
      forall i: nat | i < calls
        ensures !attempts(i).doneBefore
        ensures i + 1 < calls <==> Continues(attempts, i) && i < max && !attempts(i + 1).doneBefore
      {
        if i + 1 < calls {
          assert Continues(attempts, i) && !attempts(i + 1).doneBefore;
        } else {
          assert i == calls - 1;
        }
      }
    } else {
      assert DoResult(max, attempts) == (None, 0);
    }
  }
}
