/** `_retry_operation`: up to `maxRetries` invocations of one store
    operation, retrying only on connection and timeout errors. The backoff
    sleep between attempts takes no part in the result and is not modelled.

    The operation's behaviour is given as the faults it raises on its first
    invocations, followed by `final`, what it yields once one invocation gets
    through. */
module Retry {
  import opened Base

  /** What the helper gives its caller: the operation's value, the exception
      it re-raises, or Python's `None` when the loop never ran. */
  datatype Retried<+T> = Returned(value: T) | Reraised(fault: Fault) | NothingReturned

  /** The helper's result and how many times it invoked the operation. */
  datatype Run<+T> = Run(result: Retried<T>, calls: nat)

  /** The result of the operation's `i`-th invocation (from 0). */
  function AttemptResult<T>(faults: seq<Fault>, final: Outcome<T>, i: nat): Outcome<T> {
    if i < |faults| then Raised(faults[i]) else final
  }

  /** The `i`-th invocation raised a fault the helper retries. */
  predicate FailsRetryably<T>(faults: seq<Fault>, final: Outcome<T>, i: int) {
    i >= 0 && AttemptResult(faults, final, i).Raised? && Retryable(AttemptResult(faults, final, i).fault)
  }

  /** Faults the helper is able to mask: fewer than it has attempts, and all
      of them retryable. */
  predicate Recovers(maxRetries: nat, faults: seq<Fault>) {
    |faults| < maxRetries && forall i :: 0 <= i < |faults| ==> Retryable(faults[i])
  }

  /** The loop from attempt number `attempt` on. */
  function RetryFrom<T>(maxRetries: nat, faults: seq<Fault>, final: Outcome<T>, attempt: nat): (r: Run<T>)
    requires attempt <= maxRetries
    ensures attempt <= r.calls <= maxRetries
    ensures r.result.NothingReturned? <==> attempt == maxRetries
    ensures r.result.NothingReturned? ==> r.calls == attempt
    ensures !r.result.NothingReturned? ==> r.calls > attempt
    ensures forall i :: attempt <= i < r.calls - 1 ==> FailsRetryably(faults, final, i)
    ensures r.result.Returned? ==> AttemptResult(faults, final, r.calls - 1) == Ok(r.result.value)
    ensures r.result.Reraised? ==>
      && AttemptResult(faults, final, r.calls - 1) == Raised(r.result.fault)
      && (!Retryable(r.result.fault) || r.calls == maxRetries)
    decreases maxRetries - attempt
  {
    if attempt == maxRetries then Run(NothingReturned, attempt)
    else
      match AttemptResult(faults, final, attempt)
      case Ok(v) => Run(Returned(v), attempt + 1)
      case Raised(f) =>
        if !Retryable(f) || attempt == maxRetries - 1 then Run(Reraised(f), attempt + 1)
        else RetryFrom(maxRetries, faults, final, attempt + 1)
  }

  /** The whole helper. The operation runs at most `maxRetries` times; the
      first success is returned at once; every invocation but the last failed
      with a retryable fault, and the last one's fault is re-raised. */
  function Retry<T>(maxRetries: nat, faults: seq<Fault>, final: Outcome<T>): (r: Run<T>)
    ensures r.calls <= maxRetries
    ensures r.result.NothingReturned? <==> maxRetries == 0
    ensures r.result.Returned? <==> Recovers(maxRetries, faults) && final.Ok?
    ensures r.result.Returned? ==> r.result.value == final.value && r.calls == |faults| + 1
    ensures r.result.Reraised? ==>
      && 1 <= r.calls
      && AttemptResult(faults, final, r.calls - 1) == Raised(r.result.fault)
      && (forall i :: 0 <= i < r.calls - 1 ==> FailsRetryably(faults, final, i))
      && (!Retryable(r.result.fault) || r.calls == maxRetries)
  {
    ClosedForm(maxRetries, faults, final);
    RetryFrom(maxRetries, faults, final, 0)
  }

  /** When a whole run returns, and when it must. */
  lemma ClosedForm<T>(maxRetries: nat, faults: seq<Fault>, final: Outcome<T>)
    ensures var r := RetryFrom(maxRetries, faults, final, 0);
      (r.result.Returned? <==> Recovers(maxRetries, faults) && final.Ok?) &&
      (r.result.Returned? ==> r.calls == |faults| + 1)
  {
    var r := RetryFrom(maxRetries, faults, final, 0);
    if r.result.Returned? {
      assert r.calls - 1 >= |faults|;
      forall i | 0 <= i < |faults| ensures Retryable(faults[i]) {
        assert FailsRetryably(faults, final, i);
      }
    }
    assert r.result.Returned? && r.calls - 1 > |faults| ==> FailsRetryably(faults, final, |faults|);
    assert Recovers(maxRetries, faults) && r.result.Reraised? && r.calls - 1 < |faults| ==>
      FailsRetryably(faults, final, r.calls - 1);
  }

  /** Faults the helper masks leave no trace: the caller sees what a healthy
      store would have given. */
  lemma RetryMasksTransientFaults<T>(maxRetries: nat, faults: seq<Fault>, final: Outcome<T>)
    requires Recovers(maxRetries, faults)
    ensures Retry(maxRetries, faults, final).result == Retry(maxRetries, [], final).result
  {
    var r := Retry(maxRetries, faults, final);
    var h := Retry(maxRetries, [], final);
    if final.Raised? {
      assert r.calls - 1 < |faults| ==> FailsRetryably(faults, final, r.calls - 1);
      assert r.calls - 1 >= |faults|;
      assert AttemptResult(faults, final, r.calls - 1) == final;
      assert AttemptResult([], final, h.calls - 1) == final;
    }
  }

  /** With every attempt failing retryably, the helper gives up after exactly
      `maxRetries` invocations and re-raises the last fault. */
  lemma RetryGivesUp<T>(maxRetries: nat, faults: seq<Fault>, final: Outcome<T>)
    requires 1 <= maxRetries <= |faults|
    requires forall i :: 0 <= i < maxRetries ==> Retryable(faults[i])
    ensures Retry(maxRetries, faults, final) == Run(Reraised(faults[maxRetries - 1]), maxRetries)
  {
    var r := Retry(maxRetries, faults, final);
    assert r.calls == maxRetries;
  }
}
