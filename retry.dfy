/** The `retry(attempts, delay)` decorator: it invokes a fallible operation
    up to `attempts` times and returns the first success, re-raising the last
    failure once every attempt has failed. The wrapped operation is abstract:
    `op(i)` is what its i-th invocation (counting from 0) does. The delay
    between attempts and the diagnostics are not modelled. */
module Retrying {
  import opened Values

  /** What one invocation of the wrapped operation does. */
  datatype Attempt<+T, +E> = Succeeded(value: T) | Failed(error: E)

  /** What the decorated call does: return a value, raise the last failure,
      or, when no attempt was made, `raise None` (a TypeError in Python). */
  datatype Retried<+T, +E> = Returned(value: T) | Raised(error: E) | RaisedNone

  /** Runs the wrapped operation; `calls` is how many times it was invoked. */
  method Retry<T, E>(attempts: int, op: nat -> Attempt<T, E>) returns (r: Retried<T, E>, calls: nat)
    ensures calls <= if attempts > 0 then attempts else 0
    ensures forall j :: 0 <= j < calls - 1 ==> op(j).Failed?
    ensures r.Returned? <==> calls > 0 && op(calls - 1).Succeeded?
    ensures r.Returned? ==> r.value == op(calls - 1).value
    ensures !r.Returned? ==>
              calls == (if attempts > 0 then attempts else 0) && forall j :: 0 <= j < calls ==> op(j).Failed?
    ensures r.Raised? <==> attempts > 0 && !r.Returned?
    ensures r.Raised? ==> r.error == op(attempts - 1).error
    ensures r.RaisedNone? <==> attempts <= 0
  {
    var lastError: Option<E> := None;
    calls := 0;
    for i := 0 to if attempts > 0 then attempts else 0
      invariant calls == i
      invariant forall j :: 0 <= j < i ==> op(j).Failed?
      invariant lastError == (if i == 0 then None else Some(op(i - 1).error))
    {
      calls := calls + 1;
      match op(i)
      case Succeeded(v) =>
        return Returned(v), calls;
      case Failed(e) =>
        lastError := Some(e);
    }
    match lastError
    case Some(e) => r := Raised(e);
    case None => r := RaisedNone;
  }
}
