/** Shared result types. */
module Prelude {

  datatype Option<+T> = None | Some(value: T)

  /** How an operation ends: normally, by throwing, or because the process dies under it. */
  datatype Outcome<+T> = Done(value: T) | Threw | Crashed {

    predicate IsFailure() {
      !Done?
    }

    function PropagateFailure<U>(): Outcome<U>
      requires !Done?
    {
      if Threw? then Threw else Crashed
    }

    function Extract(): T
      requires Done?
    {
      value
    }
  }

  /** What the environment does to the next primitive step. */
  datatype Fault = Proceed | ThrowNow | CrashNow

  lemma {:induction false} SubsetSize<T>(a: set<T>, b: set<T>)
    requires a <= b
    ensures |a| <= |b| && (|a| == |b| ==> a == b)
  {
    if a != {} {
      var x :| x in a;
      SubsetSize(a - {x}, b - {x});
    }
  }
}
