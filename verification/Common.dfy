// Small datatypes shared by every module of the model.
module Common {

  datatype Option<+T> = None | Some(value: T) {
    function GetOr(default: T): T {
      if Some? then value else default
    }
  }

  datatype Result<+T, +E> = Ok(value: T) | Err(error: E) {
    predicate IsFailure() {
      Err?
    }

    function PropagateFailure<U>(): Result<U, E>
      requires Err?
    {
      Err(error)
    }

    function Extract(): T
      requires Ok?
    {
      value
    }
  }

  // How a stretch of fault-prone code ended: normally, with an exception, or with
  // the death of the process.  After Dead nothing of the program runs any more.
  datatype Outcome = Done | Raised | Dead {
    predicate IsFailure() {
      !Done?
    }

    function PropagateFailure(): Outcome
      requires !Done?
    {
      this
    }
  }

  // A slice of a slice.
  lemma SliceOfSlice<T>(s: seq<T>, k: nat, n: nat, i: nat, j: nat)
    requires k + n <= |s| && i <= j <= n
    ensures s[k..k + n][i..j] == s[k + i..k + j]
  {
    var a, b := s[k..k + n][i..j], s[k + i..k + j];
    assert |a| == |b| && forall m | 0 <= m < |a| :: a[m] == b[m];
  }
}
