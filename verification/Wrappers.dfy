/** Option, and the outcome of an operation that may reach a failing assertion. */
module Wrappers {

  datatype Option<+T> = None | Some(value: T)

  /** Abort: `ogs_assert` or `ogs_assert_if_reached` fired, and the process is gone. */
  datatype Outcome<+T> = Abort | Done(value: T)
  {
    predicate IsFailure() {
      Abort?
    }

    function PropagateFailure<U>(): Outcome<U>
      requires Abort?
    {
      Abort
    }

    function Extract(): T
      requires Done?
    {
      value
    }
  }

  ghost predicate NoDuplicates<T>(s: seq<T>) {
    forall i, j :: 0 <= i < j < |s| ==> s[i] != s[j]
  }

  /** `s` without the element `x`; the others keep their order. */
  function Without<T(==, !new)>(s: seq<T>, x: T): (r: seq<T>)
    ensures forall y :: y in r <==> y in s && y != x
    ensures NoDuplicates(s) ==> NoDuplicates(r)
  {
    if s == [] then []
    else
      var rest := Without(s[1..], x);
      assert forall y :: y in s <==> y == s[0] || y in s[1..];
      assert NoDuplicates(s) ==> NoDuplicates(s[1..]) && s[0] !in s[1..];
      assert forall i :: 0 <= i < |rest| ==> rest[i] in s[1..];
      if s[0] == x then rest else [s[0]] + rest
  }
}
