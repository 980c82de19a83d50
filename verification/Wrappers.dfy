/** Absence and failure as values: `None` where the original returns no answer, `Err` where it
    raises. */
module Wrappers {

  datatype Option<+T> = None | Some(value: T) {
    predicate IsFailure() { None? }

    function PropagateFailure<U>(): Option<U>
      requires None?
    { None }

    function Extract(): T
      requires Some?
    { value }
  }

  datatype Result<+T, +E> = Ok(value: T) | Err(error: E) {
    predicate IsFailure() { Err? }

    function PropagateFailure<U>(): Result<U, E>
      requires Err?
    { Err(error) }

    function Extract(): T
      requires Ok?
    { value }
  }

  /** All of them, or nothing if one is missing. */
  function AllSome<T>(ts: seq<Option<T>>): Option<seq<T>> {
    if ts == [] then Some([])
    else
      var init :- AllSome(ts[..|ts| - 1]);
      var last :- ts[|ts| - 1];
      Some(init + [last])
  }

  lemma {:induction false} AllSomeAre<T>(ts: seq<Option<T>>, out: seq<T>)
    requires |ts| == |out| && forall i :: 0 <= i < |ts| ==> ts[i] == Some(out[i])
    ensures AllSome(ts) == Some(out)
  {
    if ts == [] {
    } else {
      var n := |ts| - 1;
      AllSomeAre(ts[..n], out[..n]);
      assert out == out[..n] + [out[n]];
    }
  }

  lemma {:induction false} AllSomeFails<T>(ts: seq<Option<T>>, i: nat)
    requires i < |ts| && ts[i].None?
    ensures AllSome(ts).None?
  {
    if i < |ts| - 1 { AllSomeFails(ts[..|ts| - 1], i); }
  }

  lemma {:induction false} AllSomeParts<T>(ts: seq<Option<T>>)
    requires AllSome(ts).Some?
    ensures |AllSome(ts).value| == |ts| && forall i :: 0 <= i < |ts| ==> ts[i] == Some(AllSome(ts).value[i])
  {
    if ts != [] { AllSomeParts(ts[..|ts| - 1]); }
  }
}
