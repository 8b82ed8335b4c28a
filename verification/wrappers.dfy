/** Option and Result, with the `:-` protocol, and the exceptions the
    modelled Python and JavaScript code can raise. */
module Wrappers {

  datatype Option<+T> = None | Some(value: T) {
    predicate IsFailure() { None? }

    function PropagateFailure<U>(): Option<U>
      requires None?
    {
      None
    }

    function Extract(): T
      requires Some?
    {
      value
    }

    function GetOr(default: T): T {
      match this
      case Some(v) => v
      case None => default
    }
  }

  /** The exceptions of the modelled code, by kind; messages are not modelled. */
  datatype Error =
    | KeyError
    | ValueError
    | IndexError
    | AttributeError
    | RuntimeError
    | TypeError
    | BadRequest
    | ResponseValidation  // an answer that does not fit the route's declared response model

  datatype Result<+T> = Ok(value: T) | Err(error: Error) {
    predicate IsFailure() { Err? }

    function PropagateFailure<U>(): Result<U>
      requires Err?
    {
      Err(error)
    }

    function Extract(): T
      requires Ok?
    {
      value
    }
  }

  /** Turns a missing value into the given error. */
  function Need<T>(o: Option<T>, e: Error): (r: Result<T>)
    ensures r.Ok? <==> o.Some?
    ensures r.Ok? ==> r.value == o.value
    ensures r.Err? ==> r.error == e
  {
    match o
    case Some(v) => Ok(v)
    case None => Err(e)
  }

  /** `f` applied to every element in order, the first error aborting. */
  function MapAll<T, U>(xs: seq<T>, f: T -> Result<U>): (r: Result<seq<U>>)
    ensures r.Ok? <==> forall i :: 0 <= i < |xs| ==> f(xs[i]).Ok?
    ensures r.Err? ==> exists i :: (0 <= i < |xs| && f(xs[i]) == Err(r.error)
      && forall j :: 0 <= j < i ==> f(xs[j]).Ok?)
    ensures r.Ok? ==> |r.value| == |xs| && forall i :: 0 <= i < |xs| ==> r.value[i] == f(xs[i]).value
    decreases |xs|
  {
    if |xs| == 0 then Ok([])
    else
      var init := xs[..|xs| - 1];
      assert (forall i :: 0 <= i < |xs| ==> f(xs[i]).Ok?)
        <==> (forall i :: 0 <= i < |init| ==> f(init[i]).Ok?) && f(xs[|xs| - 1]).Ok? by {
        if forall i :: 0 <= i < |init| ==> f(init[i]).Ok? {
          forall i | 0 <= i < |xs| - 1 ensures f(xs[i]).Ok? { assert xs[i] == init[i]; }
        }
      }
      match MapAll(init, f)
      case Err(e) =>
        var i :| 0 <= i < |init| && f(init[i]) == Err(e) && forall j :: 0 <= j < i ==> f(init[j]).Ok?;
        assert xs[i] == init[i];
        assert forall j :: 0 <= j < i ==> xs[j] == init[j];
        Err(e)
      case Ok(values) =>
        var v :- f(xs[|xs| - 1]);
        Ok(values + [v])
  }

  lemma MapAllOk<T, U>(xs: seq<T>, f: T -> Result<U>, ys: seq<U>)
    requires |xs| == |ys|
    requires forall i :: 0 <= i < |xs| ==> f(xs[i]) == Ok(ys[i])
    ensures MapAll(xs, f) == Ok(ys)
  {
    assert forall i :: 0 <= i < |xs| ==> f(xs[i]).Ok?;
    var r := MapAll(xs, f);
    assert r.value == ys;
  }
}
