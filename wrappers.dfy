/** Values that stand for Python's `None` and for the outcome of a call that may raise. */
module Wrappers {

  /** An optional value: `None` is Python's `None` or an absent dictionary key. */
  datatype Option<T> = None | Some(value: T) {
    function GetOr(default: T): T {
      if Some? then value else default
    }
  }

  /** The outcome of a call into code outside the model: a value, or an exception
      (whose message the program only logs, so it is not kept). */
  datatype Result<T> = Ok(value: T) | Err

  predicate AllOk<T>(rs: seq<Result<T>>) {
    forall k :: 0 <= k < |rs| ==> rs[k].Ok?
  }

  /** The values of a sequence of successful outcomes. */
  function Values<T>(rs: seq<Result<T>>): seq<T>
    requires AllOk(rs)
  {
    seq(|rs|, k requires 0 <= k < |rs| => rs[k].value)
  }

  lemma ValuesAt<T>(rs: seq<Result<T>>, k: nat)
    requires AllOk(rs) && k < |rs|
    ensures |Values(rs)| == |rs| && Values(rs)[k] == rs[k].value
  {
  }

  /** Position of the first failure, or |rs| when there is none. */
  function FirstErr<T>(rs: seq<Result<T>>): (i: nat)
    ensures i <= |rs|
    ensures forall k :: 0 <= k < i ==> rs[k].Ok?
    ensures i < |rs| ==> rs[i].Err?
    ensures AllOk(rs) <==> i == |rs|
  {
    if rs == [] then 0 else if rs[0].Err? then 0 else 1 + FirstErr(rs[1..])
  }

  /** How many of the calls answered by `rs` a loop makes that stops at the first
      failure: all of them, or up to and including the failing one. */
  function Attempts<T>(rs: seq<Result<T>>): (n: nat)
    ensures n <= |rs|
    ensures AllOk(rs) ==> n == |rs|
  {
    if FirstErr(rs) < |rs| then FirstErr(rs) + 1 else |rs|
  }

  lemma {:induction false} ValuesPrefix<T>(rs: seq<Result<T>>, i: nat)
    requires i < |rs| && AllOk(rs[..i + 1])
    ensures AllOk(rs[..i]) && Values(rs[..i + 1]) == Values(rs[..i]) + [rs[i].value]
  {
    assert rs[..i + 1][..i] == rs[..i];
  }
}
