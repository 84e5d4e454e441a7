/** `Accumulator` of accumulate.py, over an operator that may raise. */
module Accumulate {
  import opened Wrappers

  /**
   * The accumulated value after being told a sequence of values.  Where the operator raises, the
   * value told is lost and the accumulated value stays.
   */
  function Accumulated<T, E>(op: (T, T) -> Result<T, E>, initial: Option<T>, told: seq<T>): Option<T> {
    if told == [] then initial
    else
      var n := |told| - 1;
      var before := Accumulated(op, initial, told[..n]);
      if before.None? then Some(told[n])
      else
        var r := op(before.value, told[n]);
        if r.Ok? then Some(r.value) else before
  }

  /** Nothing is accumulated exactly while nothing has been given. */
  lemma NothingAccumulated<T, E>(op: (T, T) -> Result<T, E>, initial: Option<T>, told: seq<T>)
    ensures Accumulated(op, initial, told).None? <==> initial.None? && told == []
  {
  }

  class Accumulator<T, E> {
    const op: (T, T) -> Result<T, E>
    var current: Option<T>
    ghost const initial: Option<T>
    ghost var told: seq<T>

    ghost predicate Valid()
      reads this
    {
      current == Accumulated(op, initial, told)
    }

    constructor (op: (T, T) -> Result<T, E>, initial: Option<T>)
      ensures Valid() && this.op == op && this.initial == initial && told == []
    {
      this.op := op;
      this.current := initial;
      this.initial := initial;
      this.told := [];
    }

    /** The exception is the operator's. */
    method Tell(value: T) returns (raised: Option<E>)
      requires Valid()
      modifies this
      ensures Valid() && told == old(told) + [value]
      ensures raised.Some? <==> old(current).Some? && op(old(current).value, value).Err?
      ensures raised.Some? ==>
                current == old(current) && raised.value == op(old(current).value, value).error
      ensures raised.None? ==>
                current == Some(if old(current).None? then value else op(old(current).value, value).value)
    {
      raised := None;
      assert (told + [value])[..|told|] == told;
      told := told + [value];
      if current.None? {
        current := Some(value);
        return;
      }
      var r := op(current.value, value);
      if r.Err? {
        return Some(r.error);
      }
      current := Some(r.value);
    }

    /** None is the ValueError for having been told nothing. */
    method Ask() returns (r: Option<T>)
      requires Valid()
      ensures r == current == Accumulated(op, initial, told)
      ensures r.None? <==> initial.None? && told == []
    {
      NothingAccumulated(op, initial, told);
      if current.None? {
        return None;
      }
      return Some(current.value);
    }

    method AskMaybe() returns (r: Option<T>)
      requires Valid()
      ensures r == current == Accumulated(op, initial, told)
      ensures r.None? <==> initial.None? && told == []
    {
      NothingAccumulated(op, initial, told);
      return current;
    }
  }
}
