/** Failure-compatible wrappers for the Python exceptions the scripts can raise. */
module Outcomes {

  datatype Option<+T> = None | Some(value: T)

  /** The exception classes the modelled code raises. */
  datatype PyError =
    | KeyError        // a missing dictionary key
    | TypeError       // indexing or assigning into a value of the wrong kind
    | IndexError      // `[0]` on an empty list or string
    | AttributeError  // `.items()` or `.replace()` on a value that has none
    | ValueError      // tuple unpacking with the wrong number of parts

  /** The value a Python call returns, or the exception it raises. */
  datatype Result<+T> = Ok(value: T) | Err(error: PyError) {
    predicate IsFailure() { Err? }
    function PropagateFailure<U>(): Result<U> requires Err? { Err(error) }
    function Extract(): T requires Ok? { value }
  }

  /** A loop that keeps each step's value and stops at the first exception. */
  function Collect<T>(steps: seq<Result<T>>): (r: Result<seq<T>>)
  {
    if steps == [] then Ok([])
    else
      var done :- Collect(steps[..|steps| - 1]);
      var last :- steps[|steps| - 1];
      Ok(done + [last])
  }

  /** Once the steps so far have raised, the rest of the loop does not run. */
  lemma {:induction false} CollectStops<T>(steps: seq<Result<T>>, j: nat)
    requires j <= |steps| && Collect(steps[..j]).Err?
    ensures Collect(steps) == Collect(steps[..j])
    decreases |steps|
  {
    if j < |steps| {
      var prefix := steps[..|steps| - 1];
      assert prefix[..j] == steps[..j];
      CollectStops(prefix, j);
    } else {
      assert steps[..j] == steps;
    }
  }

  /** A loop that completes has run every step, and keeps their values in order. */
  lemma {:induction false} CollectEach<T>(steps: seq<Result<T>>)
    requires Collect(steps).Ok?
    ensures |Collect(steps).value| == |steps|
    ensures forall i :: 0 <= i < |steps| ==> steps[i] == Ok(Collect(steps).value[i])
    decreases |steps|
  {
    if steps != [] {
      var n := |steps| - 1;
      CollectEach(steps[..n]);
      var done := Collect(steps[..n]).value;
      assert Collect(steps).value == done + [steps[n].value];
    }
  }

  /** When every step succeeds, the loop yields their values. */
  lemma {:induction false} CollectAllOk<T>(steps: seq<Result<T>>, values: seq<T>)
    requires |steps| == |values| && forall i :: 0 <= i < |steps| ==> steps[i] == Ok(values[i])
    ensures Collect(steps) == Ok(values)
    decreases |steps|
  {
    if steps != [] {
      var n := |steps| - 1;
      CollectAllOk(steps[..n], values[..n]);
      assert values == values[..n] + [values[n]];
    }
  }

  /** One more successful step extends the loop's values by its value. */
  lemma CollectSnoc<T>(steps: seq<Result<T>>, i: nat, done: seq<T>)
    requires i < |steps| && Collect(steps[..i]) == Ok(done) && steps[i].Ok?
    ensures Collect(steps[..i + 1]) == Ok(done + [steps[i].value])
  {
    assert steps[..i + 1][..i] == steps[..i];
  }

  /** The loop raises exactly when some step raises, and then with the first such step's exception. */
  lemma CollectFails<T>(steps: seq<Result<T>>)
    ensures Collect(steps).Err? <==> exists i :: 0 <= i < |steps| && steps[i].Err?
    ensures Collect(steps).Err? ==>
      exists i :: 0 <= i < |steps| && steps[i] == Err(Collect(steps).error) &&
        forall j :: 0 <= j < i ==> steps[j].Ok?
  {
    CollectFailsSome(steps);
    CollectFailsFirst(steps);
  }

  lemma {:induction false} CollectFailsSome<T>(steps: seq<Result<T>>)
    ensures Collect(steps).Err? <==> exists i :: 0 <= i < |steps| && steps[i].Err?
    decreases |steps|
  {
    if steps != [] {
      var n := |steps| - 1;
      var prefix := steps[..n];
      CollectFailsSome(prefix);
      if Collect(prefix).Err? {
        var i :| 0 <= i < |prefix| && prefix[i].Err?;
        assert steps[i] == prefix[i];
      } else if steps[n].Ok? {
        forall j | 0 <= j < |steps| ensures steps[j].Ok? {
          if j < n { assert steps[j] == prefix[j]; }
        }
      }
    }
  }

  lemma {:induction false} CollectFailsFirst<T>(steps: seq<Result<T>>)
    ensures Collect(steps).Err? ==>
      exists i :: 0 <= i < |steps| && steps[i] == Err(Collect(steps).error) &&
        forall j :: 0 <= j < i ==> steps[j].Ok?
    decreases |steps|
  {
    if steps != [] {
      var n := |steps| - 1;
      var prefix := steps[..n];
      if Collect(prefix).Err? {
        CollectFailsFirst(prefix);
        var i :| 0 <= i < |prefix| && prefix[i] == Err(Collect(prefix).error) &&
          forall j :: 0 <= j < i ==> prefix[j].Ok?;
        assert steps[i] == prefix[i];
        forall j | 0 <= j < i ensures steps[j].Ok? {
          assert steps[j] == prefix[j];
        }
      } else if steps[n].Err? {
        CollectFailsSome(prefix);
        forall j | 0 <= j < n ensures steps[j].Ok? {
          assert steps[j] == prefix[j];
        }
      }
    }
  }
}
