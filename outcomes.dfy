/** The exceptions the Java core throws, and the Result/Option wrappers that carry them.
    A Java method that can throw becomes a function or method returning Result<T>. */
module Outcomes {

  /** The kinds of exception the core raises. NumberFormatException is a subclass of
      IllegalArgumentException in Java, so it is an IllegalArgument here, and a catch of
      IllegalArgumentException catches it too. */
  datatype Failure =
    | IllegalArgument(message: string)
    | IndexOutOfBounds   // String.substring with an end before its start
    | NullPointer        // a method called on a null reference
    | NegativeArraySize  // `new String[n]` with n < 0
    | UnsupportedReference(text: string)  // a cell reference other than letters then digits

  datatype Option<+T> = None | Some(value: T)

  datatype Result<+T> = Ok(value: T) | Err(failure: Failure) {
    predicate IsFailure() { Err? }

    function PropagateFailure<U>(): Result<U>
      requires Err?
    {
      Err(failure)
    }

    function Extract(): T
      requires Ok?
    {
      value
    }
  }

  /** A Java loop over a list that builds a result list: each element either adds one
      entry, adds nothing, or throws, and the first exception ends the loop. */
  function Collect<A, T>(xs: seq<A>, f: A -> Result<Option<T>>): (r: Result<seq<T>>)
    ensures r.Ok? ==> |r.value| <= |xs|
  {
    if xs == [] then Ok([])
    else
      match Collect(xs[..|xs| - 1], f)
      case Err(e) => Err(e)
      case Ok(front) =>
        match f(xs[|xs| - 1])
        case Err(e) => Err(e)
        case Ok(o) => Ok(if o.Some? then front + [o.value] else front)
  }

  /** Once the loop has thrown, the rest of the list does not matter. */
  lemma {:induction false} CollectErrStays<A, T>(xs: seq<A>, j: nat, f: A -> Result<Option<T>>)
    requires j <= |xs| && Collect(xs[..j], f).Err?
    ensures Collect(xs, f) == Collect(xs[..j], f)
    decreases |xs| - j
  {
    if j < |xs| {
      assert xs[..j + 1][..j] == xs[..j];
      CollectErrStays(xs, j + 1, f);
    } else {
      assert xs[..j] == xs;
    }
  }

  /** A successful loop met no exception, and its first entry comes from the first
      element when that element adds one. */
  lemma {:induction false} CollectFirst<A, T>(xs: seq<A>, f: A -> Result<Option<T>>)
    requires |xs| >= 1 && Collect(xs, f).Ok?
    ensures f(xs[0]).Ok?
    ensures f(xs[0]).value.Some? ==> |Collect(xs, f).value| >= 1 && Collect(xs, f).value[0] == f(xs[0]).value.value
    decreases |xs|
  {
    if |xs| > 1 {
      var front := xs[..|xs| - 1];
      assert front[0] == xs[0];
      CollectFirst(front, f);
    } else {
      assert xs[..|xs| - 1] == [];
    }
  }

  /** The loop's step when the element adds an entry or nothing. */
  lemma CollectStepOk<A, T>(xs: seq<A>, x: A, f: A -> Result<Option<T>>, acc: seq<T>)
    requires Collect(xs, f) == Ok(acc) && f(x).Ok?
    ensures Collect(xs + [x], f) == Ok(if f(x).value.Some? then acc + [f(x).value.value] else acc)
  {
    assert (xs + [x])[..|xs|] == xs;
  }

  /** The loop's step when the element throws. */
  lemma CollectStepErr<A, T>(xs: seq<A>, x: A, f: A -> Result<Option<T>>)
    requires Collect(xs, f).Ok? && f(x).Err?
    ensures Collect(xs + [x], f) == Err(f(x).failure)
  {
    assert (xs + [x])[..|xs|] == xs;
  }

  /** Two elements that each add an entry give those two entries. */
  lemma CollectTwo<A, T>(x: A, y: A, f: A -> Result<Option<T>>, a: T, b: T)
    requires f(x) == Ok(Some(a)) && f(y) == Ok(Some(b))
    ensures Collect([x, y], f) == Ok([a, b])
  {
    var none: seq<A>, nothing: seq<T> := [], [];
    assert Collect(none, f) == Ok(nothing);
    CollectStepOk(none, x, f, nothing);
    assert none + [x] == [x] && nothing + [a] == [a];
    CollectStepOk([x], y, f, [a]);
    assert [x] + [y] == [x, y] && [a] + [b] == [a, b];
  }
  /** A Java loop that fills one array slot per element, in order, and ends at the
      first exception. */
  function MapAll<A, T>(xs: seq<A>, f: A -> Result<T>): (r: Result<seq<T>>)
    ensures r.Ok? ==> |r.value| == |xs|
  {
    if xs == [] then Ok([])
    else
      match MapAll(xs[..|xs| - 1], f)
      case Err(e) => Err(e)
      case Ok(front) =>
        match f(xs[|xs| - 1])
        case Err(e) => Err(e)
        case Ok(v) => Ok(front + [v])
  }

  /** A loop that ran to the end holds, in slot k, what the k-th element gave. */
  lemma {:induction false} MapAllValues<A, T>(xs: seq<A>, f: A -> Result<T>)
    requires MapAll(xs, f).Ok?
    ensures forall k | 0 <= k < |xs| :: f(xs[k]) == Ok(MapAll(xs, f).value[k])
    decreases |xs|
  {
    if xs != [] {
      var front := xs[..|xs| - 1];
      MapAllValues(front, f);
      assert forall k | 0 <= k < |front| :: xs[k] == front[k];
    }
  }

  /** The loop throws exactly when some element throws, and then it throws what the
      first such element throws. */
  lemma {:induction false} MapAllErr<A, T>(xs: seq<A>, f: A -> Result<T>)
    ensures MapAll(xs, f).Err? <==> exists k | 0 <= k < |xs| :: f(xs[k]).Err?
    ensures MapAll(xs, f).Err? ==>
      exists k | 0 <= k < |xs| :: f(xs[k]) == Err(MapAll(xs, f).failure) && forall j | 0 <= j < k :: f(xs[j]).Ok?
    decreases |xs|
  {
    if xs != [] {
      var front := xs[..|xs| - 1];
      MapAllErr(front, f);
      assert forall k | 0 <= k < |front| :: xs[k] == front[k];
      if MapAll(front, f).Ok? {
        MapAllValues(front, f);
      }
    }
  }

  /** The loop's step when the element gives a value. */
  lemma MapAllStepOk<A, T>(xs: seq<A>, x: A, f: A -> Result<T>, acc: seq<T>)
    requires MapAll(xs, f) == Ok(acc) && f(x).Ok?
    ensures MapAll(xs + [x], f) == Ok(acc + [f(x).value])
  {
    assert (xs + [x])[..|xs|] == xs;
  }

  /** The loop's step when the element throws. */
  lemma MapAllStepErr<A, T>(xs: seq<A>, x: A, f: A -> Result<T>)
    requires MapAll(xs, f).Ok? && f(x).Err?
    ensures MapAll(xs + [x], f) == Err(f(x).failure)
  {
    assert (xs + [x])[..|xs|] == xs;
  }

  /** Once the loop has thrown, the rest of the list does not matter. */
  lemma {:induction false} MapAllErrStays<A, T>(xs: seq<A>, j: nat, f: A -> Result<T>)
    requires j <= |xs| && MapAll(xs[..j], f).Err?
    ensures MapAll(xs, f) == MapAll(xs[..j], f)
    decreases |xs| - j
  {
    if j < |xs| {
      assert xs[..j + 1][..j] == xs[..j];
      MapAllErrStays(xs, j + 1, f);
    } else {
      assert xs[..j] == xs;
    }
  }
  /** The loop MapAll describes: one slot filled per element, in order. */
  method MapInOrder<A, T>(xs: seq<A>, f: A -> Result<T>) returns (r: Result<seq<T>>)
    ensures r == MapAll(xs, f)
  {
    var values: seq<T> := [];
    for i := 0 to |xs|
      invariant MapAll(xs[..i], f) == Ok(values)
    {
      assert xs[..i + 1] == xs[..i] + [xs[i]];
      var v := f(xs[i]);
      if v.Err? {
        MapAllStepErr(xs[..i], xs[i], f);
        MapAllErrStays(xs, i + 1, f);
        return Err(v.failure);
      }
      MapAllStepOk(xs[..i], xs[i], f, values);
      values := values + [v.value];
    }
    assert xs[..|xs|] == xs;
    r := Ok(values);
  }
}
