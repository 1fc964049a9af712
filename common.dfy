/** Failure-carrying wrappers shared by every module of the model. */
module Common {

  /** Python's `None` or a value. */
  datatype Option<+T> = None | Some(value: T)

  /** The Python exceptions the modelled code can raise. */
  datatype PyError =
    | IndexError      // list index out of range (`utt_seq[-1]` on an empty list, ...)
    | TypeError       // indexing a value that is not a sequence
    | ValueError      // explicit `raise ValueError`, or `np.random.choice` of an empty list
    | AssertionError  // a failed `assert`

  /** A value, or the exception raised instead of producing one. */
  datatype Result<+T> = Ok(value: T) | Err(error: PyError)

  /** The position Python's `xs[i]` reads in a list of length n (negative i counts from the end), or None for an IndexError. */
  function PyIndex(n: nat, i: int): (k: Option<nat>)
    ensures k.Some? <==> -(n as int) <= i < n
    ensures k.Some? ==> k.value < n && (k.value == i || k.value == i + n)
  {
    if 0 <= i < n then Some(i as nat) else if -(n as int) <= i < 0 then Some((i + n) as nat) else None
  }

  /** Python's `sum(lists, [])`: the lists concatenated in order. */
  function Flatten<T>(ss: seq<seq<T>>): seq<T>
  {
    if ss == [] then [] else Flatten(ss[..|ss| - 1]) + ss[|ss| - 1]
  }

  lemma {:induction false} FlattenConcat<T>(a: seq<seq<T>>, b: seq<seq<T>>)
    ensures Flatten(a + b) == Flatten(a) + Flatten(b)
  {
    if b != [] {
      assert (a + b)[..|a + b| - 1] == a + b[..|b| - 1];
      FlattenConcat(a, b[..|b| - 1]);
    } else {
      assert a + b == a;
    }
  }

  lemma FlattenSingleton<T>(s: seq<T>)
    ensures Flatten([s]) == s
  {
    assert [s][..0] == [];
  }

  /**
   * A loop that applies f to each item in turn and collects the results,
   * stopping at the first exception.
   */
  function TryMap<T, U>(f: T -> Result<U>, xs: seq<T>): Result<seq<U>>
  {
    if xs == [] then Ok([])
    else
      match TryMap(f, xs[..|xs| - 1])
      case Err(e) => Err(e)
      case Ok(done) =>
        match f(xs[|xs| - 1])
        case Err(e) => Err(e)
        case Ok(y) => Ok(done + [y])
  }

  /** The loop succeeds exactly when no item raises. */
  lemma {:induction false} TryMapOkIff<T, U>(f: T -> Result<U>, xs: seq<T>)
    ensures TryMap(f, xs).Ok? <==> forall k :: 0 <= k < |xs| ==> f(xs[k]).Ok?
  {
    if xs != [] {
      var prefix := xs[..|xs| - 1];
      TryMapOkIff(f, prefix);
      assert forall k :: 0 <= k < |prefix| ==> xs[k] == prefix[k];
    }
  }

  /** On success, item k of the result is f applied to item k. */
  lemma {:induction false} TryMapElements<T, U>(f: T -> Result<U>, xs: seq<T>)
    requires TryMap(f, xs).Ok?
    ensures |TryMap(f, xs).value| == |xs|
    ensures forall k :: 0 <= k < |xs| ==> f(xs[k]).Ok? && TryMap(f, xs).value[k] == f(xs[k]).value
  {
    if xs != [] {
      var prefix := xs[..|xs| - 1];
      TryMapElements(f, prefix);
      assert forall k :: 0 <= k < |prefix| ==> xs[k] == prefix[k];
    }
  }

  /** Once a prefix raises, the whole loop raises the same exception. */
  lemma {:induction false} TryMapErrPropagates<T, U>(f: T -> Result<U>, xs: seq<T>, j: nat)
    requires j <= |xs| && TryMap(f, xs[..j]).Err?
    ensures TryMap(f, xs) == TryMap(f, xs[..j])
    decreases |xs|
  {
    if j < |xs| {
      var prefix := xs[..|xs| - 1];
      assert prefix[..j] == xs[..j];
      TryMapErrPropagates(f, prefix, j);
    } else {
      assert xs[..j] == xs;
    }
  }
}
