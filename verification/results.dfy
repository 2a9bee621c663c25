/** Python exceptions raised by the corpus preparation code, and the
    value types the model uses to return them instead of raising. */
module Results {

  /** The exceptions the modelled code can raise. */
  datatype PyError =
    | IOError(path: string)      // a missing input directory, an existing output directory, a missing file
    | OSError(path: string)      // os.makedirs on an existing path, shutil.rmtree on a missing one
    | IndexError                 // s[i] out of range
    | AttributeError             // `.group()` called on the None of a failed re.match
    | ValueError                 // tuple unpacking of the wrong arity, list.index of a missing value
    | KeyError(key: string)      // a dictionary lookup of a missing key
    | AssertionError             // a failed `assert` in the Kaldi export code
    | NotImplementedError        // an abstract preparation step that was not overridden

  datatype Option<T> = None | Some(value: T)

  datatype Result<T> = Ok(value: T) | Err(error: PyError)

  /** The outcome of a step that returns nothing. */
  datatype Outcome = Pass | Fail(error: PyError)

  // ---------------------------------------------------------------------
  // Loops that stop at the first exception

  /** `r` with `done` put in front of its value. */
  function Prepend<T>(done: seq<T>, r: Result<seq<T>>): Result<seq<T>>
  {
    if r.Ok? then Ok(done + r.value) else r
  }

  /** `f` applied to each element in turn, stopping at the first error: a
      loop or list comprehension whose body may raise. */
  function MapUntilError<A, B>(f: A -> Result<B>, xs: seq<A>): Result<seq<B>>
    decreases |xs|
  {
    if xs == [] then Ok([])
    else
      match f(xs[0])
      case Err(e) => Err(e)
      case Ok(y) => Prepend([y], MapUntilError(f, xs[1..]))
  }

  /** The run succeeds with one result per element exactly when every
      element does, and otherwise fails with the error of the first element
      that fails. */
  lemma {:induction false} MapUntilErrorResults<A, B>(f: A -> Result<B>, xs: seq<A>)
    ensures MapUntilError(f, xs).Ok? <==> forall k :: 0 <= k < |xs| ==> f(xs[k]).Ok?
    ensures MapUntilError(f, xs).Ok? ==> (|MapUntilError(f, xs).value| == |xs| &&
      forall k :: 0 <= k < |xs| ==> f(xs[k]) == Ok(MapUntilError(f, xs).value[k]))
    ensures MapUntilError(f, xs).Err? ==> exists k :: (0 <= k < |xs| && f(xs[k]) == Err(MapUntilError(f, xs).error) &&
      forall j :: 0 <= j < k ==> f(xs[j]).Ok?)
    decreases |xs|
  {
    if xs != [] {
      MapUntilErrorResults(f, xs[1..]);
      assert forall j :: 0 < j < |xs| ==> xs[j] == xs[1..][j - 1];
      var r := MapUntilError(f, xs);
      if f(xs[0]).Ok? {
        var rest := MapUntilError(f, xs[1..]);
        if rest.Err? {
          var k :| 0 <= k < |xs[1..]| && f(xs[1..][k]) == Err(rest.error) &&
            forall j :: 0 <= j < k ==> f(xs[1..][j]).Ok?;
          assert f(xs[k + 1]) == Err(r.error);
        }
      }
    }
  }

  lemma PrependNothing<T>(r: Result<seq<T>>)
    ensures Prepend([], r) == r
  {
    if r.Ok? {
      assert [] + r.value == r.value;
    }
  }

  lemma PrependTwice<T>(a: seq<T>, b: seq<T>, r: Result<seq<T>>)
    ensures Prepend(a, Prepend(b, r)) == Prepend(a + b, r)
  {
    if r.Ok? {
      assert a + (b + r.value) == a + b + r.value;
    }
  }
}
