/**
 * The raw, hierarchical device data the discovery code reads, and the Python
 * semantics it leans on: truthiness, `str()` of a scalar, `x or []`, and the
 * exception a `try/except: raise/finally` block lets out.
 */
module RawData {
  import opened Wrappers
  import Text

  /** The exceptions the modelled code raises or lets through. */
  datatype Error =
    | Transport          // a remote management call failed
    | NoneHasNoAttribute // an attribute or method was used on None (AttributeError)
    | ListHasNoAttribute // a node attribute was used on a list of nodes (AttributeError)
    | NotIterable        // a loop or comprehension ran over None (TypeError)
    | IndexOutOfRange    // `split(":")[1]` on a string with no ':' (IndexError)
    | InvalidLiteral     // `int(...)` on a string that is no integer literal (ValueError)
    | MultipleNodes      // a store lookup for at most one node matched several

  /** A scalar of the device's JSON. A key that is absent, or null, reads as None. */
  datatype Value = Str(s: string) | Int(i: int) | Bool(b: bool)

  /** Python truthiness of a looked-up scalar. */
  predicate Truthy(v: Option<Value>) {
    match v
    case None => false
    case Some(Str(s)) => s != ""
    case Some(Int(i)) => i != 0
    case Some(Bool(b)) => b
  }

  /** `str(v)`, which is also what an f-string interpolates. */
  function Show(v: Value): string {
    match v
    case Str(s) => s
    case Int(i) => Text.IntToString(i)
    case Bool(b) => if b then "True" else "False"
  }

  /** `xs or []` for a looked-up list. */
  function OrEmpty<T>(xs: Option<seq<T>>): seq<T> {
    if xs.Some? then xs.value else []
  }

  /**
   * The exception that leaves `try: body  except: log; raise  finally: cleanup`:
   * one raised by the cleanup replaces the body's, otherwise the body's is re-raised.
   */
  function Reraise(bodyError: Option<Error>, cleanupError: Option<Error>): Option<Error> {
    if cleanupError.Some? then cleanupError else bodyError
  }

  /**
   * A loop that maps every raw entry in order and lets the first exception
   * out: the entries mapped so far are dropped with it.
   */
  function MapEach<A, B>(xs: seq<A>, f: A -> Result<B, Error>): Result<seq<B>, Error> {
    if xs == [] then Ok([])
    else
      var init :- MapEach(xs[..|xs| - 1], f);
      var last :- f(xs[|xs| - 1]);
      Ok(init + [last])
  }

  /** The loop succeeds exactly when every entry maps. */
  lemma {:induction false} MapEachOkIffAll<A, B>(xs: seq<A>, f: A -> Result<B, Error>)
    ensures MapEach(xs, f).Ok? <==> forall k :: 0 <= k < |xs| ==> f(xs[k]).Ok?
  {
    if xs != [] {
      var init := xs[..|xs| - 1];
      MapEachOkIffAll(init, f);
      assert forall k :: 0 <= k < |init| ==> init[k] == xs[k];
    }
  }

  /** A successful loop yields one result per entry, in entry order. */
  lemma {:induction false} MapEachEntries<A, B>(xs: seq<A>, f: A -> Result<B, Error>)
    requires MapEach(xs, f).Ok?
    ensures |MapEach(xs, f).value| == |xs|
    ensures forall k :: 0 <= k < |xs| ==> f(xs[k]) == Ok(MapEach(xs, f).value[k])
  {
    if xs != [] {
      var init := xs[..|xs| - 1];
      MapEachEntries(init, f);
      assert forall k :: 0 <= k < |init| ==> init[k] == xs[k];
    }
  }

  /** A failing loop raises the error of the first entry that fails. */
  lemma {:induction false} MapEachFirstError<A, B>(xs: seq<A>, f: A -> Result<B, Error>)
    requires MapEach(xs, f).Err?
    ensures exists k :: 0 <= k < |xs| && f(xs[k]) == Err(MapEach(xs, f).error) &&
                        forall j :: 0 <= j < k ==> f(xs[j]).Ok?
  {
    var init := xs[..|xs| - 1];
    assert forall k :: 0 <= k < |init| ==> init[k] == xs[k];
    if MapEach(init, f).Err? {
      MapEachFirstError(init, f);
      var k :| 0 <= k < |init| && f(init[k]) == Err(MapEach(init, f).error) &&
               forall j :: 0 <= j < k ==> f(init[j]).Ok?;
      assert f(xs[k]) == Err(MapEach(xs, f).error);
    } else {
      MapEachOkIffAll(init, f);
      assert f(xs[|xs| - 1]) == Err(MapEach(xs, f).error);
    }
  }

  /** Once a prefix has raised, the whole loop raises the same error. */
  lemma {:induction false} MapEachErrorPersists<A, B>(xs: seq<A>, f: A -> Result<B, Error>, i: nat)
    requires i <= |xs|
    requires MapEach(xs[..i], f).Err?
    ensures MapEach(xs, f) == MapEach(xs[..i], f)
    decreases |xs| - i
  {
    if i < |xs| {
      assert xs[..i + 1][..i] == xs[..i];
      MapEachErrorPersists(xs, f, i + 1);
    } else {
      assert xs[..i] == xs;
    }
  }
}
