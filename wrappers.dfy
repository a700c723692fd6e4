/** Option and Result, plus the one list combinator the adapters share. */
module Wrappers {

  /** PHP's nullable value: `None` is `null`. */
  datatype Option<+T> = None | Some(value: T)

  /** The outcome of an operation that either returns a value or throws. */
  datatype Result<+T, +E> = Ok(value: T) | Err(error: E)

  /** `array_map` over a list whose callback may throw: the callback runs on
      the elements in order and the first exception escapes, so either every
      element converts or nothing is returned. */
  function ArrayMap<A, B, E>(f: A -> Result<B, E>, xs: seq<A>): (r: Result<seq<B>, E>)
    ensures r.Ok? <==> forall i | 0 <= i < |xs| :: f(xs[i]).Ok?
    ensures r.Ok? ==> |r.value| == |xs| && forall i | 0 <= i < |xs| :: f(xs[i]) == Ok(r.value[i])
    ensures r.Err? ==> exists i | 0 <= i < |xs| ::
                         f(xs[i]) == Err(r.error) && forall j | 0 <= j < i :: f(xs[j]).Ok?
  {
    if xs == [] then Ok([])
    else
      match f(xs[0])
      case Err(e) => Err(e)
      case Ok(y) =>
        match ArrayMap(f, xs[1..])
        case Err(e) =>
          assert forall i | 0 <= i < |xs| - 1 :: xs[1..][i] == xs[i + 1];
          Err(e)
        case Ok(ys) => Ok([y] + ys)
  }
}
