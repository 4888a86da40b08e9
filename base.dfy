/** Failure-carrying results shared by every part of the model. */
module Base {

  datatype Option<+T> = None | Some(value: T)

  /** The exceptions the Python code raises, by the name Python gives them. */
  datatype Error =
    | ValueError   // int(_, 16) on a malformed hex field; list.remove of an absent shape
    | KeyError     // a sprite character missing from its colour map
    | IndexError   // a sprite built from no frames; a fill started outside the grid
    | TypeError    // compositing a cell whose colour is None

  datatype Result<+T> = Ok(value: T) | Err(error: Error)

  function Max(a: int, b: int): int { if a >= b then a else b }

  function Min(a: int, b: int): int { if a <= b then a else b }

  function Abs(a: int): int { if a >= 0 then a else -a }

  lemma MulSucc(k: int, n: int)
    ensures k * (n + 1) == k * n + k
  {
  }

  lemma MulMono(k: int, m: int, n: int)
    requires k >= 0 && m <= n
    ensures k * m <= k * n
  {
    assert k * n - k * m == k * (n - m);
  }
}
