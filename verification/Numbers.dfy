/** Rounding and ordering helpers, and optional values, shared by every component. */
module Numbers {

  const MAX_UINT16 := 0xFFFF

  datatype Option<T> = None | Some(value: T)

  /** Smallest integer not below r, as math.Ceil gives it. */
  function Ceil(r: real): (c: int)
    ensures r <= c as real < r + 1.0
  {
    -((-r).Floor)
  }

  function MinReal(a: real, b: real): real {
    if a <= b then a else b
  }

  function MaxReal(a: real, b: real): real {
    if a >= b then a else b
  }

  function Min(a: int, b: int): int {
    if a <= b then a else b
  }

  function Max(a: int, b: int): int {
    if a >= b then a else b
  }

  /** No integer lies strictly between r and Ceil(r). */
  lemma CeilLeast(r: real, k: int)
    ensures r <= k as real <==> Ceil(r) <= k
  {
  }
}
