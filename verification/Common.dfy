/** Small shared definitions. */
module Common {
  /** Stands for a nil interface, pointer or error. */
  datatype Option<+T> = None | Some(value: T)

  /** One byte of written data. */
  type byte = b: int | 0 <= b < 256

  function Min(a: int, b: int): int { if a < b then a else b }

  function Max(a: int, b: int): int { if a > b then a else b }

  /** Going once round a circular array. */
  lemma ModOnce(x: nat, len: nat)
    requires x < 2 * len
    ensures x % len == if x < len then x else x - len
  {
    if x >= len {
      assert x == 1 * len + (x - len);
      ModBack(x - len, len);
    }
  }

  lemma ModBack(y: nat, len: nat)
    requires y < len
    ensures (y + len) % len == y
  {}
}
