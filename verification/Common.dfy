/** What the other modules share. */
module Common {
  type byte = b: int | 0 <= b < 0x100

  datatype Option<T> = None | Some(value: T)

  const U32: int := 0x1_0000_0000

  /** Unsigned 32-bit arithmetic. */
  function Wrap32(x: nat): (w: nat)
    ensures w < U32 && (x < U32 ==> w == x)
  {
    x % U32
  }

  function Min(x: nat, y: nat): nat {
    if x <= y then x else y
  }

  function Distance(a: int, b: int): nat {
    if a <= b then b - a else a - b
  }

  /** No point of [0, size] is nearer to at than c is. */
  ghost predicate Nearest(c: int, at: int, size: nat) {
    0 <= c <= size && forall d :: 0 <= d <= size ==> Distance(at, c) <= Distance(at, d)
  }

  /** So it is at itself inside the range, and the end that at lies beyond otherwise. */
  lemma NearestIs(c: int, at: int, size: nat)
    requires Nearest(c, at, size)
    ensures c == if at < 0 then 0 else if at > size then size else at
  {
    var d := if at < 0 then 0 else if at > size then size else at;
    assert Distance(at, c) <= Distance(at, d);
  }

  lemma Regroup<T>(a: seq<T>, b: seq<T>, c: seq<T>)
    ensures (a + b) + c == a + (b + c)
  {
  }
}
