/** Types and functions that the other modules share. */
module Basics {

  datatype Option<+T> = None | Some(value: T)

  function Max(a: int, b: int): int {
    if a >= b then a else b
  }

  function Min(a: int, b: int): int {
    if a <= b then a else b
  }

  type Byte = b: int | 0 <= b < 256

  type Bytes = seq<Byte>

  // -------------------------------------------------------------------------- outcomes

  const INVALID_ARGUMENT := 3
  const DEADLINE_EXCEEDED := 4
  const NOT_FOUND := 5
  const INTERNAL := 13

  /** An operation that can fail, with the status code the server reports. */
  datatype Result<+T> = Ok(value: T) | Error(code: int)

  // ------------------------------------------------------------- sequences read backwards

  function Reversed<T>(s: seq<T>): (r: seq<T>)
    ensures |r| == |s|
  {
    if s == [] then [] else Reversed(s[1..]) + [s[0]]
  }

  lemma {:induction false} ReversedConcat<T>(a: seq<T>, b: seq<T>)
    ensures Reversed(a + b) == Reversed(b) + Reversed(a)
  {
    if a == [] {
      assert a + b == b;
    } else {
      assert (a + b)[1..] == a[1..] + b;
      ReversedConcat(a[1..], b);
    }
  }

  lemma {:induction false} ReversedSnoc<T>(s: seq<T>, x: T)
    ensures Reversed(s + [x]) == [x] + Reversed(s)
  {
    ReversedConcat(s, [x]);
    assert Reversed([x]) == [x];
  }
}
