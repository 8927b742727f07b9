/** Values shared by every model: octets and optional results. */
module Wrappers {

  /** An octet, kept as a number so that sums and address arithmetic stay linear. */
  type byte = n: nat | n < 256

  /** A result that may be absent: the source raises, skips or returns an error code. */
  datatype Option<+T> = None | Some(value: T) {
    predicate IsFailure() {
      None?
    }

    function PropagateFailure<U>(): Option<U>
      requires None?
    {
      None
    }

    function Extract(): T
      requires Some?
    {
      value
    }
  }

  lemma Assoc<T>(a: seq<T>, b: seq<T>, c: seq<T>)
    ensures a + (b + c) == a + b + c
  {
  }

  // The conversions between numbers and 8-bit vectors are inverse to each other.

  lemma VectorBack(b: bv8)
    ensures (b as nat) as bv8 == b
  {
  }

  lemma NextVector(b: bv8)
    requires b != 0xFF
    ensures (b + 1) as nat == b as nat + 1
  {
  }

  lemma {:induction false} FindVector(n: nat) returns (b: bv8)
    requires n < 256
    ensures b as nat == n
  {
    if n == 0 {
      b := 0;
    } else {
      b := FindVector(n - 1);
      assert b != 0xFF;
      NextVector(b);
      b := b + 1;
    }
  }

  lemma OctetBack(n: nat)
    requires n < 256
    ensures (n as bv8) as nat == n
  {
    var b := FindVector(n);
    VectorBack(b);
  }
}
