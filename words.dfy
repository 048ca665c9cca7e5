/**
 * Machine words shared by the kernel-task model and the x86 emitter model.
 * C#'s `uint` and `int` are 32 bits wide; casts between them keep the bit
 * pattern (the default unchecked context).
 */
module Words {

  const TWO31: int := 0x8000_0000
  const TWO32: int := 0x1_0000_0000

  newtype uint32 = x: int | 0 <= x < 0x1_0000_0000
  newtype int32 = x: int | -0x8000_0000 <= x < 0x8000_0000

  /** A value that may be missing: a field lookup that finds nothing, an op that stores no register. */
  datatype Option<T> = None | Some(value: T)

  /** The 32-bit unsigned word with the same low 32 bits as `x`. */
  function Wrap(x: int): (r: int)
    ensures 0 <= r < TWO32
    ensures (x - r) % TWO32 == 0
  {
    x % TWO32
  }

  /** The two's-complement reading of the low 32 bits of `x`. */
  function Signed(x: int): (r: int)
    ensures -TWO31 <= r < TWO31
    ensures (x - r) % TWO32 == 0
  {
    var u := Wrap(x);
    if u < TWO31 then u else u - TWO32
  }

  /** `(uint)n` for a 32-bit signed `n`: the unsigned word with the same bits. */
  function ToUInt32(n: int32): (r: uint32)
    ensures (r as int - n as int) % TWO32 == 0
  {
    if n < 0 then (n as int + TWO32) as uint32 else n as uint32
  }

  /** The cast back: reading the bits of `ToUInt32(n)` as signed gives `n` again. */
  lemma ToUInt32RoundTrip(n: int32)
    ensures Signed(ToUInt32(n) as int) == n as int
  {
  }

  /** Adding words and wrapping once is the same as wrapping each summand. */
  lemma WrapAdd(a: int, b: int)
    ensures Wrap(Wrap(a) + Wrap(b)) == Wrap(a + b)
  {
    var qa, qb := a / TWO32, b / TWO32;
    assert a == qa * TWO32 + Wrap(a);
    assert b == qb * TWO32 + Wrap(b);
    assert a + b == (qa + qb) * TWO32 + (Wrap(a) + Wrap(b));
  }

  /** A value already in word range is its own wrap. */
  lemma WrapWord(x: int)
    requires 0 <= x < TWO32
    ensures Wrap(x) == x
  {
  }
}
