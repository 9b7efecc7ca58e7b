/** The C++ `uint32_t` used for ids, sample counts and offsets, with its wrap-around. */
module Uint32 {

  newtype u32 = x: int | 0 <= x < 0x1_0000_0000

  const MOD: int := 0x1_0000_0000

  /** A C++ conversion or arithmetic result stored into a `uint32_t`: reduced modulo 2^32. */
  function ToU32(x: int): u32
  {
    (x % MOD) as u32
  }

  /** A value that fits is stored unchanged. */
  lemma Fits(x: int)
    requires 0 <= x < MOD
    ensures ToU32(x) as int == x
  {
  }

  /** Wrapping once more after an addition changes nothing. */
  lemma WrapAdd(a: int, b: int)
    ensures ToU32(ToU32(a) as int + b) == ToU32(a + b)
  {
    var q := a / MOD;
    assert a == q * MOD + ToU32(a) as int;
    assert (ToU32(a) as int + b) % MOD == (a + b - q * MOD) % MOD;
    ModShift(a + b, -q);
  }

  lemma ModShift(x: int, k: int)
    ensures (x + k * MOD) % MOD == x % MOD
  {
  }

  /** A difference of wrapped values wraps to the wrapped difference. */
  lemma WrapSub(a: int, b: int)
    ensures ToU32(ToU32(a) as int - ToU32(b) as int) == ToU32(a - b)
  {
    var qa, qb := a / MOD, b / MOD;
    assert a == qa * MOD + ToU32(a) as int;
    assert b == qb * MOD + ToU32(b) as int;
    assert ToU32(a) as int - ToU32(b) as int == (a - b) + (qb - qa) * MOD;
    ModShift(a - b, qb - qa);
  }
}
