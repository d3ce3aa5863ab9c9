/** 64-bit unsigned arithmetic. */
module MachineWords {

  const TWO64: int := 0x1_0000_0000_0000_0000

  predicate Word64(v: int) {
    0 <= v < TWO64
  }

  function Wrap(v: int): (r: nat)
    ensures Word64(r)
  {
    v % TWO64
  }

  lemma WrapSame(v: int)
    requires Word64(v)
    ensures Wrap(v) == v
  {
  }

  lemma WrapTwice(a: int, b: int)
    ensures Wrap(Wrap(a) + b) == Wrap(a + b)
  {
  }
}
