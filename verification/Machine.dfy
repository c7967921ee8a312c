/** Fixed-width arithmetic of the source: atomics wrap around. */
module Machine {
  const U16 := 0x1_0000
  const U32 := 0x1_0000_0000
  const USIZE := 0x1_0000_0000_0000_0000

  function SaturatingSub(a: nat, b: nat): nat {
    if a < b then 0 else a - b
  }

  lemma WrapSucc(n: nat)
    ensures (n + 1) % U32 == (n % U32 + 1) % U32
  {
    var q, r := n / U32, n % U32;
    assert n == q * U32 + r;
    if r + 1 == U32 {
      assert n + 1 == (q + 1) * U32;
    }
  }
}
