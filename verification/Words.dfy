/** Optional values and 32-bit words, shared by the models. */
module Words {
  datatype Option<T> = None | Some(value: T)

  const U32: nat := 0x1_0000_0000

  /** Assignment to a u32: the value modulo 2^32, as CutIsMod says. */
  function Cut(n: nat): nat { if n < 0x1_0000_0000 then n else Cut(n - 0x1_0000_0000) }

  lemma {:induction false} CutIsMod(n: nat)
    ensures Cut(n) == n % 0x1_0000_0000
  {
    if n >= 0x1_0000_0000 {
      CutIsMod(n - 0x1_0000_0000);
    }
  }

  lemma {:induction false} CutMultiple(n: nat, q: nat)
    ensures Cut(n + 0x1_0000_0000 * q) == Cut(n)
  {
    if q > 0 {
      CutMultiple(n, q - 1);
    }
  }

  lemma {:induction false} CutExact(n: nat)
    ensures Cut(n) < 0x1_0000_0000
    ensures Cut(n) == n <==> n < 0x1_0000_0000
  {
    if n >= 0x1_0000_0000 {
      CutExact(n - 0x1_0000_0000);
    }
  }
}
