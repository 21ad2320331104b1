/** Machine words: ranges of unsigned types and equality up to wrap-around. */
module Words {
  const WORD32: nat := 0x1_0000_0000
  const WORD64: nat := 0x1_0000_0000_0000_0000

  /** Equal up to multiples of the counter range. */
  ghost predicate Congruent(x: int, y: int) { (x - y) % WORD64 == 0 }

  lemma Wraps(x: int, k: int)
    ensures Congruent(x, x + k * WORD64)
  {
    assert (x - (x + k * WORD64)) == -k * WORD64;
    WholeMultiple(-k);
  }

  lemma WholeMultiple(k: int)
    ensures (k * WORD64) % WORD64 == 0
  {
  }

  lemma CongruentChain(x: int, y: int, z: int)
    requires Congruent(x, y) && Congruent(y, z)
    ensures Congruent(x, z)
  {
  }

  lemma CongruentShift(x: int, y: int, d: int)
    requires Congruent(x, y)
    ensures Congruent(x + d, y + d)
  {
    assert (x + d) - (y + d) == x - y;
  }

  lemma ReduceCongruent(x: int)
    ensures Congruent(x % WORD64, x)
  {
  }

  lemma CongruentSum(a: int, b: int, c: int, d: int)
    requires Congruent(a, b) && Congruent(c, d)
    ensures Congruent(a + c, b + d)
  {
    CongruentShift(a, b, c);
    CongruentShift(c, d, b);
    CongruentChain(a + c, b + c, b + d);
  }
}
