/** Unsigned 64-bit arithmetic. */
module Words {

  const WORD: nat := 0x1_0000_0000_0000_0000

  function Wrap(n: int): nat {
    n % WORD
  }

  lemma SmallDoesNotWrap(n: nat)
    requires n < WORD
    ensures Wrap(n) == n
  {
  }
}
