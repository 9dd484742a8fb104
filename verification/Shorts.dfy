/** Values kept in 16-bit signed fields. */
module Shorts {
  const SHORT_LIMIT := 0x8000

  // The value such a field holds after a store.
  function ToShort(n: int): int {
    var m := n % 0x1_0000;
    if m < SHORT_LIMIT then m else m - 0x1_0000
  }

  lemma ShortId(n: nat)
    requires n <= SHORT_LIMIT
    ensures n < SHORT_LIMIT ==> ToShort(n) == n
    ensures n == SHORT_LIMIT ==> ToShort(n) < 0
  {
  }

  lemma ShortStep(n: int)
    ensures ToShort(ToShort(n) + 1) == ToShort(n + 1)
  {
  }

  lemma ShortBounded(n: int)
    ensures ToShort(n) < SHORT_LIMIT
  {
  }
}
