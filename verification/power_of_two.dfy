/**
 * Powers of two and a reference rounding function standing in for ccNextPOT,
 * whose code is not part of this model.
 */
module PowerOfTwo {

  predicate IsPowerOfTwo(n: nat)
    decreases n
  {
    n == 1 || (n > 1 && n % 2 == 0 && IsPowerOfTwo(n / 2))
  }

  /** No power of two lies strictly between p and 2p. */
  lemma {:induction false} PowersApart(p: nat, q: nat)
    requires IsPowerOfTwo(p) && IsPowerOfTwo(q) && p < q
    ensures 2 * p <= q
    decreases q
  {
    if p != 1 {
      PowersApart(p / 2, q / 2);
    }
  }

  /** The least power of two that is at least x, searching upwards from p. */
  function PotAtLeast(x: nat, p: nat): (r: nat)
    requires IsPowerOfTwo(p)
    requires forall q: nat :: IsPowerOfTwo(q) && q < p ==> q < x
    ensures IsPowerOfTwo(r) && x <= r
    ensures forall q: nat :: IsPowerOfTwo(q) && x <= q ==> r <= q
    decreases x - p
  {
    if x <= p then p
    else
      assert IsPowerOfTwo(2 * p) by {
        assert (2 * p) / 2 == p;
      }
      assert forall q: nat :: IsPowerOfTwo(q) && q < 2 * p ==> q < x by {
        forall q: nat | IsPowerOfTwo(q) && q < 2 * p
          ensures q < x
        {
          if q > p {
            PowersApart(p, q);
          }
        }
      }
      PotAtLeast(x, 2 * p)
  }

  /** The smallest power of two not below x (1 for x = 0). */
  function NextPOT(x: nat): (r: nat)
    ensures IsPowerOfTwo(r) && x <= r
    ensures forall q: nat :: IsPowerOfTwo(q) && x <= q ==> r <= q
  {
    PotAtLeast(x, 1)
  }

  /** Rounding leaves a power of two alone, as the mipmap check relies on. */
  lemma NextPOTFixesPowers(x: nat)
    ensures IsPowerOfTwo(x) <==> NextPOT(x) == x
  {
  }

  /** Rounding never shrinks, so it can be handed to initWithImage. */
  lemma NextPOTRoundsUp()
    ensures forall n: nat :: n <= NextPOT(n)
  {
  }
}
