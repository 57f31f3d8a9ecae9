/** A bitset stored in words; a word is the set of the positions of its one bits. The methods are those of one thread;
    what several threads do at once is in `ReductionSlots`. */
module AtomicBitset {

  const WORD_BITS := 64

  function GetVecSize(size: nat): nat {
    (size + WORD_BITS - 1) / WORD_BITS
  }

  /** The position of the lowest zero bit of a word, counted from one; zero if there is none. */
  method FirstZero(word: set<nat>) returns (k: nat)
    ensures k <= WORD_BITS
    ensures k > 0 ==> k - 1 !in word
    ensures forall b :: 0 <= b < (if k == 0 then WORD_BITS else k - 1) ==> b in word
  {
    k := 0;
    while k < WORD_BITS
      invariant k <= WORD_BITS && forall b :: 0 <= b < k ==> b in word
    {
      if k !in word {
        return k + 1;
      }
      k := k + 1;
    }
    return 0;
  }

  class AtomicBitset {
    const size: nat
    const storage: array<set<nat>>

    ghost predicate Valid()
      reads this, storage
    {
      storage.Length == GetVecSize(size)
    }

    predicate Has(pos: nat)
      requires Valid() && pos < size
      reads this, storage
    {
      pos % WORD_BITS in storage[pos / WORD_BITS]
    }

    /** The positions that are set. */
    ghost function Bits(): (bits: set<nat>)
      requires Valid()
      reads this, storage
    {
      set pos: nat | pos < size && Has(pos)
    }

    constructor (n: nat)
      ensures Valid() && size == n && Bits() == {} && fresh(storage)
    {
      size := n;
      storage := new set<nat>[GetVecSize(n)](i => {});
    }

    method Set(pos: nat)
      requires Valid() && pos < size
      modifies storage
      ensures Valid() && Bits() == old(Bits()) + {pos}
    {
      var w := pos / WORD_BITS;
      storage[w] := storage[w] + {pos % WORD_BITS};
    }

    method Reset(pos: nat)
      requires Valid() && pos < size
      modifies storage
      ensures Valid() && Bits() == old(Bits()) - {pos}
    {
      var w := pos / WORD_BITS;
      storage[w] := storage[w] - {pos % WORD_BITS};
    }

    /** Sets the lowest zero bit; -1 if all bits are set. */
    method SetFirst() returns (r: int)
      requires Valid()
      modifies storage
      ensures Valid()
      ensures r == -1 ==> Bits() == old(Bits()) && forall p: nat :: p < size ==> p in Bits()
      ensures r != -1 ==> 0 <= r < size && r !in old(Bits()) && Bits() == old(Bits()) + {r}
      ensures r != -1 ==> forall p: nat :: p < r ==> p in old(Bits())
    {
      var currentPos := 0;
      while currentPos < size
        invariant currentPos % WORD_BITS == 0
        invariant forall p: nat :: p < currentPos && p < size ==> Has(p)
        invariant storage[..] == old(storage[..])
      {
        var w := currentPos / WORD_BITS;
        var firstOne := FirstZero(storage[w]);
        if firstOne > 0 && currentPos + firstOne <= size {
          Set(currentPos + firstOne - 1);
          return currentPos + firstOne - 1;
        }
        currentPos := currentPos + WORD_BITS;
      }
      return -1;
    }
  }
}
