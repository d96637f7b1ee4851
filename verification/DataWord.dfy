/** The packed `data` word of a vector-backed `BytesMut`, and its capacity classes.

    Bit 0 is the kind, bits 2 to 4 hold the capacity class and the bits from 5 up hold the
    distance from the start of the vector. Shifts and masks by constants are written as
    division and remainder; the width of a machine word is explicit. */
module DataWord {
  import opened Arithmetic

  const MAX_VEC_POS: nat := USIZE_MAX / 32
  const MIN_ORIGINAL_CAPACITY_WIDTH: nat := 10
  const MAX_ORIGINAL_CAPACITY_WIDTH: nat := 17

  function Kind(word: nat): nat {
    word % 2
  }

  function Class(word: nat): nat {
    word % 32 / 4
  }

  function VecPos(word: nat): nat {
    word / 32
  }

  /** The word `from_vec` and the detaching branch of `reserve_inner` build. */
  function NewWord(class_: nat): (word: nat)
    requires class_ <= 7
    ensures Kind(word) == 1 && Class(word) == class_ && VecPos(word) == 0
    ensures word < WORD
  {
    class_ * 4 + 1
  }

  /** `set_vec_pos` replaces the position and nothing else, and the result is a machine word. */
  function SetVecPos(word: nat, pos: nat): (r: nat)
    requires pos <= MAX_VEC_POS
    ensures VecPos(r) == pos
    ensures Kind(r) == Kind(word) && Class(r) == Class(word)
    ensures r < WORD
  {
    PackedWord(word, pos);
    pos * 32 + word % 32
  }

  lemma LowBit(pos: nat, t: nat)
    requires t < 32
    ensures (pos * 32 + t) % 2 == t % 2
  {
    assert pos * 32 + t == 2 * (16 * pos + t / 2) + t % 2;
    MultipleHasNoRest(2, 16 * pos + t / 2, t % 2);
  }

  lemma PackedWord(word: nat, pos: nat)
    ensures var r := pos * 32 + word % 32;
            r / 32 == pos && r % 32 == word % 32 && r % 2 == word % 2
  {
    MultipleHasNoRest(32, pos, word % 32);
    LowBit(pos, word % 32);
    LowBit(word / 32, word % 32);
  }

  /** Number of significant bits: the pointer width minus the leading zeros. */
  function BitLength(n: nat): nat {
    if n == 0 then 0 else 1 + BitLength(n / 2)
  }

  function OriginalCapacityToRepr(cap: nat): (repr: nat)
    ensures repr <= 7
  {
    Min(BitLength(cap / 1024), MAX_ORIGINAL_CAPACITY_WIDTH - MIN_ORIGINAL_CAPACITY_WIDTH)
  }

  function OriginalCapacityFromRepr(repr: nat): nat {
    if repr == 0 then 0 else Pow2(repr + (MIN_ORIGINAL_CAPACITY_WIDTH - 1))
  }

  lemma {:induction false} BitLengthBounds(n: nat)
    requires n > 0
    ensures BitLength(n) >= 1
    ensures Pow2(BitLength(n) - 1) <= n < Pow2(BitLength(n))
  {
    if n > 1 {
      BitLengthBounds(n / 2);
    }
  }

  lemma SmallPowers()
    ensures Pow2(0) == 1 && Pow2(1) == 2 && Pow2(2) == 4 && Pow2(3) == 8
    ensures Pow2(4) == 16 && Pow2(5) == 32 && Pow2(6) == 64 && Pow2(7) == 128
    ensures Pow2(10) == 1024 && Pow2(11) == 2048 && Pow2(12) == 4096 && Pow2(13) == 8192
    ensures Pow2(14) == 16384 && Pow2(15) == 32768 && Pow2(16) == 65536
  {
    assert Pow2(4) == 16;
    assert Pow2(7) == 128;
    assert Pow2(10) == 1024;
    assert Pow2(13) == 8192;
  }

  /** Decoding the class of a capacity gives zero below 1024, and otherwise the largest power
      of two that is not above the capacity and not above 65536. */
  lemma ClassDecodesToLargestPower(cap: nat)
    ensures var c := OriginalCapacityFromRepr(OriginalCapacityToRepr(cap));
            var bound := Min(cap, 65536);
            if cap < 1024 then c == 0
            else (exists e: nat :: c == Pow2(e)) && c <= bound < 2 * c
  {
    if cap >= 1024 {
      var width := BitLength(cap / 1024);
      BitLengthBounds(cap / 1024);
      SmallPowers();
      assert OriginalCapacityFromRepr(OriginalCapacityToRepr(cap)) == Pow2(OriginalCapacityToRepr(cap) + 9);
      if width > 7 {
        Pow2Monotone(7, width - 1);
      }
    }
  }
}
