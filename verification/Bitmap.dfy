/** A set of block numbers packed into words (fs/sfs/bitmap.c). A set bit is a free block. */
module Bitmaps {
  const WORD_BITS: nat := 32

  /** A word, as its bits from the lowest one up. */
  type Word = w: seq<bool> | |w| == WORD_BITS witness seq(WORD_BITS, _ => false)

  const ONES: Word := seq(WORD_BITS, _ => true)
  const ZERO: Word := seq(WORD_BITS, _ => false)

  /** word ^ (1 << offset) */
  function Toggle(w: Word, offset: nat): Word
    requires offset < WORD_BITS
  {
    w[offset := !w[offset]]
  }

  predicate Free(words: seq<Word>, i: nat)
    requires i < |words| * WORD_BITS
  {
    words[i / WORD_BITS][i % WORD_BITS]
  }

  /** A word that is not zero has a set bit: the assertion after the inner loop of bitmap_alloc is never reached. */
  lemma {:induction false} SomeBit(w: Word)
    ensures w == ZERO || exists p: nat | p < WORD_BITS :: w[p]
  {
    if forall p: nat | p < WORD_BITS :: !w[p] { assert w == ZERO; }
  }

  /** Writing one bit changes that bit and no other. */
  function SetBit(words: seq<Word>, i: nat, on: bool): seq<Word>
    requires i < |words| * WORD_BITS
  {
    words[i / WORD_BITS := words[i / WORD_BITS][i % WORD_BITS := on]]
  }

  lemma {:induction false} OneBitChanges(words: seq<Word>, i: nat, on: bool)
    requires i < |words| * WORD_BITS
    ensures forall j: nat | j < |words| * WORD_BITS :: Free(SetBit(words, i, on), j) <==> if j == i then on else Free(words, j)
  {
  }

  class Bitmap {
    const nbits: nat
    const words: array<Word>

    /** The words are enough, and the bits left over at the end are in use. */
    ghost predicate Valid()
      reads this, words
    {
      && nbits > 0 && words.Length == (nbits + WORD_BITS - 1) / WORD_BITS
      && forall i: nat | nbits <= i < words.Length * WORD_BITS :: !Free(words[..], i)
    }

    /** The set the words stand for. */
    ghost function Contents(): (r: set<nat>)
      requires Valid()
      reads this, words
    {
      set i: nat | i < nbits && Free(words[..], i)
    }

    /** bitmap_create. */
    constructor (nbits: nat)
      requires nbits > 0
      ensures Valid() && fresh(words) && this.nbits == nbits
      ensures forall i: nat :: i in Contents() <==> i < nbits
    {
      var nwords := (nbits + WORD_BITS - 1) / WORD_BITS;
      var ws := new Word[nwords](_ => ONES);
      this.nbits, words := nbits, ws;
      new;
      if nbits != nwords * WORD_BITS { MarkRest(); }
    }

    /** The loop of bitmap_create over the bits at the end. */
    method MarkRest()
      requires nbits > 0 && words.Length == (nbits + WORD_BITS - 1) / WORD_BITS && nbits < words.Length * WORD_BITS
      requires forall i: nat | i < words.Length * WORD_BITS :: Free(words[..], i)
      modifies words
      ensures forall i: nat | i < words.Length * WORD_BITS :: Free(words[..], i) <==> i < nbits
    {
      var ix := words.Length - 1;
      var overbits := nbits - ix * WORD_BITS;
      while overbits < WORD_BITS
        invariant nbits - ix * WORD_BITS <= overbits <= WORD_BITS
        invariant forall i: nat | i < words.Length * WORD_BITS :: Free(words[..], i) <==> i < nbits || i >= ix * WORD_BITS + overbits
      {
        assert Free(words[..], ix * WORD_BITS + overbits);
        ghost var was := words[..];
        words[ix] := Toggle(words[ix], overbits);
        assert words[..] == SetBit(was, ix * WORD_BITS + overbits, false);
        OneBitChanges(was, ix * WORD_BITS + overbits, false);
        overbits := overbits + 1;
      }
    }

    /** bitmap_alloc takes the lowest free block, and fails exactly when none is free. */
    method Alloc() returns (index: nat, ok: bool)
      requires Valid()
      modifies words
      ensures Valid() && (ok <==> old(Contents()) != {})
      ensures ok ==> index in old(Contents()) && Contents() == old(Contents()) - {index} && forall i | i in old(Contents()) :: index <= i
      ensures !ok ==> Contents() == old(Contents())
    {
      var ix := 0;
      while ix < words.Length
        invariant 0 <= ix <= words.Length && words[..] == old(words[..])
        invariant forall i: nat | i < ix * WORD_BITS :: !Free(words[..], i)
      {
        if words[ix] != ZERO {
          SomeBit(words[ix]);
          var offset := 0;
          while !words[ix][offset]
            invariant 0 <= offset < WORD_BITS
            invariant forall p | 0 <= p < offset :: !words[ix][p]
            decreases WORD_BITS - offset
          {
            offset := offset + 1;
          }
          index := ix * WORD_BITS + offset;
          assert Free(words[..], index) && index in Contents();
          words[ix] := Toggle(words[ix], offset);
          assert words[..] == SetBit(old(words[..]), index, false);
          OneBitChanges(old(words[..]), index, false);
          return index, true;
        }
        ix := ix + 1;
      }
      assert Contents() == {};
      return 0, false;
    }

    /** bitmap_test. */
    method Test(i: nat) returns (free: bool)
      requires Valid() && i < nbits
      ensures free <==> i in Contents()
    {
      free := words[i / WORD_BITS][i % WORD_BITS];
    }

    /** bitmap_free of a block in use. */
    method Release(i: nat)
      requires Valid() && i < nbits && i !in Contents()
      modifies words
      ensures Valid() && Contents() == old(Contents()) + {i}
    {
      words[i / WORD_BITS] := words[i / WORD_BITS][i % WORD_BITS := true];
      assert words[..] == SetBit(old(words[..]), i, true);
      OneBitChanges(old(words[..]), i, true);
    }
  }
}
