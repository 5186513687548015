/** Division by ten and five with shifts and additions only (include/loongarch.h), on 32-bit unsigned words. */
module Divide {
  /** The number of values of a 32-bit word; additions and left shifts wrap around at it. */
  const WORDS := 0x1_0000_0000

  type Word = n: nat | n < WORDS

  /** What a register keeps of `x`. */
  function Wrap(x: int): Word { x % WORDS }

  function Mulu10(n: Word): Word { Wrap(Wrap(n * 8) + Wrap(n * 2)) }

  /** A sum of two shifts of `n`, refined three times. */
  function Refine(q: Word): Word {
    var q := Wrap(q + q / 16);
    var q := Wrap(q + q / 256);
    Wrap(q + q / 65536)
  }

  function Divu10(n: Word): Word {
    var q := Refine(Wrap(n / 2 + n / 4)) / 8;
    var r := Wrap(n - Mulu10(q));
    Wrap(q + Wrap(r + 6) / 16)
  }

  function Divu5(n: Word): Word {
    var q := Refine(Wrap(n / 8 + n / 16));
    var r := Wrap(n - Wrap(q * 5));
    Wrap(q + Wrap(13 * r) / 64)
  }

  /** The shift series divides every word exactly by ten. */
  lemma {:induction false} Divu10Divides(n: Word)
    ensures Divu10(n) == n / 10
  {
    hide Wrap, Refine, Mulu10;
    Fits(n / 2 + n / 4);
    Series(n / 2 + n / 4);
    var q := Refine(n / 2 + n / 4) / 8;
    Mulu10Exact(q);
    var r := n - 10 * q;
    assert 0 <= r < 20;
    Fits(r);
    Fits(r + 6);
    Fits(q + (r + 6) / 16);
  }

  /** And the one for five exactly by five. */
  lemma {:induction false} Divu5Divides(n: Word)
    ensures Divu5(n) == n / 5
  {
    hide Wrap, Refine;
    Fits(n / 8 + n / 16);
    Series(n / 8 + n / 16);
    var q := Refine(n / 8 + n / 16);
    Fits(q * 5);
    var r := n - 5 * q;
    assert 0 <= r < 30;
    Fits(r);
    Fits(13 * r);
    Fits(q + 13 * r / 64);
  }

  lemma {:induction false} Fits(x: int)
    requires 0 <= x < WORDS
    ensures Wrap(x) == x
  {
  }

  /** Multiplying by ten loses nothing but the wrap-around. */
  lemma {:induction false} Mulu10Exact(n: Word)
    ensures Mulu10(n) == Wrap(n * 10)
    ensures n * 10 < WORDS ==> Mulu10(n) == n * 10
  {
    hide Wrap;
    WrapSum(n * 8, n * 2);
    if n * 10 < WORDS { Fits(n * 10); }
  }

  lemma {:induction false} WrapSum(x: nat, y: nat)
    ensures Wrap(Wrap(x) + Wrap(y)) == Wrap(x + y)
  {
    var i, j := x / WORDS, y / WORDS;
    var s := Wrap(x) + Wrap(y);
    assert x + y == WORDS * (i + j) + s;
    if s < WORDS { WrapIs(x + y, i + j, s); } else { WrapIs(x + y, i + j + 1, s - WORDS); WrapIs(s, 1, s - WORDS); }
  }

  lemma {:induction false} WrapIs(x: int, k: int, r: Word)
    requires x == WORDS * k + r
    ensures Wrap(x) == r
  {
  }

  /** x + x / 2^k is x(1 + 2^-k) with an error below one; stated without division. */
  lemma {:induction false} OneStep(x: nat, p: nat)
    requires p > 0
    ensures (p + 1) * x - p < p * (x + x / p) <= (p + 1) * x
  {
    assert x == p * (x / p) + x % p;
    assert p * (x + x / p) == p * x + p * (x / p);
    assert (p + 1) * x == p * x + x;
  }

  /** The three steps multiply by (1 + 2^-4)(1 + 2^-8)(1 + 2^-16) = 16/15 (1 - 2^-32) and lose less than four. */
  lemma {:induction false} Series(q: Word)
    requires 16 * q < 15 * WORDS
    ensures 15 * Refine(q) <= 16 * q && 16 * q < 15 * (Refine(q) + 3) + 16
  {
    hide Wrap;
    var q2 := q + q / 16;
    var q3 := q2 + q2 / 256;
    OneStep(q, 16);
    OneStep(q2, 256);
    OneStep(q3, 65536);
    Fits(q2);
    Fits(q3);
    Fits(q3 + q3 / 65536);
  }
}
