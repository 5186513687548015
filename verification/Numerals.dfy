/** printnum (libs/printfmt.c): a number is written digit by digit through an output routine, most significant
    first, padded on the left to a width. */
module Numerals {
  import opened Divide

  function HexDigit(d: nat): char
    requires d < 16
  {
    assert |"0123456789abcdef"| == 16;
    "0123456789abcdef"[d]
  }

  /** Where the output routine puts its characters. */
  class Output {
    var text: string

    method Putch(c: char)
      modifies this
      ensures text == old(text) + [c]
    {
      text := text + [c];
    }
  }

  /** The radix the code really divides by: every base except 8 and 10 is taken for 16. */
  function Radix(base: nat): (r: nat) ensures r > 1 { if base == 10 || base == 8 then base else 16 }

  /** The digits that are written, most significant first. */
  function Digits(num: nat, base: nat): seq<nat>
    requires 1 <= base
  {
    (if num >= base then Digits(num / Radix(base), base) else []) + [num % Radix(base)]
  }

  /** The value of a numeral in base `b` whose digits before the last are worth `high`. */
  function Append(high: nat, b: nat, d: nat): nat { high * b + d }

  /** Every digit is less than `r`. */
  predicate Below(ds: seq<nat>, r: nat) { forall k | 0 <= k < |ds| :: ds[k] < r }

  /** What a sequence of digits means in base `b`. */
  function Value(b: nat, ds: seq<nat>): nat {
    if ds == [] then 0 else Append(Value(b, ds[..|ds| - 1]), b, ds[|ds| - 1])
  }

  /** `ds` is how `num` is written in base `b`: proper digits, no superfluous zero in front, the right value. */
  predicate IsNumeral(ds: seq<nat>, b: nat, num: nat) {
    |ds| > 0 && Below(ds, b) && (|ds| > 1 ==> ds[0] != 0) && Value(b, ds) == num
  }

  function Shown(ds: seq<nat>): (r: string)
    requires Below(ds, 16)
    ensures |r| == |ds|
  {
    if ds == [] then "" else Shown(ds[..|ds| - 1]) + [HexDigit(ds[|ds| - 1])]
  }

  function Padding(n: int, padc: char): string { if n <= 0 then "" else seq(n, _ => padc) }

  // ---------- Reading the text ----------

  predicate IsDigitChar(c: char) { '0' <= c <= '9' || 'a' <= c <= 'f' }

  /** What a character is worth to a reader, by its code. */
  function CharValue(c: char): int {
    if c <= '9' then c as int - '0' as int else c as int - 'a' as int + 10
  }

  function ReadText(base: nat, t: string): int {
    if t == "" then 0 else ReadText(base, t[..|t| - 1]) * base + CharValue(t[|t| - 1])
  }

  /** The text `t` is how `num` is written in base `base`. */
  predicate Represents(t: string, base: nat, num: nat) {
    && t != "" && (forall k | 0 <= k < |t| :: IsDigitChar(t[k]) && CharValue(t[k]) < base)
    && (|t| > 1 ==> t[0] != '0') && ReadText(base, t) == num
  }

  /** The text `t` is pad characters up to the width, and then `num`. */
  ghost predicate Printed(t: string, num: nat, base: nat, width: int, padc: char) {
    exists k: nat :: k <= |t| && (forall i | 0 <= i < k :: t[i] == padc) && Represents(t[k..], base, num)
      && if |t| - k >= width then k == 0 else |t| == width
  }

  /** Writes `num` behind the text that is already there: pad characters, then digits, in exactly as many places as
      the larger of the width and the number of digits. */
  method PrintNum(o: Output, num: Word, base: nat, width: int, padc: char)
    requires 1 <= base <= 16
    modifies o
    ensures var ds := Digits(num, base);
      Below(ds, 16) && o.text == old(o.text) + Padding(width - |ds|, padc) + Shown(ds)
    ensures |old(o.text)| <= |o.text| && o.text[..|old(o.text)|] == old(o.text)
    ensures base == 8 || base == 10 || base == 16 || num < base ==> Printed(o.text[|old(o.text)|..], num, base, width, padc)
    ensures |o.text| == |old(o.text)| + if width > |Digits(num, base)| then width else |Digits(num, base)|
    decreases num
  {
    hide Shown, Padding, Digits;
    var mod, result := LastDigitOf(num, base);
    ghost var high := if num >= base then Digits(result, base) else [];
    if num >= base {
      Shrinks(num, base);
      PrintNum(o, result, base, width - 1, padc);
    } else {
      Pad(o, width - 1, padc);
    }
    o.Putch(HexDigit(mod));
    assert Shown([]) == "" by { NothingShown(); }
    DigitsAre(num, base, high, mod);
    Written(old(o.text), width, padc, high, mod);
    PaddedTo(width - |high + [mod]|, padc);
    PrintsRight(old(o.text), o.text, num, base, width, padc);
  }

  /** What is written can be read. */
  lemma {:induction false} PrintsRight(was: string, text: string, num: nat, base: nat, width: int, padc: char)
    requires 1 <= base <= 16 && Below(Digits(num, base), 16)
    requires text == was + Padding(width - |Digits(num, base)|, padc) + Shown(Digits(num, base))
    ensures |was| <= |text| && text[..|was|] == was
    ensures base == 8 || base == 10 || base == 16 || num < base ==> Printed(text[|was|..], num, base, width, padc)
  {
    var ds := Digits(num, base);
    var pad := Padding(width - |ds|, padc);
    assert text == was + (pad + Shown(ds));
    if base == 8 || base == 10 || base == 16 || num < base {
      RightExactly(num, base);
      ShownRepresents(ds, base, num);
      hide Digits, Shown, Represents, IsNumeral, Printed;
      PaddedPrints(pad, Shown(ds), num, base, width, padc);
    }
  }

  lemma {:induction false} PaddedPrints(pad: string, t: string, num: nat, base: nat, width: int, padc: char)
    requires pad == Padding(width - |t|, padc) && Represents(t, base, num)
    ensures Printed(pad + t, num, base, width, padc)
  {
    hide Represents;
    assert (pad + t)[|pad|..] == t;
  }

  lemma {:induction false} ShownRepresents(ds: seq<nat>, base: nat, num: nat)
    requires Below(ds, 16) && IsNumeral(ds, base, num)
    ensures Represents(Shown(ds), base, num)
  {
    ShownReads(ds, base);
    hide Shown, Value, ReadText;
    forall k | 0 <= k < |ds| ensures IsDigitChar(Shown(ds)[k]) && CharValue(Shown(ds)[k]) < base { }
  }

  /** Each character is worth its digit, and so the text what the digits are worth. */
  lemma {:induction false} ShownReads(ds: seq<nat>, base: nat)
    requires Below(ds, 16)
    ensures forall k | 0 <= k < |ds| :: IsDigitChar(Shown(ds)[k]) && CharValue(Shown(ds)[k]) == ds[k]
    ensures ReadText(base, Shown(ds)) == Value(base, ds)
  {
    if ds != [] {
      var ds' := ds[..|ds| - 1];
      ShownReads(ds', base);
      HexDigitRead(ds[|ds| - 1]);
      assert Shown(ds)[..|ds| - 1] == Shown(ds');
      hide HexDigit, CharValue, IsDigitChar;
      forall k | 0 <= k < |ds| ensures IsDigitChar(Shown(ds)[k]) && CharValue(Shown(ds)[k]) == ds[k] {
        if k < |ds'| { assert Shown(ds)[k] == Shown(ds')[k] && ds[k] == ds'[k]; }
      }
    }
  }

  lemma {:induction false} HexDigitRead(d: nat)
    requires d < 16
    ensures IsDigitChar(HexDigit(d)) && CharValue(HexDigit(d)) == d
  {
    var t := "0123456789abcdef";
    assert t[0] == '0' && t[1] == '1' && t[2] == '2' && t[3] == '3' && t[4] == '4' && t[5] == '5' && t[6] == '6' && t[7] == '7';
    assert t[8] == '8' && t[9] == '9' && t[10] == 'a' && t[11] == 'b' && t[12] == 'c' && t[13] == 'd' && t[14] == 'e' && t[15] == 'f';
  }

  lemma {:induction false} NothingShown()
    ensures Shown([]) == ""
  {
  }

  lemma {:induction false} PaddedTo(n: int, padc: char)
    ensures |Padding(n, padc)| == if n > 0 then n else 0
  {
  }

  /** The remainder and the quotient by the radix, by shifts, masks and __divu10. */
  method LastDigitOf(num: Word, base: nat) returns (mod: Word, result: Word)
    ensures mod == num % Radix(base) && result == num / Radix(base)
  {
    if base == 10 {
      var t := Divu10(num);
      Divu10Divides(num);
      Mulu10Exact(t);
      mod, result := num - Mulu10(t), t;
    } else if base == 8 {
      mod, result := num % 8, num / 8;
    } else {
      mod, result := num % 16, num / 16;
    }
  }

  /** The loop that writes the pad characters. */
  method Pad(o: Output, width: int, padc: char)
    modifies o
    ensures o.text == old(o.text) + Padding(width, padc)
  {
    var w := width;
    while w > 0
      invariant w == width || 0 <= w < width
      invariant o.text == old(o.text) + Padding(width - w, padc)
    {
      o.Putch(padc);
      w := w - 1;
    }
  }

  lemma {:induction false} Shrinks(num: nat, base: nat)
    requires 1 <= base <= num
    ensures num / Radix(base) < num
  {
  }

  /** The digits are those of the quotient and the remainder behind them. */
  lemma {:induction false} DigitsAre(num: nat, base: nat, high: seq<nat>, mod: nat)
    requires 1 <= base <= 16 && mod == num % Radix(base)
    requires high == if num >= base then Digits(num / Radix(base), base) else []
    ensures Digits(num, base) == high + [mod] && Below(high + [mod], 16) && mod < 16
  {
    DigitsBelow(num, base);
    assert Digits(num, base) == high + [mod];
    assert Digits(num, base)[|high|] == mod;
  }

  /** One character more behind what is written for the higher digits. */
  lemma {:induction false} Written(was: string, width: int, padc: char, high: seq<nat>, mod: nat)
    requires Below(high + [mod], 16)
    ensures Below(high, 16) && mod < 16
    ensures (was + Padding(width - 1 - |high|, padc) + Shown(high)) + [HexDigit(mod)]
      == was + Padding(width - |high + [mod]|, padc) + Shown(high + [mod])
  {
    hide HexDigit, Padding;
    ShownOneMore(high, mod);
    var w := was + Padding(width - 1 - |high|, padc);
    assert (w + Shown(high)) + [HexDigit(mod)] == w + (Shown(high) + [HexDigit(mod)]);
  }

  lemma {:induction false} ShownOneMore(ds: seq<nat>, d: nat)
    requires Below(ds + [d], 16)
    ensures d < 16 && Below(ds, 16) && Shown(ds + [d]) == Shown(ds) + [HexDigit(d)]
  {
    var all := ds + [d];
    assert all[|ds|] == d && all[..|all| - 1] == ds;
    assert forall k | 0 <= k < |ds| :: all[k] == ds[k];
  }

  /** Every digit lies below the radix and so has a character. */
  lemma {:induction false} DigitsBelow(num: nat, base: nat)
    requires 1 <= base <= 16
    ensures Below(Digits(num, base), Radix(base)) && Below(Digits(num, base), 16)
    ensures |Digits(num, base)| > 0
    decreases num
  {
    if num >= base { DigitsBelow(num / Radix(base), base); }
  }

  lemma {:induction false} QuotientAndRest(num: nat, b: nat)
    requires b > 0
    ensures Append(num / b, b, num % b) == num
  {
  }

  lemma {:induction false} AppendedBelow(high: nat, b: nat, d: nat)
    requires d < b
    ensures Append(high, b, d) / b == high && Append(high, b, d) % b == d
  {
    if high == 0 { return; }
    AppendedBelow(high - 1, b, d);
    assert Append(high, b, d) == Append(high - 1, b, d) + b;
    OneMultipleMore(Append(high - 1, b, d), b);
  }

  lemma {:induction false} OneMultipleMore(x: nat, b: nat)
    requires b > 0
    ensures (x + b) / b == x / b + 1 && (x + b) % b == x % b
  {
    Unique(x + b, b, x / b + 1, x % b);
  }

  lemma {:induction false} Unique(x: nat, b: nat, q: nat, r: nat)
    requires r < b && x == b * q + r
    ensures x / b == q && x % b == r
  {
    assert b * (q - x / b) == x % b - r;
    Multiple(b, q - x / b);
  }

  lemma {:induction false} Multiple(b: nat, k: int)
    ensures (k >= 1 ==> b * k >= b) && (k <= -1 ==> b * k <= 0 - b)
  {
    if k >= 1 { assert b * (k - 1) >= 0; }
    if k <= -1 { assert b * (0 - 1 - k) >= 0; }
  }

  /** Read in the radix that was used, the digits always give the number back. */
  lemma {:induction false} ReadsBack(num: nat, base: nat)
    requires 1 <= base <= 16
    ensures Value(Radix(base), Digits(num, base)) == num
    decreases num
  {
    hide Append;
    var r := Radix(base);
    var high := if num >= base then Digits(num / r, base) else [];
    assert Digits(num, base)[..|high|] == high;
    QuotientAndRest(num, r);
    if num >= base {
      Shrinks(num, base);
      ReadsBack(num / r, base);
    } else {
      assert num / r == 0;
    }
  }

  /** In the bases that the code divides by (8, 10 and 16) the digits are the one numeral of the number. The kernel
      writes in 10 and 16. */
  lemma {:induction false} WritesTheNumeral(num: nat, base: nat, ds: seq<nat>)
    requires base == 8 || base == 10 || base == 16
    ensures IsNumeral(ds, base, num) <==> ds == Digits(num, base)
  {
    hide Value, Digits;
    DigitsBelow(num, base);
    ReadsBack(num, base);
    NoLeadingZero(num, base);
    if IsNumeral(ds, base, num) { SameNumeral(ds, Digits(num, base), base, num); }
  }

  lemma {:induction false} NoLeadingZero(num: nat, base: nat)
    requires base == 8 || base == 10 || base == 16
    ensures |Digits(num, base)| > 0 && (num > 0 ==> Digits(num, base)[0] > 0) && (num < base ==> |Digits(num, base)| == 1)
    decreases num
  {
    if num >= base { NoLeadingZero(num / base, base); }
  }

  /** Two numerals of one number are equal. */
  lemma {:induction false} SameNumeral(a: seq<nat>, b: seq<nat>, base: nat, num: nat)
    requires base > 1 && IsNumeral(a, base, num) && IsNumeral(b, base, num)
    ensures a == b
    decreases |a|
  {
    hide Value;
    LastDigit(a, base);
    LastDigit(b, base);
    var a', b' := a[..|a| - 1], b[..|b| - 1];
    if a' == [] || b' == [] {
      Worthless(a', base);
      Worthless(b', base);
    } else {
      HigherDigits(a, base, num);
      HigherDigits(b, base, num);
      SameNumeral(a', b', base, num / base);
    }
    assert a == a' + [num % base] && b == b' + [num % base];
  }

  lemma {:induction false} HigherDigits(ds: seq<nat>, base: nat, num: nat)
    requires base > 1 && IsNumeral(ds, base, num) && |ds| > 1
    ensures IsNumeral(ds[..|ds| - 1], base, num / base)
  {
    hide Value;
    LastDigit(ds, base);
  }

  lemma {:induction false} LastDigit(ds: seq<nat>, base: nat)
    requires base > 1 && |ds| > 0 && Below(ds, base)
    ensures ds[|ds| - 1] == Value(base, ds) % base && Value(base, ds[..|ds| - 1]) == Value(base, ds) / base
  {
    hide Append;
    AppendedBelow(Value(base, ds[..|ds| - 1]), base, ds[|ds| - 1]);
  }

  lemma {:induction false} AppendAtLeast(high: nat, base: nat, d: nat)
    requires base > 1
    ensures Append(high, base, d) >= high && Append(high, base, d) >= d
  {
    assert high * (base - 1) >= 0;
  }

  /** Digits without a zero in front are worth nothing only when there are none. */
  lemma {:induction false} Worthless(ds: seq<nat>, base: nat)
    requires base > 1 && (|ds| > 0 ==> ds[0] > 0)
    ensures Value(base, ds) == 0 <==> ds == []
  {
    hide Append;
    if |ds| > 0 {
      Worthless(ds[..|ds| - 1], base);
      AppendAtLeast(Value(base, ds[..|ds| - 1]), base, ds[|ds| - 1]);
    }
  }

  /** The documented bases are 1 to 16, but only for 8, 10 and 16, or a number below the base, is the right numeral
      written. */
  lemma {:induction false} RightExactly(num: nat, base: nat)
    requires 1 <= base <= 16
    ensures IsNumeral(Digits(num, base), base, num) <==> base == 8 || base == 10 || base == 16 || num < base
  {
    var ds := Digits(num, base);
    if base == 8 || base == 10 || base == 16 {
      WritesTheNumeral(num, base, ds);
    } else if num < base {
      assert ds == [num] && ds[..0] == [];
      assert Value(base, ds) == Append(Value(base, []), base, num) == num;
    } else if IsNumeral(ds, base, num) {
      DigitsBelow(num / 16, base);
      ReadsBack(num, base);
      Smaller(ds, base, 16);
    }
  }

  /** Two written in base two comes out as 02. */
  lemma {:induction false} WrongInBaseTwo()
    ensures Digits(2, 2) == [0, 2] && !IsNumeral(Digits(2, 2), 2, 2)
  {
    RightExactly(2, 2);
    assert Digits(0, 2) == [0];
  }

  lemma {:induction false} AppendMonotone(x: nat, y: nat, b: nat, c: nat, d: nat)
    requires b < c && x <= y && y > 0
    ensures Append(x, b, d) < Append(y, c, d)
  {
    assert x * b <= y * b < y * c;
  }

  /** With more than one digit and no zero in front, a smaller base gives a smaller value. */
  lemma {:induction false} Smaller(ds: seq<nat>, b: nat, c: nat)
    requires 0 < b < c && |ds| > 1 && ds[0] > 0
    ensures Value(b, ds) < Value(c, ds)
  {
    hide Append;
    var high := ds[..|ds| - 1];
    if |high| > 1 { Smaller(high, b, c); } else { OneDigit(high, b); OneDigit(high, c); }
    Worthless(high, c);
    AppendMonotone(Value(b, high), Value(c, high), b, c, ds[|ds| - 1]);
  }

  lemma {:induction false} OneDigit(ds: seq<nat>, b: nat)
    requires |ds| == 1
    ensures Value(b, ds) == ds[0]
  {
    assert ds[..0] == [];
    assert Append(Value(b, []), b, ds[0]) == ds[0];
  }
}
