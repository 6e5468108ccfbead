/**
 Raw cells: the 64-bit words in which the program keeps every native value
 (JniRawValue.h). A value narrower than the cell is copied to its low bytes
 with memcpy, so the other bytes keep whatever the cell held before; that
 earlier content is the explicit parameter `garbage`.
 */
module Cells {

  type Raw = r: int | 0 <= r < 0x1_0000_0000_0000_0000

  type Int32 = n: int | -0x8000_0000 <= n < 0x8000_0000

  /** The sizes, in bytes, of the native types. */
  datatype Width = One | Two | Four | Eight

  function Modulus(w: Width): (m: int)
    ensures m > 1 && m % 2 == 0
  {
    match w
    case One => 0x100
    case Two => 0x1_0000
    case Four => 0x1_0000_0000
    case Eight => 0x1_0000_0000_0000_0000
  }

  /** The low `w` bytes of a cell, on a little-endian machine. */
  function Low(raw: Raw, w: Width): (low: int)
    ensures 0 <= low < Modulus(w)
  {
    raw % Modulus(w)
  }

  /** memcpy of `w` bytes over the start of a cell: the low bytes are new, the others are old. */
  function Overwrite(low: int, w: Width, garbage: Raw): (raw: Raw)
    requires 0 <= low < Modulus(w)
    ensures Low(raw, w) == low
    ensures raw / Modulus(w) == garbage / Modulus(w)
  {
    var m := Modulus(w);
    Quotient(garbage / m, low, m);
    StaysInCell(garbage, low, w);
    garbage / m * m + low
  }

  lemma StaysInCell(garbage: Raw, low: int, w: Width)
    requires 0 <= low < Modulus(w)
    ensures 0 <= garbage / Modulus(w) * Modulus(w) + low < 0x1_0000_0000_0000_0000
  {
    match w {
      case One => assert garbage / 0x100 <= 0xff_ffff_ffff_ffff;
      case Two => assert garbage / 0x1_0000 <= 0xffff_ffff_ffff;
      case Four => assert garbage / 0x1_0000_0000 <= 0xffff_ffff;
      case Eight => assert garbage / 0x1_0000_0000_0000_0000 == 0;
    }
  }

  /** Division undoes multiplication when the remainder is smaller than the divisor. */
  lemma Quotient(q: int, r: int, m: int)
    requires 0 <= r < m
    ensures (q * m + r) / m == q && (q * m + r) % m == r
  {
    var n := q * m + r;
    DivMod(n, m);
    SameQuotient(q, r, n / m, n % m, m);
  }

  lemma DivMod(n: int, m: int)
    requires m > 0
    ensures n / m * m + n % m == n && 0 <= n % m < m
  {
  }

  lemma SameQuotient(q: int, r: int, q': int, r': int, m: int)
    requires 0 <= r < m && 0 <= r' < m
    requires q * m + r == q' * m + r'
    ensures q == q' && r == r'
  {
    assert (q - q') * m == r' - r;
    if q > q' {
      NextMultiple(q', q, m);
    } else if q < q' {
      NextMultiple(q, q', m);
    }
  }

  lemma NextMultiple(q: int, q': int, m: int)
    requires q < q' && m > 0
    ensures q * m + m <= q' * m
  {
    NonNegativeProduct(q' - q - 1, m);
    assert q' * m == q * m + m + (q' - q - 1) * m;
  }

  lemma {:induction false} NonNegativeProduct(a: nat, b: nat)
    ensures a * b >= 0
  {
    if a > 0 {
      NonNegativeProduct(a - 1, b);
      assert a * b == (a - 1) * b + b;
    }
  }

  /** The integers that a native type of `w` bytes holds. */
  predicate InRange(n: int, w: Width, signed: bool) {
    if signed then -(Modulus(w) / 2) <= n < Modulus(w) / 2 else 0 <= n < Modulus(w)
  }

  /** Two's complement, or plain binary, read from `w` low bytes. */
  function Interpret(low: int, w: Width, signed: bool): (n: int)
    requires 0 <= low < Modulus(w)
    ensures InRange(n, w, signed)
    ensures Encode(n, w, signed) == low
  {
    if signed && low >= Modulus(w) / 2 then low - Modulus(w) else low
  }

  /** The low bytes that hold `n`. */
  function Encode(n: int, w: Width, signed: bool): (low: int)
    requires InRange(n, w, signed)
    ensures 0 <= low < Modulus(w)
  {
    if n < 0 then n + Modulus(w) else n
  }

  /** A multiple of the modulus apart: the same bytes. */
  lemma Multiple(q: int, m: int)
    requires m > 0
    ensures (q * m) % m == 0
  {
    Quotient(q, 0, m);
  }

  /** The bytes that hold a number are the number modulo 256 to the power of their count. */
  lemma EncodeIsModulo(n: int, w: Width, signed: bool)
    requires InRange(n, w, signed)
    ensures Encode(n, w, signed) == n % Modulus(w)
  {
    var low := Encode(n, w, signed);
    if n < 0 {
      Quotient(-1, low, Modulus(w));
    } else {
      Quotient(0, low, Modulus(w));
    }
  }

  /** What is read differs from the cell by a multiple of the modulus. */
  lemma ReadIsCongruent(raw: Raw, w: Width, signed: bool)
    ensures var m := Modulus(w);
            (Interpret(Low(raw, w), w, signed) - raw) % m == 0
  {
    var m := Modulus(w);
    DivMod(raw, m);
    var q := raw / m;
    var n := Interpret(Low(raw, w), w, signed);
    if n == Low(raw, w) {
      assert n - raw == -q * m;
      Multiple(-q, m);
    } else {
      assert n - raw == (-q - 1) * m;
      Multiple(-q - 1, m);
    }
  }

  /** Every representable number survives a store to, and a load from, a cell with any upper bytes. */
  lemma StoreLoad(n: int, w: Width, signed: bool, garbage: Raw)
    requires InRange(n, w, signed)
    ensures Interpret(Low(Overwrite(Encode(n, w, signed), w, garbage), w), w, signed) == n
  {
    var low := Encode(n, w, signed);
    assert Low(Overwrite(low, w, garbage), w) == low;
  }
}
