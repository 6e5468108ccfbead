/**
 Decimal and hexadecimal text: std::to_string, sprintf("%p"), boost::lexical_cast
 to an integer, and std::stoull in base 16, as JniRawValue.h uses them.
 */
module Numerals {
  import opened Results
  import opened Cells

  /** The number a digit stands for; 16 for a character that is no digit. */
  function DigitValue(c: char): (d: nat)
    ensures d <= 16
  {
    if '0' <= c <= '9' then c as int - '0' as int
    else if 'a' <= c <= 'f' then c as int - 'a' as int + 10
    else if 'A' <= c <= 'F' then c as int - 'A' as int + 10
    else 16
  }

  function DigitChar(d: nat): (c: char)
    requires d < 16
    ensures DigitValue(c) == d
    ensures c == '0' <==> d == 0
    ensures c != '-' && c != '+' && c != 'n' && c != 'x' && c != 'X' && c != ':'
  {
    if d < 10 then ('0' as int + d) as char else ('a' as int + (d - 10)) as char
  }

  predicate AllDigits(s: string, base: nat) {
    forall i :: 0 <= i < |s| ==> DigitValue(s[i]) < base
  }

  function Value(s: string, base: nat): (n: nat)
    requires AllDigits(s, base)
  {
    if s == "" then 0 else Value(s[..|s| - 1], base) * base + DigitValue(s[|s| - 1])
  }

  /** The shortest numeral of `n`, in lower case. */
  function Print(n: nat, base: nat): (s: string)
    requires 2 <= base <= 16
    ensures s != "" && AllDigits(s, base)
    ensures Value(s, base) == n
    ensures Canonical(s)
    decreases n
  {
    if n < base then [DigitChar(n)]
    else
      QuotientBounds(n, base);
      var front := Print(n / base, base);
      AppendDigit(front, n % base, base);
      front + [DigitChar(n % base)]
  }

  lemma QuotientBounds(n: nat, base: nat)
    requires 2 <= base <= n
    ensures 0 < n / base < n
    ensures n / base * base + n % base == n && 0 <= n % base < base
  {
    DivMod(n, base);
    var q := n / base;
    if q == 0 {
      assert false;
    }
    NonNegativeProduct(q, base - 2);
    assert q * base == q * 2 + q * (base - 2);
  }

  lemma AppendDigit(front: string, d: nat, base: nat)
    requires d < base <= 16 && AllDigits(front, base)
    requires Canonical(front) && Value(front, base) > 0
    ensures var s := front + [DigitChar(d)];
            AllDigits(s, base) && Canonical(s) && Value(s, base) == Value(front, base) * base + d
  {
    var s := front + [DigitChar(d)];
    assert s[..|s| - 1] == front;
    ZeroNumeral(front, base);
  }

  lemma ZeroNumeral(s: string, base: nat)
    requires Canonical(s) && AllDigits(s, base)
    ensures s[0] == '0' ==> Value(s, base) == 0
  {
    if |s| == 1 {
      assert Value(s[..0], base) == 0;
    }
  }

  /** Lower-case digits without a leading zero. */
  predicate Canonical(s: string) {
    && s != ""
    && (forall i :: 0 <= i < |s| ==> DigitValue(s[i]) < 16 && s[i] == DigitChar(DigitValue(s[i])))
    && (s[0] == '0' ==> |s| == 1)
  }

  lemma PrintOfAppend(high: nat, last: nat, base: nat)
    requires 2 <= base <= 16 && last < base && high > 0
    ensures high * base + last > 0
    ensures Print(high * base + last, base) == Print(high, base) + [DigitChar(last)]
  {
    Quotient(high, last, base);
    NextMultiple(0, high, base);
  }

  lemma OneDigitValue(s: string, base: nat)
    requires |s| == 1 && AllDigits(s, base)
    ensures Value(s, base) == DigitValue(s[0])
  {
    assert Value(s[..0], base) == 0;
  }

  lemma CanonicalFront(s: string, base: nat)
    requires |s| > 1 && Canonical(s) && AllDigits(s, base)
    ensures var front := s[..|s| - 1];
            && Canonical(front) && AllDigits(front, base) && DigitValue(front[0]) > 0
            && s == front + [DigitChar(DigitValue(s[|s| - 1]))]
  {
    assert s[0] == DigitChar(DigitValue(s[0]));
  }

  /** Numerals are unique: printing the value of a canonical numeral gives the numeral back. */
  lemma {:induction false} PrintValue(s: string, base: nat)
    requires 2 <= base <= 16
    requires Canonical(s) && AllDigits(s, base)
    ensures Print(Value(s, base), base) == s
    ensures |s| > 1 ==> Value(s, base) > 0
  {
    if |s| == 1 {
      OneDigitValue(s, base);
    } else {
      var front, last := s[..|s| - 1], DigitValue(s[|s| - 1]);
      CanonicalFront(s, base);
      PrintValue(front, base);
      if |front| == 1 {
        OneDigitValue(front, base);
      }
      PrintOfAppend(Value(front, base), last, base);
    }
  }

  /** A numeral of k hexadecimal digits is below 16 to the power k. */
  function Power16(k: nat): (p: nat)
    ensures p > 0
  {
    if k == 0 then 1 else 16 * Power16(k - 1)
  }

  lemma {:induction false} ValueBound(s: string)
    requires AllDigits(s, 16)
    ensures Value(s, 16) < Power16(|s|)
  {
    if s != "" {
      ValueBound(s[..|s| - 1]);
    }
  }

  lemma {:induction false} PowerMonotone(j: nat, k: nat)
    requires j <= k
    ensures Power16(j) <= Power16(k)
    decreases k - j
  {
    if j < k {
      PowerMonotone(j + 1, k);
    }
  }

  /** The digits, in figures. */
  lemma DigitsInOrder(d: nat)
    requires d < 16
    ensures DigitChar(d) == "0123456789abcdef"[d]
    ensures DigitValue("0123456789abcdef"[d]) == d && DigitValue("0123456789ABCDEF"[d]) == d
  {
  }

  function Power(base: nat, k: nat): nat {
    if k == 0 then 1 else Power(base, k - 1) * base
  }

  lemma Regroup(d: nat, p: nat, v: nat, base: nat, last: nat)
    ensures (d * p + v) * base + last == d * (p * base) + (v * base + last)
  {
  }

  /** Places count from the right: the first digit has the highest weight. */
  lemma {:induction false} ValueFromHead(s: string, base: nat)
    requires s != "" && AllDigits(s, base)
    ensures Value(s, base) == DigitValue(s[0]) * Power(base, |s| - 1) + Value(s[1..], base)
  {
    var front, last := s[..|s| - 1], DigitValue(s[|s| - 1]);
    if front == "" {
      assert Value(front, base) == 0;
    } else {
      ValueFromHead(front, base);
      assert s[1..][..|s| - 2] == front[1..];
      assert s[1..][|s| - 2] == s[|s| - 1];
      Regroup(DigitValue(s[0]), Power(base, |front| - 1), Value(front[1..], base), base, last);
    }
  }

  // Decimal integers

  /** std::to_string of an integer. */
  function ToDecimal(n: int): (s: string)
    ensures s != ""
  {
    if n < 0 then "-" + Print(-n, 10) else Print(n, 10)
  }

  /**
   boost::lexical_cast to an integer type of `w` bytes: an optional sign and at
   least one digit. The magnitude is checked; a minus sign on an unsigned type
   wraps around.
   */
  function LexicalCast(s: string, w: Width, signed: bool): (r: Result<int>)
    ensures if r.Ok? then InRange(r.value, w, signed) else r.failure == BadCast
  {
    var minus := s != "" && s[0] == '-';
    var body := if s != "" && (s[0] == '-' || s[0] == '+') then s[1..] else s;
    if body == "" || !AllDigits(body, 10) then Err(BadCast)
    else
      var v: int := Value(body, 10);
      if signed then
        if minus then if v <= Modulus(w) / 2 then Ok(-v) else Err(BadCast)
        else if v < Modulus(w) / 2 then Ok(v) else Err(BadCast)
      else if v >= Modulus(w) then Err(BadCast)
      else if minus && v > 0 then Ok(Modulus(w) - v)
      else Ok(v)
  }

  /** Printed integers parse to themselves exactly when the target type can hold them. */
  lemma DecimalRoundTrip(n: int, w: Width, signed: bool)
    ensures LexicalCast(ToDecimal(n), w, signed) == Ok(n) <==> InRange(n, w, signed)
  {
    var s := ToDecimal(n);
    if n < 0 {
      assert s[0] == '-' && s[1..] == Print(-n, 10);
    } else {
      DigitIsNoSign(s);
    }
  }

  lemma DigitIsNoSign(s: string)
    requires s != "" && AllDigits(s, 16)
    ensures s[0] != '-' && s[0] != '+'
  {
    assert DigitValue(s[0]) < 16;
  }

  /** An integer in decimal: its digits, behind a minus sign if it is negative. */
  lemma DecimalText(n: int)
    ensures var s := ToDecimal(n);
            if n < 0 then
              s[0] == '-' && AllDigits(s[1..], 10) && Value(s[1..], 10) == -n && Canonical(s[1..])
            else AllDigits(s, 10) && Value(s, 10) == n && Canonical(s)
  {
    if n < 0 {
      assert ToDecimal(n)[1..] == Print(-n, 10);
    }
  }

  /** What lexical_cast makes of digits without a sign. */
  lemma CastOfDigits(digits: string, w: Width, signed: bool)
    requires digits != "" && AllDigits(digits, 10)
    ensures var v: int := Value(digits, 10);
            LexicalCast(digits, w, signed) ==
            if v < (if signed then Modulus(w) / 2 else Modulus(w)) then Ok(v) else Err(BadCast)
  {
    DigitIsNoSign(digits);
  }

  /** A plus sign changes nothing. */
  lemma CastOfPlus(digits: string, w: Width, signed: bool)
    requires digits != "" && AllDigits(digits, 10)
    ensures LexicalCast("+" + digits, w, signed) == LexicalCast(digits, w, signed)
  {
    DigitIsNoSign(digits);
    var s := "+" + digits;
    assert s[0] == '+' && s[1..] == digits;
  }

  /** A minus sign negates, and wraps an unsigned number around. */
  lemma CastOfMinus(digits: string, w: Width, signed: bool)
    requires digits != "" && AllDigits(digits, 10)
    ensures var v: int, m := Value(digits, 10), Modulus(w);
            LexicalCast("-" + digits, w, signed) ==
            if signed then (if v <= m / 2 then Ok(-v) else Err(BadCast))
            else if v >= m then Err(BadCast) else if v == 0 then Ok(0) else Ok(m - v)
  {
    var s := "-" + digits;
    assert s[0] == '-' && s[1..] == digits;
  }

  /** Anything but an optional sign and digits is refused. */
  lemma CastNeedsDigits(body: string, w: Width, signed: bool)
    requires body == "" || !AllDigits(body, 10)
    ensures LexicalCast("-" + body, w, signed) == LexicalCast("+" + body, w, signed) == Err(BadCast)
    ensures body == "" || (body[0] != '-' && body[0] != '+') ==> LexicalCast(body, w, signed) == Err(BadCast)
  {
    assert ("-" + body)[1..] == ("+" + body)[1..] == body;
  }

  /** No printed integer is the word that setByString treats as a null reference. */
  lemma DecimalIsNotNull(n: int)
    ensures ToDecimal(n) != "null"
  {
    var s := ToDecimal(n);
    assert "null"[0] == 'n';
    if n >= 0 {
      assert DigitValue(s[0]) < 10;
    }
  }

  /** One character is printed for the numbers 0 to 9 and for no others. */
  lemma OneDigit(n: int)
    ensures |ToDecimal(n)| == 1 <==> 0 <= n < 10
    ensures 0 <= n < 10 ==> ToDecimal(n)[0] as int == 48 + n
  {
    if n < 0 {
      assert |Print(-n, 10)| >= 1;
    } else if n >= 10 {
      assert |Print(n / 10, 10)| >= 1;
    }
  }

  // Hexadecimal pointers

  /** sprintf("%p"), with the program's own "0x0" for null. */
  function PrintPointer(raw: Raw): (s: string) {
    if raw == 0 then "0x0" else "0x" + Print(raw, 16)
  }

  /** The digits that std::stoull reads: after an optional 0x, the longest run of digits. */
  function HexRun(s: string): (run: string)
    ensures AllDigits(run, 16)
    ensures run <= s
    ensures |run| < |s| ==> DigitValue(s[|run|]) >= 16
  {
    if s == "" || DigitValue(s[0]) >= 16 then ""
    else
      var rest := HexRun(s[1..]);
      [s[0]] + rest
  }

  /** std::stoull(s, 0, 16). */
  function ParsePointer(s: string): (r: Result<Raw>)
    ensures r.Err? ==> r.failure == BadCast || r.failure == OutOfRange
  {
    var prefixed := |s| > 2 && s[0] == '0' && (s[1] == 'x' || s[1] == 'X') && DigitValue(s[2]) < 16;
    var run := HexRun(if prefixed then s[2..] else s);
    if run == "" then Err(BadCast)
    else if Value(run, 16) >= 0x1_0000_0000_0000_0000 then Err(OutOfRange)
    else Ok(Value(run, 16))
  }

  lemma {:induction false} HexRunOfDigits(s: string)
    requires AllDigits(s, 16)
    ensures HexRun(s) == s
  {
    if s != "" {
      HexRunOfDigits(s[1..]);
    }
  }

  lemma ParsePrefixed(digits: string)
    requires digits != "" && AllDigits(digits, 16)
    ensures ParsePointer("0x" + digits) ==
      if Value(digits, 16) >= 0x1_0000_0000_0000_0000 then Err(OutOfRange) else Ok(Value(digits, 16))
  {
    var s := "0x" + digits;
    assert s[0] == '0' && s[1] == 'x' && s[2] == digits[0];
    assert s[2..] == digits;
    HexRunOfDigits(digits);
  }

  lemma {:induction false} HexRunStops(digits: string, rest: string)
    requires AllDigits(digits, 16) && (rest != "" ==> DigitValue(rest[0]) == 16)
    ensures HexRun(digits + rest) == digits
  {
    if digits == "" {
      assert digits + rest == rest;
    } else {
      assert (digits + rest)[1..] == digits[1..] + rest;
      HexRunStops(digits[1..], rest);
    }
  }

  function Unsigned64(n: nat): Result<Raw> {
    if n >= 0x1_0000_0000_0000_0000 then Err(OutOfRange) else Ok(n)
  }

  /** The prefix may be in upper case, and what follows the digits is ignored. */
  lemma PrefixedForms(prefix: string, digits: string, rest: string)
    requires prefix == "0x" || prefix == "0X"
    requires digits != "" && AllDigits(digits, 16) && (rest != "" ==> DigitValue(rest[0]) == 16)
    ensures ParsePointer(prefix + (digits + rest)) == Unsigned64(Value(digits, 16))
  {
    var s := digits + rest;
    assert s[0] == digits[0];
    BehindPrefix(prefix, s);
    HexRunStops(digits, rest);
  }

  lemma BehindPrefix(prefix: string, s: string)
    requires prefix == "0x" || prefix == "0X"
    ensures var text := prefix + s;
            |text| == |s| + 2 && text[0] == '0' && (text[1] == 'x' || text[1] == 'X') && text[2..] == s
    ensures s != "" ==> (prefix + s)[2] == s[0]
  {
  }

  lemma NoPrefix(s: string)
    requires AllDigits(s, 16)
    ensures |s| > 1 ==> s[1] != 'x' && s[1] != 'X'
  {
    if |s| > 1 {
      assert DigitValue(s[1]) < 16;
    }
  }

  lemma ParseBare(s: string, run: string)
    requires |s| > 1 ==> s[1] != 'x' && s[1] != 'X'
    requires HexRun(s) == run && run != "" && AllDigits(run, 16)
    ensures ParsePointer(s) == Unsigned64(Value(run, 16))
  {
  }

  /** The prefix may be missing. */
  lemma BareDigits(digits: string)
    requires digits != "" && AllDigits(digits, 16)
    ensures ParsePointer(digits) == Unsigned64(Value(digits, 16))
  {
    HexRunOfDigits(digits);
    NoPrefix(digits);
    ParseBare(digits, digits);
  }

  /** Text that does not begin with a digit is refused. */
  lemma NoDigits(s: string)
    requires s != "" ==> DigitValue(s[0]) == 16
    ensures ParsePointer(s) == Err(BadCast)
  {
    assert HexRun(s) == "";
  }

  /** Printing a pointer and parsing the text gives the pointer, for every 64-bit value. */
  lemma PointerRoundTrip(raw: Raw)
    ensures ParsePointer(PrintPointer(raw)) == Ok(raw)
    ensures PrintPointer(raw) != "null"
  {
    var digits := Print(raw, 16);
    assert raw == 0 ==> PrintPointer(raw) == "0x" + digits;
    ParsePrefixed(digits);
    assert PrintPointer(raw)[0] == '0' && "null"[0] == 'n';
  }

  /** A pointer in hexadecimal: 0x and its digits. */
  lemma PointerText(raw: Raw)
    ensures var s := PrintPointer(raw);
            && |s| > 2 && s[..2] == "0x" && AllDigits(s[2..], 16) && Value(s[2..], 16) == raw
  {
    var s := PrintPointer(raw);
    if raw == 0 {
      assert s[2..] == "0" && s[2..][..0] == "";
      assert DigitValue('0') == 0;
    } else {
      assert s[2..] == Print(raw, 16);
    }
  }

  /** The strings that the printer produces: 0x and one to sixteen lower-case digits, no leading zero. */
  predicate CanonicalPointer(s: string) {
    && 3 <= |s| <= 18
    && s[..2] == "0x"
    && Canonical(s[2..])
  }

  /** Canonical strings are exactly the printed ones, and parsing then printing restores them. */
  lemma PointerTextRoundTrip(s: string)
    ensures CanonicalPointer(s) <==> ParsePointer(s).Ok? && PrintPointer(ParsePointer(s).value) == s
  {
    if CanonicalPointer(s) {
      CanonicalPointerParses(s);
    }
    if ParsePointer(s).Ok? && PrintPointer(ParsePointer(s).value) == s {
      PrintedPointerIsCanonical(ParsePointer(s).value);
    }
  }

  lemma CanonicalPointerParses(s: string)
    requires CanonicalPointer(s)
    ensures ParsePointer(s).Ok? && PrintPointer(ParsePointer(s).value) == s
  {
    var digits := s[2..];
    assert s == "0x" + digits;
    ParsePrefixed(digits);
    PrintValue(digits, 16);
    ValueBound(digits);
    PowerMonotone(|digits|, 16);
    PowerOfSixteen();
    if Value(digits, 16) == 0 {
      assert digits == Print(0, 16) == "0";
    }
  }

  lemma PowerOfSixteen()
    ensures Power16(16) == 0x1_0000_0000_0000_0000
  {
    assert Power16(8) == 0x1_0000_0000;
    assert Power16(12) == 0x1_0000_0000_0000;
  }

  lemma PrintedPointerIsCanonical(raw: Raw)
    ensures CanonicalPointer(PrintPointer(raw))
  {
    var digits := Print(raw, 16);
    var s := "0x" + digits;
    assert s == PrintPointer(raw);
    assert s[..2] == "0x" && s[2..] == digits;
    PowerOfSixteen();
    PrintLength(raw, 16);
  }

  /** A number below 16 to the power k is printed in at most k digits. */
  lemma {:induction false} PrintLength(n: nat, k: nat)
    requires k > 0 && n < Power16(k)
    ensures |Print(n, 16)| <= k
  {
    if n >= 16 {
      PrintLength(n / 16, k - 1);
    }
  }
}
