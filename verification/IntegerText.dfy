/**
 Integers as text: the digit loops of `convert` and `convertHex` in LogStream.cc, proved to write the
 one canonical numeral of their value.
 */
module IntegerText {
  import opened CppArithmetic

  const DIGITS := "9876543210123456789"  // `zero` points at the middle
  const DIGITS_HEX := "0123456789ABCDEF"

  predicate IsBase(base: nat) {
    base == 10 || base == 16
  }

  // ---------------------------------------------------------------- numerals

  function Times(base: nat, x: nat): nat
    requires IsBase(base)
  {
    if base == 10 then 10 * x else 16 * x
  }

  function Over(x: nat, base: nat): nat
    requires IsBase(base)
  {
    if base == 10 then x / 10 else x / 16
  }

  function Mod(x: nat, base: nat): (r: nat)
    requires IsBase(base)
    ensures r < base && Times(base, Over(x, base)) + r == x
  {
    if base == 10 then x % 10 else x % 16
  }

  function Digit(d: nat): char
    requires d < 16
  {
    if d < 10 then '0' + d as char else 'A' + (d - 10) as char
  }

  /** The numeral of `n`, most significant digit first. */
  function Numeral(n: nat, base: nat): (s: string)
    requires IsBase(base)
    ensures s != []
  {
    if n < base then [Digit(n)] else Numeral(Over(n, base), base) + [Digit(Mod(n, base))]
  }

  /** What a digit stands for; 16 if it is none. */
  function DigitValue(c: char): nat {
    if '0' <= c <= '9' then (c - '0') as int
    else if 'A' <= c <= 'F' then (c - 'A') as int + 10
    else 16
  }

  function Value(s: string, base: nat): nat
    requires IsBase(base)
  {
    if s == [] then 0 else Times(base, Value(s[..|s| - 1], base)) + DigitValue(s[|s| - 1])
  }

  /** Digits of the base, at least one, and no superfluous zero in front. */
  predicate Canonical(s: string, base: nat)
    requires IsBase(base)
  {
    && s != []
    && (forall i :: 0 <= i < |s| ==> DigitValue(s[i]) < base)
    && (|s| > 1 ==> s[0] != '0')
  }

  lemma DigitRoundTrip(d: nat)
    requires d < 16
    ensures DigitValue(Digit(d)) == d
    ensures Digit(d) == '0' <==> d == 0
  {
  }

  lemma CharRoundTrip(c: char)
    requires DigitValue(c) < 16
    ensures Digit(DigitValue(c)) == c
  {
  }

  /** Numbers below the base are written with one digit, in the usual order; a negative number is written
      as a dash and its opposite. */
  lemma DigitsInOrder(d: nat)
    ensures d < 10 ==> Numeral(d, 10) == ["0123456789"[d]]
    ensures d < 16 ==> Numeral(d, 16) == ["0123456789ABCDEF"[d]]
    ensures var v: int := d; v > 0 ==> Decimal(-v) == "-" + Decimal(v)
  {
  }

  lemma {:induction false} NumeralHasValue(n: nat, base: nat)
    requires IsBase(base)
    ensures Canonical(Numeral(n, base), base) && Value(Numeral(n, base), base) == n
    ensures Numeral(n, base)[0] == '0' <==> n == 0
  {
    if n < base {
      DigitRoundTrip(n);
      assert Numeral(n, base)[..0] == [];
    } else {
      var top := Numeral(Over(n, base), base);
      NumeralHasValue(Over(n, base), base);
      DigitRoundTrip(Mod(n, base));
      assert Numeral(n, base)[..|top|] == top;
    }
  }

  lemma SingleDigit(s: string, base: nat)
    requires IsBase(base) && |s| == 1 && DigitValue(s[0]) < base
    ensures Value(s, base) == DigitValue(s[0]) && Numeral(DigitValue(s[0]), base) == s
  {
    CharRoundTrip(s[0]);
    assert s[..0] == [];
    assert Value(s[..0], base) == 0;
  }

  lemma {:induction false} ValueHasNumeral(s: string, base: nat)
    requires IsBase(base) && Canonical(s, base)
    ensures Numeral(Value(s, base), base) == s
    ensures s[0] != '0' ==> Value(s, base) >= 1
  {
    if |s| == 1 {
      SingleDigit(s, base);
      CharRoundTrip(s[0]);
    } else {
      ValueHasNumeral(s[..|s| - 1], base);
      LastOfMany(s, Value(s[..|s| - 1], base), base);
    }
  }

  lemma AnotherDigit(t: nat, d: nat, base: nat)
    requires IsBase(base) && t >= 1 && d < base
    ensures Times(base, t) + d >= 1 && Numeral(Times(base, t) + d, base) == Numeral(t, base) + [Digit(d)]
  {
    LastDigit(t, d, base);
    NumeralUnfolds(Times(base, t) + d, base);
  }

  lemma LastOfMany(s: string, t: nat, base: nat)
    requires IsBase(base) && |s| > 1 && t >= 1 && Numeral(t, base) == s[..|s| - 1] && DigitValue(s[|s| - 1]) < base
    ensures var v := Times(base, t) + DigitValue(s[|s| - 1]);
            v >= 1 && Numeral(v, base) == s
  {
    var d := DigitValue(s[|s| - 1]);
    CharRoundTrip(s[|s| - 1]);
    AnotherDigit(t, d, base);
    assert s == s[..|s| - 1] + [s[|s| - 1]];
  }

  lemma NumeralUnfolds(v: nat, base: nat)
    requires IsBase(base) && v >= base
    ensures Numeral(v, base) == Numeral(Over(v, base), base) + [Digit(Mod(v, base))]
  {
  }

  lemma LastDigit(top: nat, d: nat, base: nat)
    requires IsBase(base) && d < base
    ensures Over(Times(base, top) + d, base) == top && Mod(Times(base, top) + d, base) == d
    ensures top >= 1 ==> Times(base, top) + d >= base
  {
  }

  // ---------------------------------------------------------------- signed decimal text

  function Magnitude(v: int): nat {
    if v < 0 then -v else v
  }

  function Decimal(v: int): string {
    if v < 0 then "-" + Numeral(-v, 10) else Numeral(v, 10)
  }

  function Hex(v: nat): string {
    Numeral(v, 16)
  }

  function ParseDecimal(s: string): int {
    if s != [] && s[0] == '-' then -(Value(s[1..], 10) as int) else Value(s, 10)
  }

  /** A canonical numeral, with a minus sign in front only of a number other than zero. */
  predicate CanonicalDecimal(s: string) {
    if s != [] && s[0] == '-' then Canonical(s[1..], 10) && s[1] != '0' else Canonical(s, 10)
  }

  /** The text of a value is canonical and reads back as the value, */
  lemma DecimalRoundTrip(v: int)
    ensures CanonicalDecimal(Decimal(v)) && ParseDecimal(Decimal(v)) == v
  {
    NumeralHasValue(Magnitude(v), 10);
    var text := Numeral(Magnitude(v), 10);
    NotMinus(text);
    AfterMinus(text);
  }

  lemma NotMinus(s: string)
    requires Canonical(s, 10)
    ensures s[0] != '-'
  {
    assert DigitValue(s[0]) < 10;
  }

  lemma AfterMinus(s: string)
    ensures ("-" + s)[1..] == s && ("-" + s)[0] == '-'
  {
  }

  /** and it is the only canonical text that does. */
  lemma DecimalIsUnique(s: string, v: int)
    requires CanonicalDecimal(s) && ParseDecimal(s) == v
    ensures s == Decimal(v)
  {
    if s[0] == '-' {
      ValueHasNumeral(s[1..], 10);
      MinusInFront(s);
    } else {
      ValueHasNumeral(s, 10);
    }
  }

  lemma MinusInFront(s: string)
    requires s != [] && s[0] == '-'
    ensures s == "-" + s[1..]
  {
  }

  function Power(base: nat, k: nat): nat
    requires IsBase(base)
  {
    if k == 0 then 1 else Times(base, Power(base, k - 1))
  }

  lemma {:induction false} NumeralLength(n: nat, base: nat, k: nat)
    requires IsBase(base) && k > 0 && n < Power(base, k)
    ensures |Numeral(n, base)| <= k
  {
    if n >= base {
      NumeralLength(Over(n, base), base, k - 1);
    }
  }

  /** The values of the integer types that can be inserted into a log. */
  predicate FitsLong(v: int) {
    -0x8000_0000_0000_0000 <= v < 0x1_0000_0000_0000_0000
  }

  lemma TenToThe(k: nat, p: nat)
    requires p == Power(10, k)
    ensures Power(10, k + 5) == 100000 * p
  {
    assert Power(10, k + 4) == 10 * Power(10, k + 3);
    assert Power(10, k + 2) == 10 * Power(10, k + 1);
  }

  /** No 64-bit value, signed or unsigned, takes more than 20 characters, nor 16 in base 16. */
  lemma LongestText(v: int)
    requires FitsLong(v)
    ensures |Decimal(v)| <= 20
    ensures v >= 0 ==> |Hex(v)| <= 16
  {
    TenToThe(0, 1);
    TenToThe(5, 100000);
    TenToThe(10, 10000000000);
    TenToThe(15, 1000000000000000);
    assert Power(10, 20) == 10 * Power(10, 19);
    if v < 0 {
      NumeralLength(-v, 10, 19);
    } else {
      NumeralLength(v, 10, 20);
      assert Power(16, 4) == 0x1_0000 by { assert Power(16, 2) == 0x100; }
      assert Power(16, 8) == 0x1_0000_0000 by { assert Power(16, 6) == 0x100_0000; }
      assert Power(16, 12) == 0x1_0000_0000_0000 by { assert Power(16, 10) == 0x100_0000_0000; }
      assert Power(16, 16) == 0x1_0000_0000_0000_0000 by { assert Power(16, 14) == 0x100_0000_0000_0000; }
      NumeralLength(v, 16, 16);
    }
  }

  // ---------------------------------------------------------------- the code

  function Reversed(s: string): string {
    seq(|s|, i requires 0 <= i < |s| => s[|s| - 1 - i])
  }

  /** The character the code looks up for a remainder: `zero[lsd]`, where `lsd` may be negative, or
      `digitsHex[lsd]`. */
  function DigitChar(lsd: int, base: nat): char
    requires IsBase(base) && if base == 10 then -10 < lsd < 10 else 0 <= lsd < 16
  {
    if base == 10 then DIGITS[9 + lsd] else DIGITS_HEX[lsd]
  }

  lemma TruncationSplits(i: int, base: nat)
    requires IsBase(base)
    ensures Magnitude(Quot(i, base)) == Over(Magnitude(i), base)
    ensures Magnitude(Rem(i, base)) == Mod(Magnitude(i), base)
    ensures i >= 0 ==> Quot(i, base) >= 0 && Rem(i, base) >= 0
    ensures i <= 0 ==> Quot(i, base) <= 0 && Rem(i, base) <= 0
  {
    if base == 10 {
    } else {
    }
  }

  lemma LookupMagnitude(lsd: int, base: nat)
    requires IsBase(base) && if base == 10 then -10 < lsd < 10 else 0 <= lsd < 16
    ensures DigitChar(lsd, base) == Digit(Magnitude(lsd))
  {
  }

  /** One turn of the loop takes off the last digit of the numeral. */
  lemma NumeralStep(i: int, base: nat)
    requires IsBase(base) && (base == 16 ==> i >= 0)
    ensures base == 16 ==> Quot(i, base) >= 0
    ensures if base == 10 then -10 < Rem(i, base) < 10 else 0 <= Rem(i, base) < 16
    ensures Magnitude(Quot(i, base)) < Magnitude(i) || i == 0 == Quot(i, base)
    ensures Numeral(Magnitude(i), base)
            == (if Quot(i, base) != 0 then Numeral(Magnitude(Quot(i, base)), base) else [])
               + [DigitChar(Rem(i, base), base)]
  {
    TruncationSplits(i, base);
    LookupMagnitude(Rem(i, base), base);
  }

  lemma ReversedSnoc(s: string, c: char)
    ensures Reversed(s + [c]) == [c] + Reversed(s)
  {
  }

  /** What is left to write after the loop has brought the value down to `i`. */
  ghost function Left(i: int, more: bool, base: nat): string
    requires IsBase(base)
  {
    if more then Numeral(Magnitude(i), base) else []
  }

  lemma LoopStep(i: int, base: nat, done: string, numeral: string)
    requires IsBase(base) && (base == 16 ==> i >= 0) && numeral == Left(i, true, base) + Reversed(done)
    ensures base == 16 ==> Quot(i, base) >= 0
    ensures if base == 10 then -10 < Rem(i, base) < 10 else 0 <= Rem(i, base) < 16
    ensures Magnitude(Quot(i, base)) < Magnitude(i) || Quot(i, base) == 0
    ensures numeral == Left(Quot(i, base), Quot(i, base) != 0, base) + Reversed(done + [DigitChar(Rem(i, base), base)])
    ensures |numeral| > |done|
  {
    NumeralStep(i, base);
    ReversedSnoc(done, DigitChar(Rem(i, base), base));
  }

  /** The loop that `convert` and `convertHex` share: least significant digit first. */
  method PutDigits(buf: array<char>, at: nat, value: int, base: nat) returns (p: nat)
    requires IsBase(base) && (base == 16 ==> value >= 0)
    requires at + |Numeral(Magnitude(value), base)| <= buf.Length
    modifies buf
    ensures p == at + |Numeral(Magnitude(value), base)|
    ensures Reversed(buf[at..p]) == Numeral(Magnitude(value), base)
    ensures forall k :: 0 <= k < at || p <= k < buf.Length ==> buf[k] == old(buf[k])
  {
    ghost var numeral := Numeral(Magnitude(value), base);
    ghost var done := "";
    var i := value;
    p := at;
    var more := true;  // do ... while (i != 0)
    while more
      invariant at <= p <= buf.Length && p - at == |done| && buf[at..p] == done
      invariant base == 16 ==> i >= 0
      invariant numeral == Left(i, more, base) + Reversed(done)
      invariant forall k :: 0 <= k < at || p <= k < buf.Length ==> buf[k] == old(buf[k])
      decreases more, Magnitude(i)
    {
      LoopStep(i, base, done, numeral);
      var lsd := Rem(i, base);
      i := Quot(i, base);
      buf[p] := DigitChar(lsd, base);
      done := done + [buf[p]];
      p := p + 1;
      more := i != 0;
    }
  }

  /** `std::reverse` on `buf[lo..hi]`. */
  method Reverse(buf: array<char>, lo: nat, hi: nat)
    requires lo <= hi <= buf.Length
    modifies buf
    ensures buf[lo..hi] == Reversed(old(buf[lo..hi]))
    ensures forall k :: 0 <= k < lo || hi <= k < buf.Length ==> buf[k] == old(buf[k])
  {
    var i, j := lo, hi;
    while i < j
      invariant lo <= i <= hi && lo <= j <= hi && i - lo == hi - j
      invariant forall k :: 0 <= k < lo || i <= k < j || hi <= k < buf.Length ==> buf[k] == old(buf[k])
      invariant forall k :: lo <= k < i || j <= k < hi ==> buf[k] == old(buf[lo + hi - 1 - k])
    {
      j := j - 1;
      buf[i], buf[j] := buf[j], buf[i];
      i := i + 1;
    }
    ghost var was, now := old(buf[lo..hi]), buf[lo..hi];
    forall k | 0 <= k < hi - lo
      ensures now[k] == was[hi - lo - 1 - k]
    {
      assert now[k] == buf[lo + k];
    }
    assert now == Reversed(was);
  }

  lemma SignInFront(digits: string, value: int)
    requires Reversed(digits) == Numeral(Magnitude(value), 10)
    ensures if value < 0 then Reversed(digits + ['-']) == Decimal(value) && |digits| + 1 == |Decimal(value)|
            else Reversed(digits) == Decimal(value) && |digits| == |Decimal(value)|
  {
    ReversedSnoc(digits, '-');
  }

  /** The digits, and the minus sign behind them. */
  method PutSigned(buf: array<char>, at: nat, value: int) returns (p: nat)
    requires at + |Decimal(value)| <= buf.Length
    modifies buf
    ensures at <= p <= buf.Length && Reversed(buf[at..p]) == Decimal(value) && p == at + |Decimal(value)|
    ensures forall k :: 0 <= k < at || p <= k < buf.Length ==> buf[k] == old(buf[k])
  {
    p := PutDigits(buf, at, value, 10);
    ghost var digits := buf[at..p];
    SignInFront(digits, value);
    if value < 0 {
      buf[p] := '-';
      p := p + 1;
      assert buf[at..p] == digits + ['-'];
    }
  }

  /** The terminating NUL and the reversal. */
  method Finish(buf: array<char>, at: nat, p: nat, ghost text: string) returns (len: nat)
    requires at <= p < buf.Length && Reversed(buf[at..p]) == text
    modifies buf
    ensures len == |text| == p - at && buf[at..p] == text && buf[p] == '\0'
    ensures forall k :: 0 <= k < at || p < k < buf.Length ==> buf[k] == old(buf[k])
  {
    ghost var written := buf[at..p];
    buf[p] := '\0';
    assert buf[at..p] == written;
    Reverse(buf, at, p);
    len := p - at;
  }

  /** `convert`: the canonical decimal text of `value` and a terminating NUL, from position `at` on. */
  method Convert(buf: array<char>, at: nat, value: int) returns (len: nat)
    requires at + |Decimal(value)| < buf.Length
    modifies buf
    ensures len == |Decimal(value)| && buf[at..at + len] == Decimal(value) && buf[at + len] == '\0'
    ensures forall k :: 0 <= k < at || at + len < k < buf.Length ==> buf[k] == old(buf[k])
  {
    var p := PutSigned(buf, at, value);
    len := Finish(buf, at, p, Decimal(value));
  }

  /** `convertHex`: likewise in base 16, for an unsigned value. */
  method ConvertHex(buf: array<char>, at: nat, value: nat) returns (len: nat)
    requires at + |Hex(value)| < buf.Length
    modifies buf
    ensures len == |Hex(value)| && buf[at..at + len] == Hex(value) && buf[at + len] == '\0'
    ensures forall k :: 0 <= k < at || at + len < k < buf.Length ==> buf[k] == old(buf[k])
  {
    var p := PutDigits(buf, at, value, 16);
    len := Finish(buf, at, p, Hex(value));
  }
}
