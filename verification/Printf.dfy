/** The formatted printing engine of modules/m3/lib.c: what a format and its arguments print. */
module Printf {
  import opened Basics

  // ---------- numbers and their digits ----------

  const UPPER := "0123456789ABCDEF"
  const LOWER := "0123456789abcdef"

  function DigitChar(d: nat, lower: bool): char
    requires d < 16
  {
    if lower then LOWER[d] else UPPER[d]
  }

  /** The digits of `val`, most significant first; 0 has one digit. */
  function Digits(val: nat, base: nat, lower: bool): string
    requires 2 <= base <= 16
  {
    if val < base then [DigitChar(val, lower)]
    else Digits(val / base, base, lower) + [DigitChar(val % base, lower)]
  }

  function DigitValue(c: char): int {
    if '0' <= c <= '9' then c as int - '0' as int
    else if 'a' <= c <= 'f' then c as int - 'a' as int + 10
    else if 'A' <= c <= 'F' then c as int - 'A' as int + 10
    else -1
  }

  predicate IsDigit(c: char, base: nat) {
    0 <= DigitValue(c) < base
  }

  /** The number a digit string denotes. */
  function Value(s: string, base: nat): int {
    if s == [] then 0 else Value(s[..|s| - 1], base) * base + DigitValue(s[|s| - 1])
  }

  lemma DigitCharValue(d: nat, lower: bool)
    requires d < 16
    ensures DigitValue(DigitChar(d, lower)) == d
  {
  }

  lemma QuotRem(val: nat, base: nat)
    requires base >= 2
    ensures val == val / base * base + val % base && 0 <= val % base < base
    ensures val >= base ==> 1 <= val / base < val
    ensures val < base ==> val / base == 0 && val % base == val
  {
    var q := val / base;
    assert val == q * base + val % base;
    if val >= base {
      MulMono(2, base, q);
    }
  }

  lemma ValueSnoc(s: string, c: char, base: nat)
    ensures Value(s + [c], base) == Value(s, base) * base + DigitValue(c)
  {
    assert (s + [c])[..|s|] == s;
  }

  predicate AllDigits(s: string, base: nat) {
    forall k :: 0 <= k < |s| ==> IsDigit(s[k], base)
  }

  /** One more digit on the right, without division. */
  lemma SnocDenotes(d: string, c: char, q: int, r: int, base: nat, val: int)
    requires Value(d, base) == q && AllDigits(d, base) && DigitValue(c) == r && 0 <= r < base && val == q * base + r
    ensures Value(d + [c], base) == val && AllDigits(d + [c], base)
  {
    ValueSnoc(d, c, base);
  }

  lemma {:induction false} DigitsDenote(val: nat, base: nat, lower: bool)
    requires 2 <= base <= 16
    ensures Value(Digits(val, base, lower), base) == val
    ensures AllDigits(Digits(val, base, lower), base) && Digits(val, base, lower) != []
    decreases val
  {
    if val < base {
      DigitCharValue(val, lower);
      SnocDenotes([], DigitChar(val, lower), 0, val, base, val);
      assert [] + [DigitChar(val, lower)] == Digits(val, base, lower);
    } else {
      QuotRem(val, base);
      var q, r := val / base, val % base;
      DigitsDenote(q, base, lower);
      DigitCharValue(r, lower);
      SnocDenotes(Digits(q, base, lower), DigitChar(r, lower), q, r, base, val);
    }
  }

  function Pow(base: nat, k: nat): nat {
    if k == 0 then 1 else base * Pow(base, k - 1)
  }

  lemma {:induction false} PowSplit(base: nat, m: nat, n: nat)
    ensures Pow(base, m + n) == Pow(base, m) * Pow(base, n)
  {
    if m > 0 {
      PowSplit(base, m - 1, n);
      assert base * (Pow(base, m - 1) * Pow(base, n)) == base * Pow(base, m - 1) * Pow(base, n);
    }
  }

  lemma QuotientBelow(val: nat, base: nat, q: nat, r: nat, p: nat)
    requires val == q * base + r && val < base * p
    ensures q < p
  {
    if q >= p {
      MulMono(p, q, base);
    }
  }

  lemma {:induction false} DigitsFit(val: nat, base: nat, lower: bool, k: nat)
    requires 2 <= base <= 16 && val < Pow(base, k) && k >= 1
    ensures |Digits(val, base, lower)| <= k
  {
    if val >= base {
      QuotRem(val, base);
      var q := val / base;
      QuotientBelow(val, base, q, val % base, Pow(base, k - 1));
      DigitsFit(q, base, lower, k - 1);
    }
  }

  /** Every 64-bit value fits in the number buffer, in decimal and in hexadecimal. */
  lemma WordFits(val: nat, base: nat, lower: bool)
    requires val < 0x1_0000_0000_0000_0000 && (base == 10 || base == 16)
    ensures |Digits(val, base, lower)| <= 20
  {
    var k := if base == 10 then 5 else 4;
    PowSplit(base, k, k);
    PowSplit(base, 2 * k, 2 * k);
    if base == 10 {
      assert Pow(10, 2) == 100 && Pow(10, 3) == 1000;
      assert Pow(10, 5) == 100_000;
    } else {
      assert Pow(16, 2) == 256;
      assert Pow(16, 4) == 65536;
    }
    DigitsFit(val, base, lower, 4 * k);
  }

  const NUMBUFSIZ := 24

  /** What is left to print when `val` is left over: nothing once it is 0. */
  function Rest(val: nat, base: nat, lower: bool): string
    requires 2 <= base <= 16
  {
    if val == 0 then [] else Digits(val, base, lower)
  }

  lemma RestStep(val: nat, base: nat, lower: bool)
    requires 2 <= base <= 16
    ensures 0 <= val % base < 16 && 0 <= val / base <= val && (val > 0 ==> val / base < val)
    ensures Digits(val, base, lower) == Rest(val / base, base, lower) + [DigitChar(val % base, lower)]
  {
    QuotRem(val, base);
  }

  /** `fill_numbuf`: write a NUL and the digits from the end of the buffer downward; the result is the
      place of the first digit. It stays inside the 24 bytes for every 64-bit value. */
  method FillNumbuf(numbuf: array<char>, num: nat, base0: int) returns (start: nat)
    requires numbuf.Length == NUMBUFSIZ && num < 0x1_0000_0000_0000_0000 && base0 in {10, 16, -16}
    modifies numbuf
    ensures start < NUMBUFSIZ - 1 && numbuf[NUMBUFSIZ - 1] == '\0'
    ensures numbuf[start..NUMBUFSIZ - 1] == Digits(num, if base0 < 0 then -base0 else base0, base0 < 0)
  {
    var lower, base := false, base0;
    if base < 0 {
      lower, base := true, -base;
    }
    ghost var all := Digits(num, base, lower);
    WordFits(num, base, lower);
    start := NUMBUFSIZ - 1;
    numbuf[start] := '\0';
    var val;
    start, val := PutDigit(numbuf, start, num, base, lower, all);
    while val != 0
      invariant 0 <= start < NUMBUFSIZ - 1 && numbuf[NUMBUFSIZ - 1] == '\0' && 0 <= val
      invariant all == Rest(val, base, lower) + numbuf[start..NUMBUFSIZ - 1]
      decreases val
    {
      start, val := PutDigit(numbuf, start, val, base, lower, all);
    }
  }

  method Prepend(numbuf: array<char>, end: nat, c: char) returns (start: nat)
    requires 0 < end < numbuf.Length
    modifies numbuf
    ensures start == end - 1 && numbuf[numbuf.Length - 1] == old(numbuf[numbuf.Length - 1])
    ensures numbuf[start..numbuf.Length - 1] == [c] + old(numbuf[end..numbuf.Length - 1])
  {
    start := end - 1;
    numbuf[start] := c;
  }

  /** `*--numbuf_end = digits[val % base]; val /= base`. */
  method PutDigit(numbuf: array<char>, end: nat, val: nat, base: nat, lower: bool, ghost all: string) returns (start: nat, rest: nat)
    requires numbuf.Length == NUMBUFSIZ && end < NUMBUFSIZ && 2 <= base <= 16 && numbuf[NUMBUFSIZ - 1] == '\0'
    requires all == Digits(val, base, lower) + numbuf[end..NUMBUFSIZ - 1] && |all| <= 20
    modifies numbuf
    ensures start == end - 1 && numbuf[NUMBUFSIZ - 1] == '\0'
    ensures all == Rest(rest, base, lower) + numbuf[start..NUMBUFSIZ - 1] && (val > 0 ==> rest < val)
    ensures val == 0 ==> rest == 0
  {
    RestStep(val, base, lower);
    start := Prepend(numbuf, end, DigitChar(val % base, lower));
    rest := val / base;
  }

  // ---------- one conversion ----------

  /** One variadic argument: its 64-bit word, and the C string it points to if it is used as one. */
  datatype Arg = Arg(word: nat, text: string)

  const TWO32 := 0x1_0000_0000

  /** `va_arg(val, int)`, `long`, `unsigned` and `unsigned long`. */
  function AsInt(a: Arg): int {
    var x := a.word % TWO32;
    if x < TWO32 / 2 then x else x - TWO32
  }

  function AsLong(a: Arg): int {
    var x := a.word % TWO64;
    if x < TWO64 / 2 then x else x - TWO64
  }

  function AsUnsigned(a: Arg, long: bool): nat {
    if long then a.word % TWO64 else a.word % TWO32
  }

  datatype Flags = Flags(alt: bool, zero: bool, left: bool, space: bool, plus: bool)

  const NO_FLAGS := Flags(false, false, false, false, false)

  function Repeat(c: char, n: int): (s: string)
    ensures |s| == (if n > 0 then n else 0) && forall k :: 0 <= k < |s| ==> s[k] == c
  {
    if n <= 0 then [] else Repeat(c, n - 1) + [c]
  }

  /** The five loops at the end of a conversion: blanks, prefix, zeros, data, blanks. */
  function Field(left: bool, width: int, prefix: string, zeros: int, data: string): string {
    var blanks := Repeat(' ', width - (|data| + zeros + |prefix|));
    if left then prefix + Repeat('0', zeros) + data + blanks
    else blanks + prefix + Repeat('0', zeros) + data
  }

  /** A numeric conversion, as the switch of `printer_vprintf` sets it up. */
  datatype Number = Number(num: nat, base: int, signed: bool, negative: bool, pointer: bool)

  predicate GoodNumber(n: Number) {
    n.num < TWO64 && n.base in {10, 16, -16} && (n.negative ==> n.signed) && (n.signed ==> n.base == 10)
  }

  function Radix(n: Number): nat
    requires GoodNumber(n)
  {
    if n.base == 10 then 10 else 16
  }

  function NumberDigits(n: Number): string
    requires GoodNumber(n)
  {
    Digits(n.num, Radix(n), n.base < 0)
  }

  function NumberPrefix(fl: Flags, n: Number): string {
    if n.signed then
      if n.negative then "-" else if fl.plus then "+" else if fl.space then " " else ""
    else if (fl.alt || n.pointer) && n.base != 10 && (n.num != 0 || n.pointer) then
      if n.base == -16 then "0x" else "0X"
    else ""
  }

  function NumberZeros(fl: Flags, width: int, precision: int, len: nat, prefix: nat): (zeros: int)
    ensures zeros >= 0
  {
    if precision >= 0 then if precision > len then precision - len else 0
    else if fl.zero && !fl.left && len + prefix < width then width - len - prefix
    else 0
  }

  function NumberField(fl: Flags, width: int, precision: int, n: Number): string
    requires GoodNumber(n)
  {
    var digits, prefix := NumberDigits(n), NumberPrefix(fl, n);
    Field(fl.left, width, prefix, NumberZeros(fl, width, precision, |digits|, |prefix|), digits)
  }

  /** `%s`, `%c` and anything unknown: a precision cuts the data off. */
  function TextField(fl: Flags, width: int, precision: int, data: string): string {
    Field(fl.left, width, "", 0, if 0 <= precision < |data| then data[..precision] else data)
  }

  lemma FieldLength(left: bool, width: int, prefix: string, zeros: int, data: string)
    requires zeros >= 0
    ensures var min := |prefix| + zeros + |data|; |Field(left, width, prefix, zeros, data)| == if width > min then width else min
  {
  }

  // ---------- reading a number back ----------

  function DropBlanks(s: string): string {
    if s != [] && s[0] == ' ' then DropBlanks(s[1..]) else s
  }

  /** The longest prefix of digits. */
  function TakeDigits(s: string, base: nat): string {
    if s != [] && IsDigit(s[0], base) then [s[0]] + TakeDigits(s[1..], base) else []
  }

  predicate HasHexPrefix(s: string) {
    |s| >= 2 && s[0] == '0' && (s[1] == 'x' || s[1] == 'X')
  }

  /** An independent reader in the manner of `strtol`: blanks, a sign, 0x, digits. */
  function ReadNumber(s: string, base: nat): int {
    var t := DropBlanks(s);
    var negative := t != [] && t[0] == '-';
    var u := if t != [] && (t[0] == '-' || t[0] == '+') then t[1..] else t;
    var x := Value(TakeDigits(SkipHex(u, base), base), base);
    if negative then -x else x
  }

  lemma {:induction false} DropRepeat(n: int, s: string)
    ensures DropBlanks(Repeat(' ', n) + s) == DropBlanks(s)
    decreases n
  {
    var b := Repeat(' ', n);
    if n > 0 {
      assert b == [' '] + Repeat(' ', n - 1);
      assert (b + s)[1..] == Repeat(' ', n - 1) + s;
      DropRepeat(n - 1, s);
    } else {
      assert b + s == s;
    }
  }

  lemma {:induction false} TakeAll(d: string, s: string, base: nat)
    requires AllDigits(d, base) && (s == [] || !IsDigit(s[0], base))
    ensures TakeDigits(d + s, base) == d
  {
    if d != [] {
      assert (d + s)[1..] == d[1..] + s;
      TakeAll(d[1..], s, base);
    } else {
      assert d + s == s;
    }
  }

  lemma {:induction false} LeadingZeros(n: int, d: string, base: nat)
    ensures Value(Repeat('0', n) + d, base) == Value(d, base)
    decreases |d|, n
  {
    var z := Repeat('0', n);
    if d != [] {
      var e := d[..|d| - 1];
      assert (z + d)[..|z + d| - 1] == z + e;
      LeadingZeros(n, e, base);
    } else if n > 0 {
      assert z + d == Repeat('0', n - 1) + ['0'];
      ValueSnoc(Repeat('0', n - 1), '0', base);
      LeadingZeros(n - 1, d, base);
      assert Repeat('0', n - 1) + d == Repeat('0', n - 1);
    } else {
      assert z + d == d;
    }
  }

  function SkipHex(u: string, base: nat): string {
    if base == 16 && HasHexPrefix(u) then u[2..] else u
  }

  /** A hexadecimal prefix is recognised exactly when it was printed. */
  lemma HexSkipped(hex: string, d: string, rest: string, base: nat)
    requires AllDigits(d, base) && (rest == [] || rest[0] == ' ')
    requires hex == "" || (base == 16 && (hex == "0x" || hex == "0X"))
    ensures SkipHex(hex + (d + rest), base) == d + rest
  {
    var w := d + rest;
    if hex == "" {
      assert hex + w == w;
      if base == 16 && |w| >= 2 {
        assert |d| >= 2 ==> w[1] == d[1] && IsDigit(d[1], base);
        assert |d| == 1 ==> w[1] == ' ';
      }
    } else {
      assert (hex + w)[2..] == w;
    }
  }

  /** The part of a numeric field after the sign reads as its magnitude. */
  lemma MagnitudeReads(hex: string, zeros: int, n: Number, rest: string)
    requires GoodNumber(n) && (hex == "" || (Radix(n) == 16 && (hex == "0x" || hex == "0X")))
    requires rest == [] || rest[0] == ' '
    ensures var u := hex + (Repeat('0', zeros) + NumberDigits(n) + rest);
            Value(TakeDigits(SkipHex(u, Radix(n)), Radix(n)), Radix(n)) == n.num
  {
    var d := Repeat('0', zeros) + NumberDigits(n);
    DigitsDenote(n.num, Radix(n), n.base < 0);
    HexSkipped(hex, d, rest, Radix(n));
    TakeAll(d, rest, Radix(n));
    LeadingZeros(zeros, NumberDigits(n), Radix(n));
  }

  /** The number a conversion is given. */
  function Denoted(n: Number): int {
    if n.negative then 0 - n.num else n.num
  }

  /** The reader, once blanks and sign are gone. */
  function ReadMagnitude(u: string, base: nat): int {
    Value(TakeDigits(SkipHex(u, base), base), base)
  }

  lemma SignReads(sign: string, w: string, base: nat)
    requires sign == "-" || sign == "+"
    ensures ReadNumber(sign + w, base) == if sign == "-" then -ReadMagnitude(w, base) else ReadMagnitude(w, base)
  {
    assert DropBlanks(sign + w) == sign + w;
    assert (sign + w)[1..] == w;
  }

  lemma PlainReads(w: string, base: nat)
    requires w != [] && w[0] != ' ' && w[0] != '-' && w[0] != '+'
    ensures ReadNumber(w, base) == ReadMagnitude(w, base)
    ensures ReadNumber(" " + w, base) == ReadMagnitude(w, base)
  {
    assert (" " + w)[1..] == w;
    assert DropBlanks(" " + w) == DropBlanks(w) == w;
  }

  /** Sign and magnitude, after the blanks are gone. */
  lemma BodyReads(fl: Flags, zeros: int, n: Number, rest: string)
    requires GoodNumber(n) && (rest == [] || rest[0] == ' ')
    ensures ReadNumber(NumberPrefix(fl, n) + (Repeat('0', zeros) + NumberDigits(n) + rest), Radix(n)) == Denoted(n)
  {
    var prefix := NumberPrefix(fl, n);
    var d := Repeat('0', zeros) + NumberDigits(n);
    var w := d + rest;
    DigitsDenote(n.num, Radix(n), n.base < 0);
    assert IsDigit(d[0], Radix(n)) && w[0] == d[0];
    MagnitudeReads("", zeros, n, rest);
    assert "" + w == w;
    if prefix == "-" || prefix == "+" {
      SignReads(prefix, w, Radix(n));
    } else if prefix == " " || prefix == "" {
      PlainReads(w, Radix(n));
    } else {
      MagnitudeReads(prefix, zeros, n, rest);
      PlainReads(prefix + w, Radix(n));
    }
  }

  lemma ReadAfterBlanks(n: int, s: string, base: nat)
    ensures ReadNumber(Repeat(' ', n) + s, base) == ReadNumber(s, base)
  {
    DropRepeat(n, s);
  }

  /** Printed numbers read back: whatever the flags, width and precision, the text of a numeric conversion
      is `max(width, prefix + zeros + digits)` characters long and denotes the number converted. */
  lemma NumberReadsBack(fl: Flags, width: int, precision: int, n: Number)
    requires GoodNumber(n)
    ensures ReadNumber(NumberField(fl, width, precision, n), Radix(n)) == Denoted(n)
    ensures var digits, prefix := |NumberDigits(n)|, |NumberPrefix(fl, n)|;
            var min := prefix + NumberZeros(fl, width, precision, digits, prefix) + digits;
            |NumberField(fl, width, precision, n)| == if width > min then width else min
  {
    var digits, prefix := NumberDigits(n), NumberPrefix(fl, n);
    var zeros := NumberZeros(fl, width, precision, |digits|, |prefix|);
    var blanks := width - (|digits| + zeros + |prefix|);
    FieldLength(fl.left, width, prefix, zeros, digits);
    var z := Repeat('0', zeros);
    var pad := Repeat(' ', blanks);
    Regroup(prefix, z, digits, pad);
    BodyReads(fl, zeros, n, pad);
    BodyReads(fl, zeros, n, []);
    ReadAfterBlanks(blanks, prefix + (z + digits + []), Radix(n));
  }

  lemma Regroup(a: string, b: string, c: string, d: string)
    ensures a + b + c + d == a + (b + c + d)
    ensures d + a + b + c == d + (a + (b + c + []))
  {
  }
}
