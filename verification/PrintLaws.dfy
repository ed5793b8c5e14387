/** What the format engine of modules/m3/lib.c prints, described from the outside: how a field is made up,
    how a directive is read, and what each conversion shows. */
module PrintLaws {
  import opened Basics
  import opened Printf
  import opened Printer

  predicate All(s: string, c: char) {
    forall k :: 0 <= k < |s| ==> s[k] == c
  }

  function Max(a: int, b: int): int {
    if a > b then a else b
  }

  // ---------- digits ----------

  /** No leading zero: 0 is "0", and no other number starts with '0'. */
  lemma {:induction false} DigitsMinimal(val: nat, base: nat, lower: bool)
    requires 2 <= base <= 16
    ensures Digits(val, base, lower) != []
    ensures Digits(val, base, lower)[0] == '0' <==> val == 0
    ensures val == 0 ==> Digits(val, base, lower) == "0"
    decreases val
  {
    if val < base {
      DigitCharValue(val, lower);
    } else {
      QuotRem(val, base);
      DigitsMinimal(val / base, base, lower);
    }
  }

  predicate IsUpper(c: char) {
    'A' <= c <= 'F'
  }

  predicate IsLower(c: char) {
    'a' <= c <= 'f'
  }

  predicate OneCase(s: string, lower: bool) {
    forall k :: 0 <= k < |s| ==> if lower then !IsUpper(s[k]) else !IsLower(s[k])
  }

  lemma DigitCharCase(d: nat, lower: bool)
    requires d < 16
    ensures if lower then !IsUpper(DigitChar(d, lower)) else !IsLower(DigitChar(d, lower))
  {
  }

  lemma {:induction false} DigitsCase(val: nat, base: nat, lower: bool)
    requires 2 <= base <= 16
    ensures OneCase(Digits(val, base, lower), lower)
    decreases val
  {
    if val < base {
      DigitCharCase(val, lower);
    } else {
      QuotRem(val, base);
      DigitsCase(val / base, base, lower);
      DigitCharCase(val % base, lower);
    }
  }

  /** The digits denote `num` in its base, in the right case, with no leading zero. */
  predicate Denotes(digits: string, num: nat, base: int) {
    var radix := if base == 10 then 10 else 16;
    && AllDigits(digits, radix) && Value(digits, radix) == num && digits != []
    && (digits[0] == '0' ==> |digits| == 1)
    && (base == -16 ==> OneCase(digits, true)) && (base == 16 ==> OneCase(digits, false))
  }

  lemma DigitsAreDenoted(val: nat, base: int)
    requires base == 10 || base == 16 || base == -16
    ensures Denotes(Digits(val, if base == 10 then 10 else 16, base < 0), val, base)
  {
    var radix := if base == 10 then 10 else 16;
    DigitsDenote(val, radix, base < 0);
    DigitsMinimal(val, radix, base < 0);
    DigitsCase(val, radix, base < 0);
  }

  /** A digit is known by its value and its case. */
  lemma SameDigit(c: char, d: char, base: int)
    requires var radix := if base == 10 then 10 else 16; IsDigit(c, radix) && IsDigit(d, radix) && DigitValue(c) == DigitValue(d)
    requires base == 10 || (base == -16 && !IsUpper(c) && !IsUpper(d)) || (base == 16 && !IsLower(c) && !IsLower(d))
    ensures c == d
  {
  }

  lemma LastDigit(s: string, num: nat, base: int) returns (q: nat, r: nat)
    requires Denotes(s, num, base)
    ensures var radix := if base == 10 then 10 else 16;
            q == num / radix && r == num % radix && DigitValue(s[|s| - 1]) == r && Value(s[..|s| - 1], radix) == q
    ensures |s| > 1 ==> Denotes(s[..|s| - 1], q, base) && q > 0
    ensures |s| == 1 ==> q == 0
  {
    var radix := if base == 10 then 10 else 16;
    var init, last := s[..|s| - 1], s[|s| - 1];
    assert IsDigit(last, radix);
    assert forall k :: 0 <= k < |init| ==> init[k] == s[k];
    ValueNonNegative(init, radix);
    var v := Value(init, radix);
    assert num == v * radix + DigitValue(last);
    DivideBack(v, DigitValue(last), radix);
    q, r := v, DigitValue(last);
    if |s| > 1 {
      assert init[0] == s[0] != '0';
      LeadingIsPositive(init, radix);
    }
  }

  lemma DivideBack(q: nat, r: nat, radix: nat)
    requires (radix == 10 || radix == 16) && r < radix
    ensures (q * radix + r) / radix == q && (q * radix + r) % radix == r
  {
  }

  lemma {:induction false} ValueNonNegative(s: string, base: nat)
    requires AllDigits(s, base)
    ensures Value(s, base) >= 0
  {
    if s != [] {
      var init := s[..|s| - 1];
      assert forall k :: 0 <= k < |init| ==> init[k] == s[k];
      ValueNonNegative(init, base);
      assert IsDigit(s[|s| - 1], base);
      OneMoreDigit(Value(init, base), base, DigitValue(s[|s| - 1]));
    }
  }

  lemma OneMoreDigit(v: nat, base: nat, d: nat)
    ensures v * base + d >= 0
  {
    MulMono(0, v, base);
  }

  lemma {:induction false} LeadingIsPositive(s: string, base: nat)
    requires AllDigits(s, base) && s != [] && s[0] != '0' && base > 0
    ensures Value(s, base) > 0
  {
    var init := s[..|s| - 1];
    assert forall k :: 0 <= k < |init| ==> init[k] == s[k];
    assert IsDigit(s[0], base) && IsDigit(s[|s| - 1], base);
    if |s| > 1 {
      LeadingIsPositive(init, base);
      MulMono(1, Value(init, base), base);
    } else {
      assert Value(init, base) == 0;
    }
  }

  /** `Denotes` leaves no choice: a number has one digit string in its base and case. */
  lemma {:induction false} DenotationIsUnique(s: string, t: string, num: nat, base: int)
    requires (base == 10 || base == 16 || base == -16) && Denotes(s, num, base) && Denotes(t, num, base)
    ensures s == t
    decreases |s|
  {
    var q, r := LastDigit(s, num, base);
    var q', r' := LastDigit(t, num, base);
    var a, b := s[|s| - 1], t[|t| - 1];
    assert IsDigit(a, if base == 10 then 10 else 16) && IsDigit(b, if base == 10 then 10 else 16);
    SameDigit(a, b, base);
    assert s == s[..|s| - 1] + [a] && t == t[..|t| - 1] + [b];
    if |s| > 1 {
      DenotationIsUnique(s[..|s| - 1], t[..|t| - 1], q, base);
    }
  }

  // ---------- fields ----------

  /** What a numeric field is made of: blanks, prefix, zeros, digits, blanks. */
  datatype Parts = Parts(left: string, prefix: string, zeros: string, digits: string, right: string) {
    function Text(): string {
      left + prefix + zeros + digits + right
    }
  }

  /** The sign of a signed number; 0x or 0X before a pointer, or on request before a number other than 0. */
  predicate RightPrefix(prefix: string, fl: Flags, n: Number) {
    && (n.signed && n.negative ==> prefix == "-")
    && (n.signed && !n.negative && fl.plus ==> prefix == "+")
    && (n.signed && !n.negative && !fl.plus && fl.space ==> prefix == " ")
    && (n.signed && !n.negative && !fl.plus && !fl.space ==> prefix == "")
    && (!n.signed && n.base == -16 && (n.pointer || (fl.alt && n.num != 0)) ==> prefix == "0x")
    && (!n.signed && n.base == 16 && (n.pointer || (fl.alt && n.num != 0)) ==> prefix == "0X")
    && (!n.signed && (n.base == 10 || (!n.pointer && (!fl.alt || n.num == 0))) ==> prefix == "")
  }

  lemma FieldParts(left: bool, width: int, prefix: string, zeros: nat, data: string) returns (before: string, mid: string, after: string)
    ensures Field(left, width, prefix, zeros, data) == before + prefix + mid + data + after
    ensures All(before, ' ') && All(mid, '0') && All(after, ' ') && |mid| == zeros
    ensures (left ==> before == "") && (!left ==> after == "")
    ensures |before| + |after| == Max(0, width - |prefix| - zeros - |data|)
  {
    var blanks := Repeat(' ', width - (|data| + zeros + |prefix|));
    before, mid, after := if left then "" else blanks, Repeat('0', zeros), if left then blanks else "";
    assert "" + prefix == prefix;
    assert !left ==> before + prefix + mid + data + "" == before + prefix + mid + data;
  }

  /** The shape of every numeric field. A precision makes exactly that many digits, if the number has fewer;
      without one, the zero flag fills the whole width with zeros after the prefix, unless `-` is given; `-`
      puts the blanks on the right, and otherwise they are on the left; and there are just as many as the
      width needs. */
  lemma NumberFieldShape(fl: Flags, width: int, precision: int, n: Number) returns (p: Parts)
    requires GoodNumber(n)
    ensures NumberField(fl, width, precision, n) == p.Text()
    ensures All(p.left, ' ') && All(p.right, ' ') && All(p.zeros, '0')
    ensures Denotes(p.digits, n.num, n.base) && RightPrefix(p.prefix, fl, n)
    ensures precision >= 0 ==> |p.zeros| + |p.digits| == Max(precision, |p.digits|)
    ensures precision < 0 && fl.zero && !fl.left ==>
              p.left == "" && p.right == "" && |p.zeros| == Max(0, width - |p.prefix| - |p.digits|)
    ensures precision < 0 && (!fl.zero || fl.left) ==> p.zeros == ""
    ensures fl.left ==> p.left == ""
    ensures !fl.left ==> p.right == ""
    ensures |p.Text()| == Max(width, |p.prefix| + |p.zeros| + |p.digits|)
  {
    var digits, prefix := NumberDigits(n), NumberPrefix(fl, n);
    var zeros := NumberZeros(fl, width, precision, |digits|, |prefix|);
    var before, mid, after := FieldParts(fl.left, width, prefix, zeros, digits);
    p := Parts(before, prefix, mid, digits, after);
    DigitsAreDenoted(n.num, n.base);
  }

  /** The shape of every other field: as much of the text as the precision allows, and blanks on one side. */
  lemma TextFieldShape(fl: Flags, width: int, precision: int, data: string) returns (left: string, shown: string, right: string)
    ensures TextField(fl, width, precision, data) == left + shown + right
    ensures All(left, ' ') && All(right, ' ') && shown <= data
    ensures |shown| == if precision < 0 || precision > |data| then |data| else precision
    ensures fl.left ==> left == ""
    ensures !fl.left ==> right == ""
    ensures |left + shown + right| == Max(width, |shown|)
  {
    shown := if 0 <= precision < |data| then data[..precision] else data;
    var mid;
    left, mid, right := FieldParts(fl.left, width, "", 0, shown);
    assert left + "" + mid + shown + right == left + shown + right;
  }

  // ---------- arguments ----------

  /** `va_arg` reads the low 32 or 64 bits, in two's complement where the type is signed. */
  lemma ArgumentsAreTruncated(a: Arg, long: bool)
    ensures -0x8000_0000 <= AsInt(a) < 0x8000_0000 && (AsInt(a) - a.word) % 0x1_0000_0000 == 0
    ensures -0x8000_0000_0000_0000 <= AsLong(a) < 0x8000_0000_0000_0000 && (AsLong(a) - a.word) % 0x1_0000_0000_0000_0000 == 0
    ensures 0 <= AsUnsigned(a, true) < 0x1_0000_0000_0000_0000 && (AsUnsigned(a, true) - a.word) % 0x1_0000_0000_0000_0000 == 0
    ensures 0 <= AsUnsigned(a, false) < 0x1_0000_0000 && (AsUnsigned(a, false) - a.word) % 0x1_0000_0000 == 0
  {
    Truncated(a.word, 0x1_0000_0000);
    Truncated(a.word, 0x1_0000_0000_0000_0000);
  }

  lemma Truncated(w: nat, m: int)
    requires m == 0x1_0000_0000 || m == 0x1_0000_0000_0000_0000
    ensures (w % m - w) % m == 0 && (w % m - m - w) % m == 0
  {
    var q := w / m;
    assert w % m - w == m * (-q);
    assert w % m - m - w == m * (-q - 1);
    Multiple(-q, m);
    Multiple(-q - 1, m);
  }

  lemma Multiple(q: int, m: int)
    requires m == 0x1_0000_0000 || m == 0x1_0000_0000_0000_0000
    ensures (m * q) % m == 0
  {
  }

  /** What a numeric conversion character makes of its argument. */
  lemma NumberForIs(c: char, long: bool, arg: Arg)
    requires IsNumeric(c)
    ensures var n := NumberFor(c, long, arg);
            && (n.signed <==> c == 'd' || c == 'i') && (n.pointer <==> c == 'p')
            && (c == 'd' || c == 'i' || c == 'u' ==> n.base == 10)
            && (c == 'x' || c == 'p' ==> n.base == -16) && (c == 'X' ==> n.base == 16)
            && (n.signed ==> (if n.negative then -(n.num as int) else n.num) == if long then AsLong(arg) else AsInt(arg))
            && (n.negative ==> n.num > 0)
            && (n.pointer ==> n.num == AsUnsigned(arg, true))
            && (!n.signed && !n.pointer ==> n.num == AsUnsigned(arg, long))
  {
  }

  // ---------- reading a directive ----------

  /** The flags `fl` with those of the characters in `s` added. */
  predicate FlagsFrom(fl: Flags, s: string, r: Flags) {
    && (r.alt <==> fl.alt || '#' in s) && (r.zero <==> fl.zero || '0' in s) && (r.left <==> fl.left || '-' in s)
    && (r.space <==> fl.space || ' ' in s) && (r.plus <==> fl.plus || '+' in s)
  }

  predicate IsFlagText(s: string) {
    forall k :: 0 <= k < |s| ==> s[k] == '#' || s[k] == '0' || s[k] == '-' || s[k] == ' ' || s[k] == '+'
  }

  predicate IsNumberText(s: string) {
    s != [] && forall k :: 0 <= k < |s| ==> '0' <= s[k] <= '9'
  }

  /** No width, a number that does not start with 0, or `*`. */
  predicate IsWidthText(s: string) {
    s == "" || s == "*" || (IsNumberText(s) && s[0] != '0')
  }

  /** No precision, or a dot with nothing, a number or `*` after it. */
  predicate IsPrecisionText(s: string) {
    s == "" || (s[0] == '.' && (s == "." || s == ".*" || IsNumberText(s[1..])))
  }

  predicate IsLengthText(s: string) {
    forall k :: 0 <= k < |s| ==> s[k] == 'l' || s[k] == 'z'
  }

  /** The conversion character is none of the characters that can stand before it. */
  predicate IsConversion(c: char) {
    c != '#' && c != '-' && c != ' ' && c != '+' && c != '.' && c != '*' && c != 'l' && c != 'z' && !('0' <= c <= '9')
  }

  lemma {:induction false} FlagsAreRead(f: string, i: nat, k: nat, fl: Flags)
    requires i <= k <= |f| && IsFlagText(f[i..k]) && (k < |f| ==> !IsFlag(f[k]))
    ensures ScanFlags(f, i, fl).1 == k && FlagsFrom(fl, f[i..k], ScanFlags(f, i, fl).0)
    decreases k - i
  {
    if i < k {
      var c, rest := f[i], f[i + 1..k];
      assert f[i..k] == [c] + rest;
      assert forall j :: 0 <= j < |rest| ==> rest[j] == f[i..k][j + 1];
      FlagsAreRead(f, i + 1, k, AddFlag(fl, c));
      OneFlag(fl, c, rest, ScanFlags(f, i, fl).0);
    }
  }

  lemma OneFlag(fl: Flags, c: char, rest: string, r: Flags)
    requires IsFlagText([c]) && FlagsFrom(AddFlag(fl, c), rest, r)
    ensures FlagsFrom(fl, [c] + rest, r)
  {
    assert [c][0] == c;
  }

  lemma {:induction false} NumberIsRead(f: string, start: nat, i: nat, k: nat)
    requires start <= i <= k <= |f| && (forall j :: start <= j < k ==> '0' <= f[j] <= '9') && (k < |f| ==> !IsDecimal(f[k]))
    ensures ScanNumber(f, i, Value(f[start..i], 10)) == (Value(f[start..k], 10), k)
    decreases k - i
  {
    if i < k {
      ValueSnoc(f[start..i], f[i], 10);
      assert f[start..i + 1] == f[start..i] + [f[i]];
      NumberIsRead(f, start, i + 1, k);
    }
  }

  lemma {:induction false} LengthIsRead(f: string, i: nat, k: nat, long: bool)
    requires i <= k <= |f| && (forall j :: i <= j < k ==> f[j] == 'l' || f[j] == 'z') && (k < |f| ==> f[k] != 'l' && f[k] != 'z')
    ensures ScanLength(f, i, long) == (long || i < k, k)
    decreases k - i
  {
    if i < k {
      LengthIsRead(f, i + 1, k, true);
    }
  }

  lemma WidthIsRead(f: string, args: seq<Arg>, c: Cursor, k: nat)
    requires c.i <= k <= |f| && IsWidthText(f[c.i..k]) && (k < |f| ==> f[k] == '.' || f[k] == 'l' || f[k] == 'z' || IsConversion(f[k]))
    ensures var t := f[c.i..k]; ScanWidth(f, args, c) == (WidthOf(t, args, c.a), Cursor(k, AfterStar(t, "*", c.a)))
  {
    var t := f[c.i..k];
    if t != "" {
      assert t[0] == f[c.i];
      if t == "*" {
        assert k == c.i + 1;
      } else {
        assert forall j :: c.i <= j < k ==> f[j] == t[j - c.i];
        assert f[c.i..c.i] == [];
        NumberIsRead(f, c.i, c.i, k);
      }
    }
  }

  lemma PrecisionIsRead(f: string, args: seq<Arg>, c: Cursor, k: nat)
    requires c.i <= k <= |f| && IsPrecisionText(f[c.i..k]) && (k < |f| ==> f[k] == 'l' || f[k] == 'z' || IsConversion(f[k]))
    ensures var t := f[c.i..k]; ScanPrecision(f, args, c) == (PrecisionOf(t, args, c.a), Cursor(k, AfterStar(t, ".*", c.a)))
  {
    var t := f[c.i..k];
    if t != "" {
      assert t[0] == f[c.i];
      if t == ".*" {
        assert t[1] == f[c.i + 1] && k == c.i + 2;
      } else if t == "." {
        assert k == c.i + 1;
      } else {
        var d := t[1..];
        assert d == f[c.i + 1..k] && d[0] == f[c.i + 1];
        assert forall j :: c.i + 1 <= j < k ==> f[j] == d[j - c.i - 1];
        assert f[c.i + 1..c.i + 1] == [];
        NumberIsRead(f, c.i + 1, c.i + 1, k);
      }
    }
  }

  lemma Starts(s: string, f: string, i: nat, k: nat)
    requires i <= k <= |f| && s == f[i..k] && s != []
    ensures f[i] == s[0]
  {
  }

  lemma LengthTextIsRead(f: string, i: nat, k: nat)
    requires i <= k <= |f| && IsLengthText(f[i..k]) && (k < |f| ==> IsConversion(f[k]))
    ensures ScanLength(f, i, false) == (i < k, k)
  {
    var length := f[i..k];
    assert forall j :: i <= j < k ==> f[j] == length[j - i];
    LengthIsRead(f, i, k, false);
  }

  /** What the width and the precision are, and how many arguments they take. */
  function WidthOf(t: string, args: seq<Arg>, a: nat): int {
    if t == "" then -1 else if t == "*" then AsInt(NextArg(args, a)) else Value(t, 10)
  }

  function PrecisionOf(t: string, args: seq<Arg>, a: nat): int {
    if t == "" then -1 else if t == "." then 0 else if t == ".*" then Max(0, AsInt(NextArg(args, a))) else Value(t[1..], 10)
  }

  function AfterStar(t: string, star: string, a: nat): nat {
    if t == star then a + 1 else a
  }

  lemma SpecIsRead(f: string, args: seq<Arg>, c: Cursor, fl: Flags, i1: nat, w: (int, Cursor), p: (int, Cursor), l: (bool, nat))
    requires c.i <= |f| && i1 <= |f| && ScanFlags(f, c.i, NO_FLAGS) == (fl, i1) && ScanWidth(f, args, Cursor(i1, c.a)) == w
    requires w.1.i <= |f| && ScanPrecision(f, args, w.1) == p && p.1.i <= |f| && ScanLength(f, p.1.i, false) == l
    ensures ParseSpec(f, args, c) == Spec(fl, w.0, p.0, l.0, Cursor(l.1, p.1.a))
  {
  }

  /** Every directive is read as it is written: flags up to `i1`, width up to `i2`, precision up to `i3`, length
      up to `i4`, and then a conversion character or the end of the format. */
  lemma DirectiveIsRead(f: string, args: seq<Arg>, c: Cursor, i1: nat, i2: nat, i3: nat, i4: nat) returns (s: Spec)
    requires c.i <= i1 <= i2 <= i3 <= i4 <= |f| && (i4 < |f| ==> IsConversion(f[i4]))
    requires IsFlagText(f[c.i..i1]) && IsWidthText(f[i1..i2]) && IsPrecisionText(f[i2..i3]) && IsLengthText(f[i3..i4])
    ensures s == ParseSpec(f, args, c)
    ensures FlagsFrom(NO_FLAGS, f[c.i..i1], s.fl) && (s.long <==> i3 < i4)
    ensures var a := AfterStar(f[i1..i2], "*", c.a);
            && s.width == WidthOf(f[i1..i2], args, c.a) && s.precision == PrecisionOf(f[i2..i3], args, a)
            && s.at == Cursor(i4, AfterStar(f[i2..i3], ".*", a))
  {
    SpecEnds(f, i1, i2, i3, i4);
    var width, precision := f[i1..i2], f[i2..i3];
    var a1 := AfterStar(width, "*", c.a);
    var a2 := AfterStar(precision, ".*", a1);
    FlagsAreRead(f, c.i, i1, NO_FLAGS);
    WidthIsRead(f, args, Cursor(i1, c.a), i2);
    PrecisionIsRead(f, args, Cursor(i2, a1), i3);
    LengthTextIsRead(f, i3, i4);
    var fl := ScanFlags(f, c.i, NO_FLAGS).0;
    s := Spec(fl, WidthOf(width, args, c.a), PrecisionOf(precision, args, a1), i3 < i4, Cursor(i4, a2));
    SpecIsRead(f, args, c, fl, i1, (s.width, Cursor(i2, a1)), (s.precision, Cursor(i3, a2)), (i3 < i4, i4));
  }

  /** No part of a directive runs into the next. */
  lemma SpecEnds(f: string, i1: nat, i2: nat, i3: nat, i4: nat)
    requires i1 <= i2 <= i3 <= i4 <= |f| && (i4 < |f| ==> IsConversion(f[i4]))
    requires IsWidthText(f[i1..i2]) && IsPrecisionText(f[i2..i3]) && IsLengthText(f[i3..i4])
    ensures i3 < |f| ==> f[i3] == 'l' || f[i3] == 'z' || IsConversion(f[i3])
    ensures i2 < |f| ==> f[i2] == '.' || f[i2] == 'l' || f[i2] == 'z' || IsConversion(f[i2])
    ensures i1 < |f| ==> !IsFlag(f[i1])
  {
    if i3 < i4 {
      Starts(f[i3..i4], f, i3, i4);
    }
    if i2 < i3 {
      Starts(f[i2..i3], f, i2, i3);
    }
    if i1 < i2 {
      Starts(f[i1..i2], f, i1, i2);
    }
  }

  // ---------- what a directive shows ----------

  /** A numeric conversion shows its argument, read by its conversion character, and uses it up. */
  lemma NumberIsShown(f: string, args: seq<Arg>, s: Spec)
    requires s.at.i < |f| && IsNumeric(f[s.at.i])
    ensures var n := NumberFor(f[s.at.i], s.long, NextArg(args, s.at.a));
            Convert(f, args, s) == Piece(NumberField(s.fl, s.width, s.precision, n), Cursor(s.at.i + 1, s.at.a + 1))
  {
  }

  /** The text that a conversion that is not numeric is given: the string, the character unless it is NUL, the
      character itself for `%%` and unknown conversions, and a lone `%` at the end of the format. */
  lemma TextIsShown(f: string, args: seq<Arg>, s: Spec) returns (data: string)
    requires s.at.i <= |f| && (s.at.i < |f| ==> !IsNumeric(f[s.at.i]) && f[s.at.i] != 'C')
    ensures Convert(f, args, s).text == TextField(s.fl, s.width, s.precision, data)
    ensures s.at.i == |f| ==> data == "%" && Convert(f, args, s).next == s.at
    ensures s.at.i < |f| ==> Convert(f, args, s).next.i == s.at.i + 1
    ensures s.at.i < |f| && f[s.at.i] == 's' ==> data == NextArg(args, s.at.a).text && Convert(f, args, s).next.a == s.at.a + 1
    ensures s.at.i < |f| && f[s.at.i] == 'c' ==>
              var w := NextArg(args, s.at.a).word % 256;
              data == (if w == 0 then "" else [w as char]) && Convert(f, args, s).next.a == s.at.a + 1
    ensures s.at.i < |f| && f[s.at.i] != 's' && f[s.at.i] != 'c' ==> data == [f[s.at.i]] && Convert(f, args, s).next.a == s.at.a
  {
    var arg := NextArg(args, s.at.a);
    data := if s.at.i == |f| then "%" else if f[s.at.i] == 's' then arg.text
            else if f[s.at.i] == 'c' then CharText(arg) else [f[s.at.i]];
  }

  /** `%C` takes an argument and prints nothing. */
  lemma ColorIsSilent(f: string, args: seq<Arg>, s: Spec)
    requires s.at.i < |f| && f[s.at.i] == 'C'
    ensures Convert(f, args, s) == Piece("", Cursor(s.at.i + 1, s.at.a + 1))
  {
  }

  /** A character other than `%` is printed as it is, and a directive as it is read. */
  lemma {:induction false} RenderIs(f: string, args: seq<Arg>, c: Cursor)
    requires c.i <= |f|
    ensures c.i == |f| ==> Render(f, args, c) == ""
    ensures c.i < |f| && f[c.i] != '%' ==> Render(f, args, c) == [f[c.i]] + Render(f, args, Cursor(c.i + 1, c.a))
    ensures c.i < |f| && f[c.i] == '%' ==>
              var p := Convert(f, args, ParseSpec(f, args, Cursor(c.i + 1, c.a)));
              Render(f, args, c) == p.text + Render(f, args, p.next)
  {
  }

  /** A format without `%` prints itself. */
  lemma {:induction false} PlainFormat(f: string, args: seq<Arg>, c: Cursor)
    requires c.i <= |f| && forall k :: c.i <= k < |f| ==> f[k] != '%'
    ensures Render(f, args, c) == f[c.i..]
    decreases |f| - c.i
  {
    RenderIs(f, args, c);
    if c.i < |f| {
      PlainFormat(f, args, Cursor(c.i + 1, c.a));
      assert f[c.i..] == [f[c.i]] + f[c.i + 1..];
    }
  }

  /** A numeric directive, from format to text: what is printed is a field for the flags, width, precision and
      length as written, of the next argument as its conversion character reads it. */
  lemma {:induction false} NumericDirective(f: string, args: seq<Arg>, c: Cursor, s: Spec, n: Number)
    requires c.i < |f| && f[c.i] == '%' && s == ParseSpec(f, args, Cursor(c.i + 1, c.a))
    requires s.at.i < |f| && IsNumeric(f[s.at.i]) && n == NumberFor(f[s.at.i], s.long, NextArg(args, s.at.a))
    ensures Render(f, args, c) == NumberField(s.fl, s.width, s.precision, n) + Render(f, args, Cursor(s.at.i + 1, s.at.a + 1))
  {
    NumberIsShown(f, args, s);
    RenderIs(f, args, c);
  }
}
