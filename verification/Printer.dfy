/** `printer_vprintf`, `vsnprintf` (modules/m3/lib.c) and `panic` (modules/m3/process.c): the format parser
    and its bounded back end. C strings are their characters without the NUL. */
module Printer {
  import opened Basics
  import opened Printf

  // ---------- what a format prints ----------

  /** A place in the format, and how many arguments are used up. */
  datatype Cursor = Cursor(i: nat, a: nat)

  function Peek(f: string, i: nat): char {
    if i < |f| then f[i] else '\0'
  }

  function NextArg(args: seq<Arg>, a: nat): Arg {
    if a < |args| then args[a] else Arg(0, "")
  }

  predicate IsFlag(c: char) {
    c == '#' || c == '0' || c == '-' || c == ' ' || c == '+'
  }

  function AddFlag(fl: Flags, c: char): Flags {
    match c
    case '#' => fl.(alt := true)
    case '0' => fl.(zero := true)
    case '-' => fl.(left := true)
    case ' ' => fl.(space := true)
    case _ => fl.(plus := true)
  }

  function ScanFlags(f: string, i: nat, fl: Flags): (r: (Flags, nat))
    requires i <= |f|
    ensures i <= r.1 <= |f|
    decreases |f| - i
  {
    if i < |f| && IsFlag(f[i]) then ScanFlags(f, i + 1, AddFlag(fl, f[i])) else (fl, i)
  }

  predicate IsDecimal(c: char) {
    '0' <= c <= '9'
  }

  function ScanNumber(f: string, i: nat, acc: int): (r: (int, nat))
    requires i <= |f|
    ensures i <= r.1 <= |f| && (acc >= 0 ==> r.0 >= 0)
    decreases |f| - i
  {
    if i < |f| && IsDecimal(f[i]) then ScanNumber(f, i + 1, 10 * acc + (f[i] as int - '0' as int)) else (acc, i)
  }

  function ScanWidth(f: string, args: seq<Arg>, c: Cursor): (r: (int, Cursor))
    requires c.i <= |f|
    ensures c.i <= r.1.i <= |f|
  {
    if IsDecimal(Peek(f, c.i)) && Peek(f, c.i) != '0' then
      var n := ScanNumber(f, c.i, 0);
      (n.0, Cursor(n.1, c.a))
    else if Peek(f, c.i) == '*' then (AsInt(NextArg(args, c.a)), Cursor(c.i + 1, c.a + 1))
    else (-1, c)
  }

  function ScanPrecision(f: string, args: seq<Arg>, c: Cursor): (r: (int, Cursor))
    requires c.i <= |f|
    ensures c.i <= r.1.i <= |f|
  {
    if Peek(f, c.i) != '.' then (-1, c)
    else
      var i := c.i + 1;
      if IsDecimal(Peek(f, i)) then
        var n := ScanNumber(f, i, 0);
        (n.0, Cursor(n.1, c.a))
      else if Peek(f, i) == '*' then
        var x := AsInt(NextArg(args, c.a));
        (if x < 0 then 0 else x, Cursor(i + 1, c.a + 1))
      else (0, Cursor(i, c.a))
  }

  function ScanLength(f: string, i: nat, long: bool): (r: (bool, nat))
    requires i <= |f|
    ensures i <= r.1 <= |f|
    decreases |f| - i
  {
    if i < |f| && (f[i] == 'l' || f[i] == 'z') then ScanLength(f, i + 1, true) else (long, i)
  }

  function Abs(x: int): nat {
    if x < 0 then -x else x
  }

  predicate IsNumeric(c: char) {
    c == 'd' || c == 'i' || c == 'u' || c == 'x' || c == 'X' || c == 'p'
  }

  /** The number a numeric conversion character asks for. */
  function NumberFor(c: char, long: bool, arg: Arg): (n: Number)
    requires IsNumeric(c)
    ensures GoodNumber(n)
  {
    if c == 'd' || c == 'i' then
      var x := if long then AsLong(arg) else AsInt(arg);
      Number(Abs(x), 10, true, x < 0, false)
    else if c == 'p' then Number(arg.word % TWO64, -16, false, false, true)
    else Number(AsUnsigned(arg, long), if c == 'u' then 10 else if c == 'x' then -16 else 16, false, false, false)
  }

  /** The value a numeric conversion character takes from its argument. */
  function ArgumentValue(c: char, long: bool, arg: Arg): int {
    if c == 'd' || c == 'i' then if long then AsLong(arg) else AsInt(arg)
    else if c == 'p' then arg.word % TWO64
    else AsUnsigned(arg, long)
  }

  /** What a numeric conversion prints reads back, in decimal or hexadecimal, as the argument it was given. */
  lemma ArgumentReadsBack(c: char, long: bool, arg: Arg, fl: Flags, width: int, precision: int)
    requires IsNumeric(c)
    ensures var base := if c == 'd' || c == 'i' || c == 'u' then 10 else 16;
            ReadNumber(NumberField(fl, width, precision, NumberFor(c, long, arg)), base) == ArgumentValue(c, long, arg)
  {
    NumberReadsBack(fl, width, precision, NumberFor(c, long, arg));
  }

  /** `%c` stores the character in a C string, so a NUL prints nothing. */
  function CharText(arg: Arg): string {
    var c := (arg.word % 256) as char;
    if c == '\0' then "" else [c]
  }

  /** The text of a conversion and where the format continues. */
  datatype Piece = Piece(text: string, next: Cursor)

  /** Flags, width and precision of a directive, and where its conversion character is. */
  datatype Spec = Spec(fl: Flags, width: int, precision: int, long: bool, at: Cursor)

  function ParseSpec(f: string, args: seq<Arg>, c: Cursor): (s: Spec)
    requires c.i <= |f|
    ensures c.i <= s.at.i <= |f|
  {
    var fl := ScanFlags(f, c.i, NO_FLAGS);
    var w := ScanWidth(f, args, Cursor(fl.1, c.a));
    var p := ScanPrecision(f, args, w.1);
    var l := ScanLength(f, p.1.i, false);
    Spec(fl.0, w.0, p.0, l.0, Cursor(l.1, p.1.a))
  }

  /** The conversion: at the end of the format a lone `%` prints itself and the parser stays there. */
  function Convert(f: string, args: seq<Arg>, s: Spec): (r: Piece)
    requires s.at.i <= |f|
    ensures s.at.i <= r.next.i <= |f|
  {
    var ch, arg := Peek(f, s.at.i), NextArg(args, s.at.a);
    if s.at.i == |f| then Piece(TextField(s.fl, s.width, s.precision, "%"), s.at)
    else
      var next := Cursor(s.at.i + 1, s.at.a + 1);
      if IsNumeric(ch) then Piece(NumberField(s.fl, s.width, s.precision, NumberFor(ch, s.long, arg)), next)
      else if ch == 's' then Piece(TextField(s.fl, s.width, s.precision, arg.text), next)
      else if ch == 'C' then Piece("", next)
      else if ch == 'c' then Piece(TextField(s.fl, s.width, s.precision, CharText(arg)), next)
      else Piece(TextField(s.fl, s.width, s.precision, [ch]), Cursor(s.at.i + 1, s.at.a))
  }

  /** A directive, from after its `%`. */
  function Directive(f: string, args: seq<Arg>, c: Cursor): (r: Piece)
    requires c.i <= |f|
    ensures c.i <= r.next.i <= |f|
  {
    Convert(f, args, ParseSpec(f, args, c))
  }

  /** An ordinary character prints itself; a `%` starts a directive. */
  function Element(f: string, args: seq<Arg>, c: Cursor): (r: Piece)
    requires c.i < |f|
    ensures c.i < r.next.i <= |f|
  {
    if f[c.i] != '%' then Piece([f[c.i]], Cursor(c.i + 1, c.a))
    else Directive(f, args, Cursor(c.i + 1, c.a))
  }

  /** Everything the format prints from the cursor on. */
  function Render(f: string, args: seq<Arg>, c: Cursor): string
    requires c.i <= |f|
    decreases |f| - c.i
  {
    if c.i == |f| then ""
    else
      var p := Element(f, args, c);
      p.text + Render(f, args, p.next)
  }

  // ---------- no NUL is ever printed ----------

  predicate NoNul(s: string) {
    forall k :: 0 <= k < |s| ==> s[k] != '\0'
  }

  predicate GoodArgs(args: seq<Arg>) {
    forall k :: 0 <= k < |args| ==> NoNul(args[k].text)
  }

  lemma NoNulConcat(a: string, b: string)
    requires NoNul(a) && NoNul(b)
    ensures NoNul(a + b)
  {
  }

  lemma FieldNoNul(left: bool, width: int, prefix: string, zeros: int, data: string)
    requires NoNul(prefix) && NoNul(data)
    ensures NoNul(Field(left, width, prefix, zeros, data))
  {
  }

  lemma DigitsNoNul(s: string, base: nat)
    requires AllDigits(s, base)
    ensures NoNul(s)
  {
    assert !IsDigit('\0', base);
    forall k | 0 <= k < |s|
      ensures s[k] != '\0'
    {
      assert IsDigit(s[k], base);
    }
  }

  lemma NumberFieldNoNul(fl: Flags, width: int, precision: int, n: Number)
    requires GoodNumber(n)
    ensures NoNul(NumberField(fl, width, precision, n))
  {
    var digits, prefix := NumberDigits(n), NumberPrefix(fl, n);
    DigitsDenote(n.num, Radix(n), n.base < 0);
    DigitsNoNul(digits, Radix(n));
    FieldNoNul(fl.left, width, prefix, NumberZeros(fl, width, precision, |digits|, |prefix|), digits);
  }

  lemma TextFieldNoNul(fl: Flags, width: int, precision: int, data: string)
    requires NoNul(data)
    ensures NoNul(TextField(fl, width, precision, data))
  {
  }

  lemma {:induction false} DirectiveNoNul(f: string, args: seq<Arg>, c: Cursor) returns (p: Piece)
    requires c.i <= |f| && NoNul(f) && GoodArgs(args)
    ensures p == Directive(f, args, c) && NoNul(p.text)
  {
    var s := ParseSpec(f, args, c);
    p := ConvertNoNul(f, args, s);
  }

  lemma {:induction false} ElementNoNul(f: string, args: seq<Arg>, c: Cursor) returns (p: Piece)
    requires c.i < |f| && NoNul(f) && GoodArgs(args)
    ensures p == Element(f, args, c) && NoNul(p.text)
  {
    if f[c.i] == '%' {
      p := DirectiveNoNul(f, args, Cursor(c.i + 1, c.a));
    } else {
      p := Piece([f[c.i]], Cursor(c.i + 1, c.a));
    }
  }

  lemma {:induction false} RenderNoNul(f: string, args: seq<Arg>, c: Cursor)
    requires c.i <= |f| && NoNul(f) && GoodArgs(args)
    ensures NoNul(Render(f, args, c))
    decreases |f| - c.i
  {
    if c.i < |f| {
      var p := ElementNoNul(f, args, c);
      RenderNoNul(f, args, p.next);
      NoNulConcat(p.text, Render(f, args, p.next));
    }
  }

  lemma {:induction false} ConvertNoNul(f: string, args: seq<Arg>, s: Spec) returns (p: Piece)
    requires s.at.i <= |f| && NoNul(f) && GoodArgs(args)
    ensures p == Convert(f, args, s) && NoNul(p.text)
  {
    p := Convert(f, args, s);
    var ch, arg := Peek(f, s.at.i), NextArg(args, s.at.a);
    if s.at.i < |f| && IsNumeric(ch) {
      NumberFieldNoNul(s.fl, s.width, s.precision, NumberFor(ch, s.long, arg));
    } else {
      TextFieldNoNul(s.fl, s.width, s.precision,
        if s.at.i == |f| then "%" else if ch == 's' then arg.text else if ch == 'c' then CharText(arg) else [ch]);
    }
  }

  // ---------- the parser's loops ----------

  method ReadFlags(f: string, start: nat) returns (fl: Flags, i: nat)
    requires start <= |f|
    ensures (fl, i) == ScanFlags(f, start, NO_FLAGS)
  {
    fl, i := NO_FLAGS, start;
    while i < |f| && IsFlag(f[i])
      invariant start <= i <= |f| && ScanFlags(f, start, NO_FLAGS) == ScanFlags(f, i, fl)
    {
      fl, i := AddFlag(fl, f[i]), i + 1;
    }
  }

  method ReadDecimal(f: string, start: nat) returns (n: int, i: nat)
    requires start <= |f|
    ensures (n, i) == ScanNumber(f, start, 0)
  {
    n, i := 0, start;
    while i < |f| && IsDecimal(f[i])
      invariant start <= i <= |f| && ScanNumber(f, start, 0) == ScanNumber(f, i, n)
    {
      n, i := 10 * n + (f[i] as int - '0' as int), i + 1;
    }
  }

  method ReadLength(f: string, start: nat) returns (long: bool, i: nat)
    requires start <= |f|
    ensures (long, i) == ScanLength(f, start, false)
  {
    long, i := false, start;
    while i < |f| && (f[i] == 'l' || f[i] == 'z')
      invariant start <= i <= |f| && ScanLength(f, start, false) == ScanLength(f, i, long)
    {
      long, i := true, i + 1;
    }
  }

  method ReadWidth(f: string, args: seq<Arg>, c: Cursor) returns (width: int, next: Cursor)
    requires c.i <= |f|
    ensures (width, next) == ScanWidth(f, args, c)
  {
    width, next := -1, c;
    if '1' <= Peek(f, c.i) <= '9' {
      var i;
      width, i := ReadDecimal(f, c.i);
      next := Cursor(i, c.a);
    } else if Peek(f, c.i) == '*' {
      width, next := AsInt(NextArg(args, c.a)), Cursor(c.i + 1, c.a + 1);
    }
  }

  method ReadPrecision(f: string, args: seq<Arg>, c: Cursor) returns (precision: int, next: Cursor)
    requires c.i <= |f|
    ensures (precision, next) == ScanPrecision(f, args, c)
  {
    precision, next := -1, c;
    if Peek(f, c.i) == '.' {
      next := Cursor(c.i + 1, c.a);
      if '0' <= Peek(f, next.i) <= '9' {
        var i;
        precision, i := ReadDecimal(f, next.i);
        next := Cursor(i, c.a);
      } else if Peek(f, next.i) == '*' {
        precision, next := AsInt(NextArg(args, c.a)), Cursor(next.i + 1, c.a + 1);
      }
      if precision < 0 {
        precision := 0;
      }
    }
  }

  method ReadSpec(f: string, args: seq<Arg>, c: Cursor) returns (s: Spec)
    requires c.i <= |f|
    ensures s == ParseSpec(f, args, c)
  {
    var fl, i := ReadFlags(f, c.i);
    var width, w := ReadWidth(f, args, Cursor(i, c.a));
    var precision, p := ReadPrecision(f, args, w);
    var long;
    long, i := ReadLength(f, p.i);
    s := Spec(fl, width, precision, long, Cursor(i, p.a));
  }

  // ---------- the bounded back end ----------

  class StringPrinter {
    const buf: array<char>
    const start: nat
    /** The last place, which is kept for the NUL. */
    const end: nat
    var s: nat
    /** Everything `putc` was ever given. */
    ghost var out: string

    ghost predicate Valid()
      reads this, buf
    {
      && start <= s <= end < buf.Length
      && s - start == (if |out| < end - start then |out| else end - start)
      && buf[start..s] == out[..s - start]
    }

    constructor (buf: array<char>, start: nat, size: nat)
      requires size > 0 && start + size <= buf.Length
      ensures Valid() && this.buf == buf && this.start == start && end == start + size - 1 && out == ""
    {
      this.buf, this.start, this.end := buf, start, start + size - 1;
      s, out := start, "";
    }

    /** `string_putc`: past the bound, characters are dropped. */
    method Putc(c: char)
      requires Valid()
      modifies this`s, this`out, buf
      ensures Valid() && out == old(out) + [c]
      ensures forall k :: 0 <= k < buf.Length && !(start <= k < end) ==> buf[k] == old(buf[k])
    {
      if s < end {
        buf[s] := c;
        s := s + 1;
      }
      out := out + [c];
    }

    method PutAll(text: string)
      requires Valid()
      modifies this`s, this`out, buf
      ensures Valid() && out == old(out) + text
      ensures forall k :: 0 <= k < buf.Length && !(start <= k < end) ==> buf[k] == old(buf[k])
    {
      for j := 0 to |text|
        invariant Valid() && out == old(out) + text[..j]
        invariant forall k :: 0 <= k < buf.Length && !(start <= k < end) ==> buf[k] == old(buf[k])
      {
        Putc(text[j]);
        assert text[..j + 1] == text[..j] + [text[j]];
      }
      assert text[..|text|] == text;
    }

    method PutRepeated(c: char, n: int)
      requires Valid()
      modifies this`s, this`out, buf
      ensures Valid() && out == old(out) + Repeat(c, n)
      ensures forall k :: 0 <= k < buf.Length && !(start <= k < end) ==> buf[k] == old(buf[k])
    {
      var j := 0;
      while j < n
        invariant 0 <= j && (j <= n || j == 0) && Valid() && out == old(out) + Repeat(c, j)
        invariant forall k :: 0 <= k < buf.Length && !(start <= k < end) ==> buf[k] == old(buf[k])
      {
        Putc(c);
        j := j + 1;
      }
      if n <= 0 {
        assert Repeat(c, n) == [] && Repeat(c, j) == [];
      }
    }

    /** The five output loops of a conversion. */
    method PutField(left: bool, width: int, prefix: string, zeros: int, data: string)
      requires Valid()
      modifies this`s, this`out, buf
      ensures Valid() && out == old(out) + Field(left, width, prefix, zeros, data)
      ensures forall k :: 0 <= k < buf.Length && !(start <= k < end) ==> buf[k] == old(buf[k])
    {
      ghost var was := out;
      var blanks := width - (|data| + zeros + |prefix|);
      ghost var before, after := if left then "" else Repeat(' ', blanks), if left then Repeat(' ', blanks) else "";
      if !left {
        PutRepeated(' ', blanks);
        blanks := 0;
      }
      assert out == was + before;
      PutAll(prefix);
      PutRepeated('0', zeros);
      PutAll(data);
      PutRepeated(' ', blanks);
      assert out == was + before + prefix + Repeat('0', zeros) + data + after;
      FieldJoins(was, before, prefix, Repeat('0', zeros), data, after);
      assert before + prefix + Repeat('0', zeros) + data + after == Field(left, width, prefix, zeros, data);
    }

    /** A numeric conversion: its digits are made in the 24-byte number buffer. */
    method PutNumber(fl: Flags, width: int, precision: int, n: Number)
      requires Valid() && GoodNumber(n)
      modifies this`s, this`out, buf
      ensures Valid() && out == old(out) + NumberField(fl, width, precision, n)
      ensures forall k :: 0 <= k < buf.Length && !(start <= k < end) ==> buf[k] == old(buf[k])
    {
      var numbuf := new char[NUMBUFSIZ];
      var p := FillNumbuf(numbuf, n.num, n.base);
      var data := numbuf[p..NUMBUFSIZ - 1];
      var prefix := NumberPrefix(fl, n);
      PutField(fl.left, width, prefix, NumberZeros(fl, width, precision, |data|, |prefix|), data);
    }

    /** A text conversion: the precision cuts the text. */
    method PutText(fl: Flags, width: int, precision: int, text: string)
      requires Valid()
      modifies this`s, this`out, buf
      ensures Valid() && out == old(out) + TextField(fl, width, precision, text)
      ensures forall k :: 0 <= k < buf.Length && !(start <= k < end) ==> buf[k] == old(buf[k])
    {
      var data := text;
      if 0 <= precision < |data| {
        data := data[..precision];
      }
      PutField(fl.left, width, "", 0, data);
    }

    /** The part of `printer_vprintf` from the conversion character to the output. */
    method PutConversion(f: string, args: seq<Arg>, sp: Spec) returns (next: Cursor, ghost text: string)
      requires Valid() && sp.at.i <= |f| && NoNul(f)
      modifies this`s, this`out, buf
      ensures Valid() && out == old(out) + text && Convert(f, args, sp) == Piece(text, next)
      ensures forall k :: 0 <= k < buf.Length && !(start <= k < end) ==> buf[k] == old(buf[k])
    {
      var ch, arg := Peek(f, sp.at.i), NextArg(args, sp.at.a);
      text, next := Convert(f, args, sp).text, Cursor(sp.at.i + 1, sp.at.a + 1);
      if IsNumeric(ch) {
        PutNumber(sp.fl, sp.width, sp.precision, NumberFor(ch, sp.long, arg));
      } else if ch == 'C' {
        assert out + "" == out;
      } else {
        var data;
        if ch == 's' {
          data := arg.text;
        } else if ch == 'c' {
          data := CharText(arg);
        } else if sp.at.i < |f| {
          data, next := [ch], Cursor(sp.at.i + 1, sp.at.a);
        } else {
          data, next := "%", sp.at;
        }
        PutText(sp.fl, sp.width, sp.precision, data);
      }
    }

    /** A directive, from after its `%`. */
    method PutDirective(f: string, args: seq<Arg>, c: Cursor) returns (next: Cursor, ghost text: string)
      requires Valid() && NoNul(f) && c.i <= |f|
      modifies this`s, this`out, buf
      ensures Valid() && out == old(out) + text && Directive(f, args, c) == Piece(text, next)
      ensures forall k :: 0 <= k < buf.Length && !(start <= k < end) ==> buf[k] == old(buf[k])
    {
      var sp := ReadSpec(f, args, c);
      next, text := PutConversion(f, args, sp);
    }

    /** One round of the outer loop of `printer_vprintf`. */
    method PutNext(f: string, args: seq<Arg>, c: Cursor) returns (next: Cursor, ghost text: string)
      requires Valid() && NoNul(f) && c.i < |f|
      modifies this`s, this`out, buf
      ensures Valid() && out == old(out) + text && Element(f, args, c) == Piece(text, next)
      ensures forall k :: 0 <= k < buf.Length && !(start <= k < end) ==> buf[k] == old(buf[k])
    {
      if f[c.i] == '%' {
        next, text := PutDirective(f, args, Cursor(c.i + 1, c.a));
      } else {
        next, text := Cursor(c.i + 1, c.a), [f[c.i]];
        Putc(f[c.i]);
      }
    }

    /** `printer_vprintf`: it prints what the format says, and never looks past the format's NUL. */
    method VPrintf(f: string, args: seq<Arg>) returns (ghost full: string)
      requires Valid() && NoNul(f)
      modifies this`s, this`out, buf
      ensures Valid() && out == old(out) + full && full == Render(f, args, Cursor(0, 0))
      ensures forall k :: 0 <= k < buf.Length && !(start <= k < end) ==> buf[k] == old(buf[k])
    {
      var c := Cursor(0, 0);
      full := Render(f, args, c);
      while c.i < |f|
        invariant c.i <= |f| && Valid()
        invariant out + Render(f, args, c) == old(out) + full
        invariant forall k :: 0 <= k < buf.Length && !(start <= k < end) ==> buf[k] == old(buf[k])
        decreases |f| - c.i
      {
        ghost var was := out;
        ghost var text;
        c, text := PutNext(f, args, c);
        Shift(was, text, Render(f, args, c));
      }
      assert out + "" == out;
    }

    /** `*sp.s = 0`: the bytes become a C string, the first characters of the output. */
    method Terminate(ghost full: string) returns (n: nat)
      requires Valid() && out == "" + full
      modifies buf
      ensures n == Min(end - start, |full|) && buf[start..start + n] == full[..n] && buf[start + n] == '\0'
      ensures forall k :: 0 <= k < buf.Length && !(start <= k <= end) ==> buf[k] == old(buf[k])
    {
      buf[s] := '\0';
      n := s - start;
    }
  }

  lemma Shift(a: string, b: string, c: string)
    ensures (a + b) + c == a + (b + c)
  {
  }

  lemma FieldJoins(was: string, before: string, prefix: string, zeros: string, data: string, after: string)
    ensures was + before + prefix + zeros + data + after == was + (before + prefix + zeros + data + after)
  {
  }

  /** `vsnprintf` into the `size` bytes at `start`: the longest prefix of the full rendering that fits,
      then a NUL; the result counts the characters stored. Nothing outside those bytes is written. */
  method Vsnprintf(buf: array<char>, start: nat, size: nat, f: string, args: seq<Arg>) returns (n: nat, ghost full: string)
    requires start + size <= buf.Length && NoNul(f)
    modifies buf
    ensures full == Render(f, args, Cursor(0, 0))
    ensures size == 0 ==> n == 0 && buf[..] == old(buf[..])
    ensures size > 0 ==> n == Min(size - 1, |full|) && buf[start..start + n] == full[..n] && buf[start + n] == '\0'
    ensures forall k :: 0 <= k < buf.Length && !(start <= k < start + size) ==> buf[k] == old(buf[k])
  {
    if size == 0 {
      return 0, Render(f, args, Cursor(0, 0));
    }
    var sp := new StringPrinter(buf, start, size);
    full := sp.VPrintf(f, args);
    n := sp.Terminate(full);
  }

  const HEADER := "PANIC: "

  /** As much of the rendering as fits, ended by a newline. */
  function Ended(full: string): string {
    var n := Min(152, |full|);
    if n > 0 && full[n - 1] == '\n' then full[..n] else full[..Min(151, n)] + "\n"
  }

  /** `panic` up to the console: the buffer is never overrun, and the C string left in it is the header and
      as much of the rendering as fits, and always ends in a newline. */
  method PanicBuffer(f: string, args: seq<Arg>) returns (buf: array<char>, ghost len: nat, ghost full: string)
    requires NoNul(f) && GoodArgs(args)
    ensures full == Render(f, args, Cursor(0, 0))
    ensures fresh(buf) && buf.Length == 160 && 0 < len < 160
    ensures buf[len] == '\0' && NoNul(buf[..len]) && buf[len - 1] == '\n'
    ensures var n := Min(152, |full|);
            buf[..len] == "PANIC: " + (if n > 0 && full[n - 1] == '\n' then full[..n] else full[..Min(151, n)] + "\n")
  {
    RenderNoNul(f, args, Cursor(0, 0));
    buf := PanicHeader();
    var n;
    n, full := Vsnprintf(buf, 7, 153, f, args);
    JoinHeader(buf[..], n);
    len := EndLine(buf, n + 7, full);
  }

  lemma JoinHeader(b: string, n: nat)
    requires 7 + n <= |b|
    ensures b[..n + 7] == b[..7] + b[7..7 + n]
  {
  }

  /** `memcpy(buf, "PANIC: ", 7)`. */
  method PanicHeader() returns (buf: array<char>)
    ensures fresh(buf) && buf.Length == 160 && buf[..7] == HEADER
  {
    buf := new char[160];
    for k := 0 to 7
      invariant buf[..k] == HEADER[..k]
    {
      buf[k] := HEADER[k];
    }
  }

  /** The newline that `panic` appends, or writes over the last character when the buffer is full. */
  method EndLine(buf: array<char>, l: nat, ghost full: string) returns (ghost len: nat)
    requires buf.Length == 160 && NoNul(full) && l == 7 + Min(152, |full|) && buf[l] == '\0'
    requires buf[..l] == HEADER + full[..Min(152, |full|)]
    modifies buf
    ensures 0 < len < 160 && buf[..len] == HEADER + Ended(full) && buf[len] == '\0'
    ensures NoNul(buf[..len]) && buf[len - 1] == '\n'
  {
    ghost var m := buf[..l];
    assert NoNul(m);
    len := l;
    if l > 0 && buf[l - 1] != '\n' {
      var p := if l == 159 then l - 1 else l;
      ghost var before := buf[..p];
      assert before == m[..p];
      buf[p] := '\n';
      buf[p + 1] := '\0';
      assert buf[..p + 1] == before + "\n";
      len := p + 1;
    }
  }
}
