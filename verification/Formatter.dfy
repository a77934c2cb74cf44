/**
 rt_vsnprintf: what a format and its arguments expand to, and the one pass that writes as much of it as fits into a
 bounded buffer.
 */
module Formatter {
  import opened Bytes
  import opened NumberFormat

  /** An argument as va_arg finds it: a word, a C string, or a null string pointer. */
  datatype Arg = Word(v: u32) | Text(s: string) | NullText

  predicate ArgsOk(args: seq<Arg>) {
    forall k :: 0 <= k < |args| && args[k].Text? ==> CString(args[k].s)
  }

  /** va_arg for a word; what a missing argument or one of another kind yields is not defined, and is 0 here. */
  function WordArg(args: seq<Arg>, a: nat): u32 {
    if a < |args| && args[a].Word? then args[a].v else 0
  }

  /** The string for %s, with its NUL. */
  function TextArg(args: seq<Arg>, a: nat): (s: string)
    requires ArgsOk(args)
    ensures CString(s)
  {
    if a < |args| && args[a].Text? then args[a].s else "(NULL)\0"
  }

  // ----- what a format means -----

  const NO_FLAGS := Flags(false, false, false, false, false, false)

  function AddFlag(c: char, fl: Flags): Option<Flags> {
    if c == '-' then Some(fl.(left := true))
    else if c == '+' then Some(fl.(plus := true))
    else if c == ' ' then Some(fl.(space := true))
    else if c == '#' then Some(fl)
    else if c == '0' then Some(fl.(zeropad := true))
    else None
  }

  /** The flags from position `p` on, and the position after them. */
  function Flagged(f: string, p: nat, fl: Flags): (r: (Flags, nat))
    requires CString(f) && p < |f|
    ensures p <= r.1 < |f|
    decreases |f| - p
  {
    match AddFlag(f[p], fl)
    case Some(more) => Flagged(f, p + 1, more)
    case None => (fl, p)
  }

  /** A width or precision at position `p`: a number, `*` for the next argument, or neither. */
  function Amount(f: string, p: nat, none: int, args: seq<Arg>, a: nat): (r: (int, nat, nat))
    requires CString(f) && p < |f|
    ensures p <= r.1 < |f|
  {
    if IsDigit(f[p]) then (Scanned(f, p), p + Run(f, p), a)
    else if f[p] == '*' then (Signed(WordArg(args, a)), p + 1, a + 1)
    else (none, p, a)
  }

  /** A directive without its conversion character, which is at `p`; `a` is the next argument. */
  datatype Directive = Directive(fl: Flags, width: int, prec: int, qual: char, p: nat, a: nat)

  /** A negative `*` width means left alignment. */
  function Widened(f: string, p: nat, fl: Flags, args: seq<Arg>, a: nat): (d: Directive)
    requires CString(f) && p < |f|
    ensures p <= d.p < |f|
  {
    var (w, q, b) := Amount(f, p, -1, args, a);
    if f[p] == '*' && w < 0
    then Directive(fl.(left := true), -w, -1, '\0', q, b)
    else Directive(fl, w, -1, '\0', q, b)
  }

  /** After a dot a missing or negative precision counts as zero; without a dot there is none, -1. */
  function Refined(f: string, d: Directive, args: seq<Arg>): (r: Directive)
    requires CString(f) && d.p < |f|
    ensures d.p <= r.p < |f|
  {
    if f[d.p] == '.' then
      var (n, q, b) := Amount(f, d.p + 1, -1, args, d.a);
      d.(prec := if n < 0 then 0 else n, p := q, a := b)
    else d
  }

  function Qualified(f: string, d: Directive): (r: Directive)
    requires CString(f) && d.p < |f|
    ensures d.p <= r.p < |f|
  {
    if f[d.p] == 'h' || f[d.p] == 'l' then d.(qual := f[d.p], p := d.p + 1) else d
  }

  function Parsed(f: string, p: nat, args: seq<Arg>, a: nat): (d: Directive)
    requires CString(f) && p < |f|
    ensures p <= d.p < |f|
  {
    var (fl, q) := Flagged(f, p, NO_FLAGS);
    Qualified(f, Refined(f, Widened(f, q, fl, args, a), args))
  }

  function SignedShort(w: u32): i32 {
    var h := w % 0x1_0000;
    if h < 0x8000 then h else h - 0x1_0000
  }

  /** The number a word argument stands for. */
  function Narrowed(w: u32, qual: char, sign: bool): i32 {
    if qual == 'h' then (if sign then SignedShort(w) else w % 0x1_0000) else Signed(w)
  }

  function Padded(text: string, width: int, left: bool): string {
    var pad := Repeat(' ', width - |text|);
    if left then text + pad else pad + text
  }

  /** How much of a string %s shows: it stops at the NUL, at the field width, and at a positive precision. */
  function Shown(s: string, width: int, prec: int): (len: nat)
    requires CString(s)
    ensures len < |s|
  {
    var n := if 0 <= width < |s| - 1 then width else |s| - 1;
    if 0 < prec < n then prec else n
  }

  function CharArg(args: seq<Arg>, a: nat): char {
    (WordArg(args, a) % 256) as char
  }

  predicate IsNumeric(c: char) {
    c in "oxXdiu"
  }

  function NumberText(c: char, d: Directive, w: u32): string {
    var fl := d.fl.(sign := c == 'd' || c == 'i', large := c == 'X');
    Number(Narrowed(w, d.qual, fl.sign), if c == 'o' then 8 else if c == 'x' || c == 'X' then 16 else 10, d.width, d.prec, fl)
  }

  function PointerText(d: Directive, w: u32): string {
    if d.width == -1 then Number(Signed(w), 16, 8, d.prec, d.fl.(zeropad := true))
    else Number(Signed(w), 16, d.width, d.prec, d.fl)
  }

  /** The text of a directive, the position after it, and the next argument. */
  function Converted(f: string, d: Directive, args: seq<Arg>): (r: (string, nat, nat))
    requires CString(f) && d.p < |f| && ArgsOk(args)
    ensures d.p <= r.1 < |f|
  {
    var c := f[d.p];
    if c == 'c' then (Padded([CharArg(args, d.a)], d.width, d.fl.left), d.p + 1, d.a + 1)
    else if c == 's' then
      var s := TextArg(args, d.a);
      (Padded(s[..Shown(s, d.width, d.prec)], d.width, d.fl.left), d.p + 1, d.a + 1)
    else if c == 'p' then (PointerText(d, WordArg(args, d.a)), d.p + 1, d.a + 1)
    else if c == '%' then ("%", d.p + 1, d.a)
    else if IsNumeric(c) then (NumberText(c, d, WordArg(args, d.a)), d.p + 1, d.a + 1)
    else if c == '\0' then ("%", d.p, d.a)
    else (['%', c], d.p + 1, d.a)
  }

  /** What the format from position `p` on expands to. */
  function Format(f: string, p: nat, args: seq<Arg>, a: nat): string
    requires CString(f) && p < |f| && ArgsOk(args)
    decreases |f| - p
  {
    if f[p] == '\0' then ""
    else if f[p] != '%' then [f[p]] + Format(f, p + 1, args, a)
    else
      var (t, q, b) := Converted(f, Parsed(f, p + 1, args, a), args);
      t + Format(f, q, args, b)
  }

  /** What a bare directive, without flags, width, precision and qualifier, prints for the word `w`. */
  function PlainText(c: char, w: u32): string
    requires c in "diuxX"
  {
    var n: int := Signed(w);
    if c == 'd' || c == 'i' then (if n < 0 then "-" + Digits(-n, 10, false) else Digits(n, 10, false))
    else if c == 'u' then Digits(w, 10, false)
    else Digits(w, 16, c == 'X')
  }

  /** %d and %i print sign and magnitude of any int, %u, %x and %X the word itself in their base, and nothing else. */
  lemma PlainFormat(c: char, w: u32)
    requires c in "diuxX"
    ensures CString(['%', c, '\0']) && Format(['%', c, '\0'], 0, [Word(w)], 0) == PlainText(c, w)
  {
    hide Parsed, Converted, PlainText;
    var f, args := ['%', c, '\0'], [Word(w)];
    ParsedPlain(f, c, args);
    ConvertedPlain(f, c, w);
    assert Format(f, 2, args, 1) == "";
    assert PlainText(c, w) + "" == PlainText(c, w);
  }

  /** Reading them back: the hexadecimal text is worth the word, and skip_atoi returns what is at most INT_MAX. */
  lemma PlainReadsBack(c: char, w: u32)
    requires c in "diuxX"
    ensures CString(['%', c, '\0'])
    ensures var text, n: int := Format(['%', c, '\0'], 0, [Word(w)], 0), Signed(w);
            && (c == 'x' || c == 'X' ==> Value(text, 16) == w)
            && (c == 'u' ==> (Scanned(text + "\0", 0) == w <==> w < INT_LIMIT))
            && ((c == 'd' || c == 'i') && n >= 0 ==> Scanned(text + "\0", 0) == n)
            && ((c == 'd' || c == 'i') && n < 0 ==> text != "" && text[0] == '-' && Value(text[1..], 10) == -n)
  {
    PlainFormat(c, w);
    hide Format, Digits, Value, Scanned, Run, Signed, CString;
    var n: int := Signed(w);
    if c == 'x' || c == 'X' {
      DigitsValue(w, 16, c == 'X');
    } else if c == 'u' {
      PrintedScan(w);
    } else if n >= 0 {
      PrintedScan(n);
    } else {
      DigitsValue(-n, 10, false);
      assert ("-" + Digits(-n, 10, false))[1..] == Digits(-n, 10, false);
    }
  }

  lemma PrintedScan(n: nat)
    ensures Scanned(Digits(n, 10, false) + "\0", 0) == n <==> n < INT_LIMIT
  {
    ScansPrinted(n, "", "\0", false);
    assert "" + Digits(n, 10, false) + "\0" == Digits(n, 10, false) + "\0";
  }

  lemma ParsedPlain(f: string, c: char, args: seq<Arg>)
    requires c in "diuxX" && f == ['%', c, '\0']
    ensures CString(f) && Parsed(f, 1, args, 0) == Directive(NO_FLAGS, -1, -1, '\0', 1, 0)
  {
    hide Scanned, Run;
    assert AddFlag(c, NO_FLAGS) == None && !IsDigit(c);
    assert Flagged(f, 1, NO_FLAGS) == (NO_FLAGS, 1);
    assert Widened(f, 1, NO_FLAGS, args, 0) == Directive(NO_FLAGS, -1, -1, '\0', 1, 0);
  }

  lemma ConvertedPlain(f: string, c: char, w: u32)
    requires c in "diuxX" && f == ['%', c, '\0'] && CString(f)
    ensures Converted(f, Directive(NO_FLAGS, -1, -1, '\0', 1, 0), [Word(w)]) == (PlainText(c, w), 2, 1)
  {
    hide NumberText, PlainText, Padded, Shown, PointerText;
    PlainNumberText(c, w);
  }

  lemma PlainNumberText(c: char, w: u32)
    requires c in "diuxX"
    ensures NumberText(c, Directive(NO_FLAGS, -1, -1, '\0', 1, 0), w) == PlainText(c, w)
  {
    hide Digits, Signed, Number, Unsigned;
    var fl := NO_FLAGS.(sign := c == 'd' || c == 'i', large := c == 'X');
    SignedBack(w);
    PlainNumber(Signed(w), if c == 'x' || c == 'X' then 16 else 10, fl);
  }

  lemma SignedBack(w: u32)
    ensures Unsigned(Signed(w)) == w && (Signed(w) >= 0 ==> Signed(w) == w)
  {
  }

  /** Without width and precision only sign and digits are printed, whatever the flags. */
  lemma PlainNumber(num: i32, base: int, fl: Flags)
    ensures Number(num, base, -1, -1, fl) == SignText(num, fl) + NumberDigits(num, base, fl)
  {
    hide NumberDigits, SignText, Repeat;
    var pad := Padding(num, base, -1, -1, fl);
    RepeatNone(' ', pad);
    RepeatNone('0', pad);
    RepeatNone(' ', 0);
    RepeatNone('0', 0);
    RepeatNone('0', -1 - |NumberDigits(num, base, fl)|);
  }

  // ----- the code -----

  method ParseFlags(f: string, start: nat) returns (fl: Flags, p: nat)
    requires CString(f) && start + 1 < |f|
    ensures (fl, p) == Flagged(f, start + 1, NO_FLAGS)
    ensures start < p < |f|
  {
    fl, p := NO_FLAGS, start;
    while true
      invariant start <= p && p + 1 < |f|
      invariant Flagged(f, p + 1, fl) == Flagged(f, start + 1, NO_FLAGS)
      decreases |f| - p
    {
      p := p + 1;
      if f[p] == '-' {
        fl := fl.(left := true);
      } else if f[p] == '+' {
        fl := fl.(plus := true);
      } else if f[p] == ' ' {
        fl := fl.(space := true);
      } else if f[p] == '#' {
      } else if f[p] == '0' {
        fl := fl.(zeropad := true);
      } else {
        break;
      }
    }
  }

  method ParseWidth(f: string, start: nat, flags: Flags, args: seq<Arg>, arg: nat) returns (d: Directive)
    requires CString(f) && start < |f|
    ensures d == Widened(f, start, flags, args, arg)
  {
    var width: int, fl, p, a := -1, flags, start, arg;
    if IsDigit(f[p]) {
      width, p := SkipAtoi(f, p);
    } else if f[p] == '*' {
      p := p + 1;
      width, a := Signed(WordArg(args, a)), a + 1;
      if width < 0 {
        width := -width;
        fl := fl.(left := true);
      }
    }
    d := Directive(fl, width, -1, '\0', p, a);
  }

  method ParsePrecision(f: string, d: Directive, args: seq<Arg>) returns (r: Directive)
    requires CString(f) && d.p < |f|
    ensures r == Refined(f, d, args)
  {
    var precision, p, a := d.prec, d.p, d.a;
    if f[p] == '.' {
      p, precision := p + 1, -1;
      if IsDigit(f[p]) {
        precision, p := SkipAtoi(f, p);
      } else if f[p] == '*' {
        p := p + 1;
        precision, a := Signed(WordArg(args, a)), a + 1;
      }
      if precision < 0 {
        precision := 0;
      }
    }
    r := d.(prec := precision, p := p, a := a);
  }

  /** Flags, width, precision and qualifier of the directive whose `%` is at `start`. */
  method Parse(f: string, start: nat, args: seq<Arg>, a: nat) returns (d: Directive)
    requires CString(f) && start + 1 < |f|
    ensures d == Parsed(f, start + 1, args, a)
  {
    var fl, p := ParseFlags(f, start);
    d := ParseWidth(f, p, fl, args, a);
    d := ParsePrecision(f, d, args);
    if f[d.p] == 'h' || f[d.p] == 'l' {
      d := d.(qual := f[d.p], p := d.p + 1);
    }
  }

  /** The loops `while (--n > 0)` that put blanks. */
  method FillLess(mem: array<char>, str: nat, end: nat, n: int, ghost m0: Start, ghost out: string)
    returns (next: nat, left: int)
    requires Shows(mem[..], str, m0, out, end)
    modifies mem
    ensures Shows(mem[..], next, m0, out + Repeat(' ', n - 1), end)
    ensures left == if n > 1 then 0 else n - 1
  {
    hide Shows;
    next, left := str, n - 1;
    assert out + Repeat(' ', 0) == out;
    while left > 0
      invariant if n > 1 then 0 <= left <= n - 1 else left == n - 1
      invariant Shows(mem[..], next, m0, out + Repeat(' ', n - 1 - left), end)
    {
      next := PutOne(mem, next, end, ' ', m0, out + Repeat(' ', n - 1 - left));
      assert (out + Repeat(' ', n - 1 - left)) + [' '] == out + Repeat(' ', n - left);
      left := left - 1;
    }
    assert n <= 1 ==> Repeat(' ', n - 1) == Repeat(' ', 0);
  }

  method PutChar(mem: array<char>, str: nat, end: nat, c: char, width: int, alignLeft: bool, ghost m0: Start,
                 ghost out: string)
    returns (next: nat)
    requires Shows(mem[..], str, m0, out, end)
    modifies mem
    ensures Shows(mem[..], next, m0, out + Padded([c], width, alignLeft), end)
  {
    hide Shows, Repeat;
    var fieldWidth := width;
    next := str;
    ghost var o := out;
    if !alignLeft {
      next, fieldWidth := FillLess(mem, next, end, fieldWidth, m0, o);
      o := o + Repeat(' ', width - 1);
    }
    next := PutOne(mem, next, end, c, m0, o);
    o := o + [c];
    ghost var rest := fieldWidth;
    next, fieldWidth := FillLess(mem, next, end, fieldWidth, m0, o);
    if alignLeft {
      assert o + Repeat(' ', rest - 1) == out + Padded([c], width, alignLeft);
    } else {
      RepeatNone(' ', rest - 1);
      assert o + "" == out + Padded([c], width, alignLeft);
    }
  }

  /** The scan of %s: characters up to the NUL, the field width and a positive precision. */
  method ScanText(s: string, fieldWidth: int, precision: int) returns (len: nat)
    requires CString(s)
    ensures len == Shown(s, fieldWidth, precision)
  {
    len := 0;
    while len != fieldWidth && s[len] != '\0'
      invariant len < |s| && (fieldWidth < 0 || len <= fieldWidth)
      decreases |s| - len
    {
      len := len + 1;
    }
    if precision > 0 && len > precision {
      len := precision;
    }
  }

  method PutText(mem: array<char>, str: nat, end: nat, s: string, width: int, precision: int, alignLeft: bool,
                 ghost m0: Start, ghost out: string)
    returns (next: nat)
    requires CString(s) && Shows(mem[..], str, m0, out, end)
    modifies mem
    ensures Shows(mem[..], next, m0, out + Padded(s[..Shown(s, width, precision)], width, alignLeft), end)
  {
    hide Shows, Repeat, Shown, CString;
    var len := ScanText(s, width, precision);
    var fieldWidth := width;
    next := str;
    ghost var o, text := out, s[..len];
    if !alignLeft {
      next, fieldWidth := Fill(mem, next, end, ' ', len, fieldWidth, m0, o);
      o := o + Repeat(' ', width - len);
    }
    assert o + s[..0] == o;
    for i := 0 to len
      invariant Shows(mem[..], next, m0, o + s[..i], end)
    {
      next := PutOne(mem, next, end, s[i], m0, o + s[..i]);
      assert (o + s[..i]) + [s[i]] == o + s[..i + 1];
    }
    o := o + text;
    ghost var rest := fieldWidth;
    next, fieldWidth := Fill(mem, next, end, ' ', len, fieldWidth, m0, o);
    if alignLeft {
      assert o + Repeat(' ', rest - len) == out + Padded(text, width, alignLeft);
    } else {
      RepeatNone(' ', rest - len);
      assert o + "" == out + Padded(text, width, alignLeft);
    }
  }

  /** A directive with nothing to convert: the percent sign, and the character after it unless the format ends. */
  method PutUnknown(mem: array<char>, str: nat, end: nat, c: char, ghost m0: Start, ghost out: string)
    returns (next: nat)
    requires Shows(mem[..], str, m0, out, end)
    modifies mem
    ensures Shows(mem[..], next, m0, out + (if c == '\0' then "%" else ['%', c]), end)
  {
    next := PutOne(mem, str, end, '%', m0, out);
    if c != '\0' {
      next := PutOne(mem, next, end, c, m0, out + "%");
      assert (out + "%") + [c] == out + ['%', c];
    }
  }

  method PutNumeric(mem: array<char>, str: nat, end: nat, c: char, d: Directive, arg: u32, ghost m0: Start,
                    ghost out: string)
    returns (next: nat)
    requires IsNumeric(c) && Shows(mem[..], str, m0, out, end)
    modifies mem
    ensures Shows(mem[..], next, m0, out + NumberText(c, d, arg), end)
  {
    hide Shows, Number;
    var base, flags := 10, d.fl.(sign := false, large := false);
    if c == 'o' {
      base := 8;
    } else if c == 'X' {
      flags := flags.(large := true);
      base := 16;
    } else if c == 'x' {
      base := 16;
    } else if c == 'd' || c == 'i' {
      flags := flags.(sign := true);
    }
    var num: i32 := Narrowed(arg, d.qual, flags.sign);
    next := PrintNumber(mem, str, end, num, base, d.width, d.prec, flags, m0, out);
  }

  method PutPointer(mem: array<char>, str: nat, end: nat, d: Directive, arg: u32, ghost m0: Start,
                    ghost out: string)
    returns (next: nat)
    requires Shows(mem[..], str, m0, out, end)
    modifies mem
    ensures Shows(mem[..], next, m0, out + PointerText(d, arg), end)
  {
    hide Shows, Number;
    var fieldWidth, flags := d.width, d.fl;
    if fieldWidth == -1 {
      fieldWidth := 8;
      flags := flags.(zeropad := true);
    }
    next := PrintNumber(mem, str, end, Signed(arg), 16, fieldWidth, d.prec, flags, m0, out);
  }

  /** The switch over the conversion character. */
  method Convert(mem: array<char>, str: nat, end: nat, f: string, d: Directive, args: seq<Arg>, ghost m0: Start,
                 ghost out: string)
    returns (next: nat, p: nat, a: nat)
    requires CString(f) && d.p < |f| && ArgsOk(args)
    requires Shows(mem[..], str, m0, out, end)
    modifies mem
    ensures var (t, q, b) := Converted(f, d, args);
            Shows(mem[..], next, m0, out + t, end) && p == q && a == b
  {
    hide Shows, Padded, PointerText, NumberText, IsNumeric, CString, ArgsOk;
    var c := f[d.p];
    p, a := d.p + 1, d.a;
    if c == 'c' {
      next := PutChar(mem, str, end, CharArg(args, a), d.width, d.fl.left, m0, out);
      a := a + 1;
    } else if c == 's' {
      next := PutText(mem, str, end, TextArg(args, a), d.width, d.prec, d.fl.left, m0, out);
      a := a + 1;
    } else if c == 'p' {
      next := PutPointer(mem, str, end, d, WordArg(args, a), m0, out);
      a := a + 1;
    } else if c == '%' {
      next := PutOne(mem, str, end, '%', m0, out);
    } else if IsNumeric(c) {
      next := PutNumeric(mem, str, end, c, d, WordArg(args, a), m0, out);
      a := a + 1;
    } else {
      next := PutUnknown(mem, str, end, c, m0, out);
      if c == '\0' {
        p := p - 1;
      }
    }
  }

  // ----- the whole call -----

  /** The size the code works with: a buffer that would wrap around the address space ends at its last byte. */
  function Effective(address: u32, size: u32): nat {
    if address + size < WORD_LIMIT then size else WORD_LIMIT - 1 - address
  }

  /** Memory after the call, for whatever text: the characters, and the NUL unless the buffer has no room at all. */
  function Written(m0: Start, out: string, room: nat): seq<char>
    requires m0.address + room <= |m0.memory|
  {
    var m, end := Stored(m0, out, m0.address + room), m0.address + room;
    if room == 0 then m else m[if At(m0, |out|) < end then At(m0, |out|) else end - 1 := '\0']
  }

  /** A bounded buffer after the text `out`: as much as fits in front of one NUL, and nothing else touched. */
  ghost predicate Truncated(m0: seq<char>, m: seq<char>, address: nat, out: string, room: nat) {
    && |m| == |m0| && address + room <= |m|
    && if room == 0 then m == m0
       else var n := Min(|out|, room - 1);
            && m[address..address + n] == out[..n] && m[address + n] == '\0'
            && m[..address] == m0[..address] && m[address + n + 1..] == m0[address + n + 1..]
  }

  /** The pointer does not come around the address space while `len` characters are put out. */
  predicate Fits(address: u32, room: nat, len: nat) {
    address + len < WORD_LIMIT || (room == 0 && address + len == WORD_LIMIT)
  }

  /** Each comparison `str < end` of a call tells whether there is room for one more character. */
  predicate Tells(address: u32, room: nat, k: nat) {
    (address + k) % WORD_LIMIT < address + room <==> k < room
  }

  /** The comparisons are right for every pointer from the first to the last one exactly if the last one does not wrap. */
  lemma PointersTell(address: u32, room: nat, len: nat)
    requires address + room < WORD_LIMIT && address + room > 0
    ensures (forall k: nat :: k <= len ==> Tells(address, room, k)) <==> address + len < WORD_LIMIT
  {
    if address + len < WORD_LIMIT {
      forall k: nat | k <= len
        ensures Tells(address, room, k)
      {
      }
    } else {
      assert !Tells(address, room, WORD_LIMIT - address);
    }
  }

  /** Without a wrap the characters lie side by side. */
  lemma {:induction false} StoredFlat(m0: Start, out: string, end: nat)
    requires end <= |m0.memory| && m0.address + |out| <= WORD_LIMIT
    ensures forall p :: 0 <= p < |m0.memory| ==>
              Stored(m0, out, end)[p]
              == if m0.address <= p < end && p - m0.address < |out| then out[p - m0.address] else m0.memory[p]
    decreases |out|
  {
    if out != "" {
      var n := |out| - 1;
      StoredFlat(m0, out[..n], end);
      assert At(m0, n) == m0.address + n;
    }
  }

  lemma TruncatedIf(m0: Start, out: string, room: nat)
    requires m0.address + room <= |m0.memory| && m0.address + room < WORD_LIMIT && Fits(m0.address, room, |out|)
    ensures Truncated(m0.memory, Written(m0, out, room), m0.address, out, room)
  {
    StoredFlat(m0, out, m0.address + room);
    if room > 0 {
      LastPointer(m0, out);
      hide Stored, Truncated, At;
      FlatTruncated(m0.memory, Stored(m0, out, m0.address + room), m0.address, out, room);
    } else {
      hide Stored;
      assert Written(m0, out, room) == m0.memory;
    }
  }

  lemma LastPointer(m0: Start, out: string)
    requires m0.address + |out| < WORD_LIMIT
    ensures At(m0, |out|) == m0.address + |out|
  {
  }

  lemma FlatTruncated(m0: seq<char>, m: seq<char>, address: nat, out: string, room: nat)
    requires 0 < room && address + room <= |m0| == |m|
    requires forall p :: 0 <= p < |m| ==>
               m[p] == if address <= p < address + room && p - address < |out| then out[p - address] else m0[p]
    ensures Truncated(m0, m[address + Min(|out|, room - 1) := '\0'], address, out, room)
  {
    var n := Min(|out|, room - 1);
    var m' := m[address + n := '\0'];
    assert m'[..address] == m0[..address];
    assert m'[address..address + n] == out[..n];
    assert m'[address + n + 1..] == m0[address + n + 1..];
  }

  /** When the pointer came around, what lies at address 0 is the program's memory no longer. */
  lemma {:induction false} FirstCell(m0: Start, m1: Start, out: string, end: nat)
    requires m0.address == m1.address > 0 && |m0.memory| == |m1.memory| && 0 < end <= |m0.memory|
    requires m0.address + |out| > WORD_LIMIT
    ensures Stored(m0, out, end)[0] == Stored(m1, out, end)[0]
    decreases |out|
  {
    var n := |out| - 1;
    if m0.address + n > WORD_LIMIT {
      FirstCell(m0, m1, out[..n], end);
    } else {
      assert At(m0, n) == 0 == At(m1, n);
    }
  }

  lemma WrittenFirst(m0: Start, m1: Start, out: string, room: nat)
    requires m0.address == m1.address > 0 && |m0.memory| == |m1.memory| && m0.address + room <= |m0.memory|
    requires m0.address + room < WORD_LIMIT && !Fits(m0.address, room, |out|)
    ensures Written(m0, out, room)[0] == Written(m1, out, room)[0]
  {
    hide Stored;
    if m0.address + |out| > WORD_LIMIT {
      FirstCell(m0, m1, out, m0.address + room);
    } else {
      assert At(m0, |out|) == 0;
    }
  }

  ghost predicate AlwaysTruncated(size: nat, address: u32, out: string, room: nat)
    requires address + room <= size
  {
    forall memory: seq<char> :: |memory| == size ==>
      Truncated(memory, Written(Start(memory, address), out, room), address, out, room)
  }

  /** The exact condition: whatever is in memory, the call truncates as it should exactly if the pointer does not wrap. */
  lemma TruncatesExactly(size: nat, address: u32, out: string, room: nat)
    requires 0 < address && address + room <= size && address + room < WORD_LIMIT
    ensures AlwaysTruncated(size, address, out, room) <==> Fits(address, room, |out|)
  {
    hide Written, Fits, Truncated;
    if Fits(address, room, |out|) {
      forall memory: seq<char> | |memory| == size
        ensures Truncated(memory, Written(Start(memory, address), out, room), address, out, room)
      {
        TruncatedIf(Start(memory, address), out, room);
      }
    } else {
      var a, b := seq(size, _ => 'a'), seq(size, _ => 'b');
      WrittenFirst(Start(a, address), Start(b, address), out, room);
      if AlwaysTruncated(size, address, out, room) {
        BelowKept(a, Written(Start(a, address), out, room), address, out, room);
        BelowKept(b, Written(Start(b, address), out, room), address, out, room);
        assert false;
      }
    }
  }

  lemma BelowKept(m0: seq<char>, m: seq<char>, address: nat, out: string, room: nat)
    requires Truncated(m0, m, address, out, room) && 0 < address
    ensures |m| == |m0| > 0 || address == room == 0
    ensures address <= |m0| && |m| == |m0| && m[0] == m0[0]
  {
    assert m[..address][0] == m0[..address][0];
  }

  /** A width is enough to bring the pointer around: the NUL then never reaches this buffer of sixteen bytes. */
  lemma WideField()
    ensures CString("%*d\0") && ArgsOk([Word(0x3000_0001), Word(7)])
    ensures var text := Format("%*d\0", 0, [Word(0x3000_0001), Word(7)], 0);
            |text| == 0x3000_0001 && !Fits(0xD000_0000, Effective(0xD000_0000, 16), |text|)
  {
    hide Parsed, Converted, NumberText, Format;
    var f, args := "%*d\0", [Word(0x3000_0001), Word(7)];
    var d := Directive(NO_FLAGS, 0x3000_0001, -1, '\0', 2, 1);
    WideParsed(f, args);
    WideConverted(f, d, args);
    WideText(d);
    FormatDirective(f, 0, args, 0, "");
    FormatEnd(f, 3, args, 2, NumberText('d', d, 7));
    Unprefixed(Format(f, 0, args, 0));
    Unprefixed(NumberText('d', d, 7));
  }

  lemma Unprefixed(s: string)
    ensures "" + s == s
  {
  }

  lemma WideConverted(f: string, d: Directive, args: seq<Arg>)
    requires f == "%*d\0" && args == [Word(0x3000_0001), Word(7)]
    requires d == Directive(NO_FLAGS, 0x3000_0001, -1, '\0', 2, 1)
    ensures CString(f) && ArgsOk(args) && Converted(f, d, args) == (NumberText('d', d, 7), 3, 2)
  {
    hide NumberText, Padded, Shown, PointerText;
  }

  lemma WideParsed(f: string, args: seq<Arg>)
    requires f == "%*d\0" && args == [Word(0x3000_0001), Word(7)]
    ensures Parsed(f, 1, args, 0) == Directive(NO_FLAGS, 0x3000_0001, -1, '\0', 2, 1)
  {
    hide Scanned, Run;
    assert Flagged(f, 1, NO_FLAGS) == (NO_FLAGS, 1);
    assert Amount(f, 1, -1, args, 0) == (0x3000_0001, 2, 1);
  }

  lemma WideText(d: Directive)
    requires d == Directive(NO_FLAGS, 0x3000_0001, -1, '\0', 2, 1)
    ensures |NumberText('d', d, 7)| == 0x3000_0001
  {
    var fl := NO_FLAGS.(sign := true);
    assert NumberDigits(7, 10, fl) == "7";
    NumberLength(7, 10, 0x3000_0001, -1, fl);
    hide Number, NumberDigits;
    assert NumberText('d', d, 7) == Number(7, 10, 0x3000_0001, -1, fl);
  }

  lemma FormatEnd(f: string, p: nat, args: seq<Arg>, a: nat, out: string)
    requires CString(f) && p < |f| && ArgsOk(args) && f[p] == '\0'
    ensures out + Format(f, p, args, a) == out
  {
  }

  lemma FormatPlain(f: string, p: nat, args: seq<Arg>, a: nat, out: string)
    requires CString(f) && p < |f| && ArgsOk(args) && f[p] != '\0' && f[p] != '%'
    ensures p + 1 < |f| && (out + [f[p]]) + Format(f, p + 1, args, a) == out + Format(f, p, args, a)
  {
    hide Parsed, Converted;
    assert (out + [f[p]]) + Format(f, p + 1, args, a) == out + ([f[p]] + Format(f, p + 1, args, a));
  }

  lemma FormatDirective(f: string, p: nat, args: seq<Arg>, a: nat, out: string)
    requires CString(f) && p < |f| && ArgsOk(args) && f[p] == '%'
    ensures p + 1 < |f|
    ensures var (t, q, b) := Converted(f, Parsed(f, p + 1, args, a), args);
            p < q < |f| && (out + t) + Format(f, q, args, b) == out + Format(f, p, args, a)
  {
    hide Parsed, Converted;
    var (t, q, b) := Converted(f, Parsed(f, p + 1, args, a), args);
    assert (out + t) + Format(f, q, args, b) == out + (t + Format(f, q, args, b));
  }

  /** The loop of rt_vsnprintf. */
  method Expand(mem: array<char>, address: u32, end: nat, f: string, args: seq<Arg>) returns (str: nat)
    requires end <= mem.Length && CString(f) && ArgsOk(args)
    modifies mem
    ensures Shows(mem[..], str, Start(old(mem[..]), address), Format(f, 0, args, 0), end)
  {
    hide Shows, Parsed, Converted, Format, CString, ArgsOk;
    StringStart(f);
    ghost var m0, all := Start(mem[..], address), Format(f, 0, args, 0);
    ghost var out := "";
    var fmt, a := 0, 0;
    str := address;
    Begins(m0, end);
    assert out + Format(f, fmt, args, a) == all;
    while f[fmt] != '\0'
      invariant fmt < |f| && Shows(mem[..], str, m0, out, end)
      invariant out + Format(f, fmt, args, a) == all
      decreases |f| - fmt
    {
      if f[fmt] != '%' {
        FormatPlain(f, fmt, args, a, out);
        str := PutOne(mem, str, end, f[fmt], m0, out);
        out := out + [f[fmt]];
        fmt := fmt + 1;
      } else {
        FormatDirective(f, fmt, args, a, out);
        var d := Parse(f, fmt, args, a);
        ghost var (t, q, b) := Converted(f, d, args);
        str, fmt, a := Convert(mem, str, end, f, d, args, m0, out);
        out := out + t;
      }
    }
    FormatEnd(f, fmt, args, a, out);
  }

  lemma Begins(m0: Start, end: nat)
    requires end <= |m0.memory|
    ensures Shows(m0.memory, m0.address, m0, "", end)
  {
  }

  lemma StringStart(f: string)
    requires CString(f)
    ensures |f| > 0
  {
  }

  /** The comparison `end < buf` that catches a size reaching around the address space. */
  method Bounds(address: u32, size: u32) returns (end: u32, room: nat)
    ensures room == Effective(address, size) && end == address + room
  {
    end, room := (address + size) % WORD_LIMIT, size;
    if end < address {
      end := WORD_LIMIT - 1;
      room := end - address;
    }
  }

  /** The NUL at the end. */
  method Terminate(mem: array<char>, str: nat, end: nat, room: nat, ghost m0: Start, ghost out: string)
    requires end == m0.address + room <= mem.Length && Shows(mem[..], str, m0, out, end)
    modifies mem
    ensures m0.address + room <= |m0.memory| && mem[..] == Written(m0, out, room)
  {
    hide Stored;
    if room > 0 {
      if str < end {
        mem[str] := '\0';
      } else {
        mem[end - 1] := '\0';
      }
    }
  }

  /** str - buf, as an int: the number of characters put out, modulo 2^32. */
  lemma Distance(m0: Start, n: nat)
    ensures Signed(At(m0, n) - m0.address) == Signed(n)
  {
    assert (m0.address + n - At(m0, n)) % WORD_LIMIT == 0;
    SameResidue(At(m0, n) - m0.address, n);
  }

  /**
   rt_vsnprintf. The contract says what becomes of all memory, for every text. As long as the pointer does not come
   around the address space, the first characters of the text and one NUL are in the buffer and nothing else is touched,
   whatever the size. The result is the length of the whole text, as an int. The format is never read beyond its NUL.
   */
  method Vsnprintf(mem: array<char>, address: u32, size: u32, f: string, args: seq<Arg>) returns (len: i32)
    requires address + Effective(address, size) <= mem.Length && CString(f) && ArgsOk(args)
    modifies mem
    ensures mem[..] == Written(Start(old(mem[..]), address), Format(f, 0, args, 0), Effective(address, size))
    ensures len == Signed(|Format(f, 0, args, 0)|)
    ensures len == |Format(f, 0, args, 0)| <==> |Format(f, 0, args, 0)| < INT_LIMIT
    ensures Fits(address, Effective(address, size), |Format(f, 0, args, 0)|) ==>
              Truncated(old(mem[..]), mem[..], address, Format(f, 0, args, 0), Effective(address, size))
  {
    hide Format, CString, ArgsOk, Truncated, Fits, Stored, At, Written, Signed;
    StringStart(f);
    ghost var m0, text := Start(mem[..], address), Format(f, 0, args, 0);
    var end, room := Bounds(address, size);
    var str := Expand(mem, address, end, f, args);
    Terminate(mem, str, end, room, m0, text);
    len := Signed(str - address);
    Distance(m0, |text|);
    SignedSmall(|text|);
    if Fits(address, room, |text|) {
      TruncatedIf(m0, text, room);
    }
  }

  /** rt_vsprintf: the text arrives whole when it ends below the last byte of the address space. */
  method Vsprintf(mem: array<char>, address: u32, f: string, args: seq<Arg>) returns (len: i32)
    requires address > 0 && mem.Length >= WORD_LIMIT - 1 && CString(f) && ArgsOk(args)
    requires address + |Format(f, 0, args, 0)| < WORD_LIMIT - 1
    modifies mem
    ensures len == Signed(|Format(f, 0, args, 0)|)
    ensures var n := |Format(f, 0, args, 0)|;
            && mem[address..address + n] == Format(f, 0, args, 0) && mem[address + n] == '\0'
            && mem[..address] == old(mem[..address]) && mem[address + n + 1..] == old(mem[address + n + 1..])
  {
    hide Format, Written;
    len := Vsnprintf(mem, address, WORD_LIMIT - 1, f, args);
  }
}
