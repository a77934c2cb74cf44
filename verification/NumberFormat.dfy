/**
 Numbers as text: the division by ten or sixteen, the field parser and the number printer behind every formatted
 output. `long` and `int` have 32 bits and wrap.
 */
module NumberFormat {
  import opened Bytes
  import opened Distinct

  const INT_LIMIT := 0x8000_0000
  const TMP_SIZE := 16

  type i32 = x: int | -INT_LIMIT <= x < INT_LIMIT

  function Signed(x: int): (r: i32)
    ensures (r - x) % WORD_LIMIT == 0
  {
    var w := x % WORD_LIMIT;
    if w < INT_LIMIT then w else w - WORD_LIMIT
  }

  function Unsigned(n: i32): (r: u32) {
    if n < 0 then n + WORD_LIMIT else n
  }

  /** -n, where the least number negates to itself. */
  function Negate(n: i32): i32 {
    if n == -INT_LIMIT then n else -n
  }

  // ----- divide -----

  /** The base divide really uses: every base but ten counts as sixteen. */
  function Radix(base: int): (b: nat)
    ensures b == 10 || b == 16
  {
    if base == 10 then 10 else 16
  }

  /** One digit of the number taken as unsigned, and the number without it. */
  method Divide(n: i32, base: int) returns (res: nat, rest: i32)
    ensures res < Radix(base) && 0 <= rest && Unsigned(n) == rest * Radix(base) + res
  {
    var u := Unsigned(n);
    if base == 10 {
      res, rest := u % 10, u / 10;
    } else {
      res, rest := u % 16, u / 16;
    }
  }

  // ----- digits -----

  function DigitChar(d: nat, large: bool): char
    requires d < 16
  {
    if d < 10 then '0' + d as char else if large then 'A' + (d - 10) as char else 'a' + (d - 10) as char
  }

  function DigitValue(c: char): nat {
    if '0' <= c <= '9' then (c - '0') as nat
    else if 'A' <= c <= 'F' then (c - 'A') as nat + 10
    else if 'a' <= c <= 'f' then (c - 'a') as nat + 10
    else 0
  }

  lemma DigitRoundTrip(d: nat, large: bool)
    requires d < 16
    ensures DigitValue(DigitChar(d, large)) == d
  {
  }

  /** The positional notation of `v`, without leading zeros. */
  function Digits(v: nat, b: nat, large: bool): (s: string)
    requires b == 10 || b == 16
    ensures |s| > 0
    decreases v
  {
    if v < b then [DigitChar(v, large)] else Digits(v / b, b, large) + [DigitChar(v % b, large)]
  }

  /** What a string of digits stands for in base `b`. */
  function Value(s: string, b: nat): nat {
    if s == "" then 0 else Value(s[..|s| - 1], b) * b + DigitValue(s[|s| - 1])
  }

  lemma ValueSnoc(s: string, c: char, b: nat)
    ensures Value(s + [c], b) == Value(s, b) * b + DigitValue(c)
  {
  }

  /** The digits evaluate back to the number, in base ten and in base sixteen. */
  lemma {:induction false} DigitsValue(v: nat, b: nat, large: bool)
    requires b == 10 || b == 16
    ensures Value(Digits(v, b, large), b) == v
  {
    DigitRoundTrip(v % b, large);
    if v < b {
      assert Digits(v, b, large) == "" + [DigitChar(v, large)];
      ValueSnoc("", DigitChar(v, large), b);
    } else {
      DigitsValue(v / b, b, large);
      ValueSnoc(Digits(v / b, b, large), DigitChar(v % b, large), b);
    }
  }

  predicate CaseOk(c: char, large: bool) {
    IsDigit(c) || if large then 'A' <= c <= 'F' else 'a' <= c <= 'f'
  }

  lemma DigitCase(d: nat, large: bool)
    requires d < 16
    ensures CaseOk(DigitChar(d, large), large)
  {
  }

  /** The letters among them are capitals for a large conversion and small ones for any other. */
  lemma {:induction false} DigitsCase(v: nat, b: nat, large: bool, k: nat)
    requires (b == 10 || b == 16) && k < |Digits(v, b, large)|
    ensures CaseOk(Digits(v, b, large)[k], large)
  {
    hide DigitChar, CaseOk;
    DigitCase(v % b, large);
    if v >= b && k < |Digits(v / b, b, large)| {
      DigitsCase(v / b, b, large, k);
    }
  }

  function Pow(b: nat, n: nat): nat {
    if n == 0 then 1 else b * Pow(b, n - 1)
  }

  lemma Quotient(v: nat, b: nat)
    requires b > 0
    ensures b * (v / b) <= v < b * (v / b + 1)
  {
    assert v == b * (v / b) + v % b;
  }

  lemma MulBound(b: nat, x: nat, y: nat)
    requires x <= y
    ensures b * x <= b * y
  {
  }

  lemma PowStep(b: nat, n: nat, q: nat, v: nat)
    requires 0 < n && b * q <= v < b * (q + 1) && q < Pow(b, n)
    ensures v < Pow(b, n + 1) && (Pow(b, n - 1) <= q ==> Pow(b, n) <= v)
  {
    var low, high := Pow(b, n - 1), Pow(b, n);
    assert Pow(b, n + 1) == b * high && high == b * low;
    hide Pow;
    MulBound(b, q + 1, high);
    if low <= q {
      MulBound(b, low, q);
    }
  }

  /** There are as many digits as needed and no more. */
  lemma {:induction false} DigitsLength(v: nat, b: nat, large: bool)
    requires b == 10 || b == 16
    ensures v < Pow(b, |Digits(v, b, large)|)
    ensures v > 0 ==> Pow(b, |Digits(v, b, large)| - 1) <= v
  {
    if v >= b {
      DigitsLength(v / b, b, large);
      Quotient(v, b);
      PowStep(b, |Digits(v / b, b, large)|, v / b, v);
    } else {
      assert Pow(b, 1) == b * Pow(b, 0);
    }
  }

  lemma {:induction false} PowGrows(b: nat, m: nat, n: nat)
    requires b > 0 && m <= n
    ensures 0 < Pow(b, m) <= Pow(b, n)
  {
    if m < n {
      PowGrows(b, m, n - 1);
      assert Pow(b, n) == b * Pow(b, n - 1);
    } else if m > 0 {
      PowGrows(b, m - 1, m - 1);
    }
  }

  lemma Powers()
    ensures Pow(10, 10) == 10_000_000_000 && Pow(16, 8) == 0x1_0000_0000
  {
    assert Pow(10, 5) == 100_000;
    assert Pow(10, 10) == 10_000_000_000;
    assert Pow(16, 4) == 0x1_0000;
    assert Pow(16, 8) == 0x1_0000_0000;
  }

  /** A 32-bit number has at most ten decimal or eight hexadecimal digits, so the sixteen cells of `tmp` suffice. */
  lemma DigitsFit(v: u32, b: nat, large: bool)
    requires b == 10 || b == 16
    ensures |Digits(v, b, large)| <= (if b == 10 then 10 else 8) < TMP_SIZE
  {
    var n := |Digits(v, b, large)|;
    DigitsLength(v, b, large);
    Powers();
    if v > 0 && n > (if b == 10 then 10 else 8) {
      PowGrows(b, if b == 10 then 10 else 8, n - 1);
    }
  }

  /** Base eight, which a caller of the octal conversion expects. */
  function Octal(v: nat): (s: string)
    ensures |s| > 0
  {
    if v < 8 then [DigitChar(v, false)] else Octal(v / 8) + [DigitChar(v % 8, false)]
  }

  /** Read in base sixteen, octal digits are worth more than the number as soon as there are two of them. */
  lemma {:induction false} OctalAsHex(v: nat)
    ensures if v < 8 then Value(Octal(v), 16) == v else Value(Octal(v), 16) > v
  {
    DigitRoundTrip(v % 8, false);
    if v < 8 {
      assert Octal(v) == "" + [DigitChar(v, false)];
      ValueSnoc("", DigitChar(v, false), 16);
    } else {
      OctalAsHex(v / 8);
      ValueSnoc(Octal(v / 8), DigitChar(v % 8, false), 16);
    }
  }

  /** Asked for base eight, the conversion yields octal digits exactly for the numbers below eight. */
  lemma OctalPrinted(v: nat, large: bool)
    ensures Digits(v, Radix(8), large) == Octal(v) <==> v < 8
  {
    DigitsValue(v, 16, large);
    OctalAsHex(v);
    if v < 8 {
      assert DigitChar(v, large) == DigitChar(v, false);
    }
  }

  /** Eight is printed as 8. */
  lemma OctalFails()
    ensures Octal(8) == "10" && Digits(8, Radix(8), false) == "8"
  {
    assert Octal(8) == Octal(1) + [DigitChar(0, false)] == "1" + "0";
  }

  // ----- skip_atoi -----

  predicate IsDigit(c: char) {
    '0' <= c <= '9'
  }

  /** A C string: its characters and one NUL at the end. */
  predicate CString(f: string) {
    |f| > 0 && f[|f| - 1] == '\0' && forall k :: 0 <= k < |f| - 1 ==> f[k] != '\0'
  }

  /** The number of digits that follow position `p`. */
  function Run(f: string, p: nat): (n: nat)
    requires p <= |f|
    ensures p + n <= |f| && (p + n < |f| ==> !IsDigit(f[p + n]))
    ensures forall k :: p <= k < p + n ==> IsDigit(f[k])
    decreases |f| - p
  {
    if p < |f| && IsDigit(f[p]) then 1 + Run(f, p + 1) else 0
  }

  lemma RunIs(f: string, p: nat, n: nat)
    requires p + n <= |f| && (p + n < |f| ==> !IsDigit(f[p + n]))
    requires forall k :: p <= k < p + n ==> IsDigit(f[k])
    ensures Run(f, p) == n
    decreases n
  {
  }

  /** The number the parser reads at position `p`. */
  function Scanned(f: string, p: nat): i32
    requires p <= |f|
  {
    Signed(Value(f[p..p + Run(f, p)], 10))
  }

  lemma SameResidue(x: int, y: int)
    requires (x - y) % WORD_LIMIT == 0
    ensures Signed(x) == Signed(y)
  {
    assert x % WORD_LIMIT == y % WORD_LIMIT by {
      Residues(x, y);
    }
  }

  lemma Residues(x: int, y: int)
    requires (x - y) % WORD_LIMIT == 0
    ensures x % WORD_LIMIT == y % WORD_LIMIT
  {
  }

  lemma DividesBack(k: int)
    ensures (k * WORD_LIMIT) % WORD_LIMIT == 0
  {
  }

  lemma Multiples(a: int, b: int, c: int)
    requires a % WORD_LIMIT == 0 && b % WORD_LIMIT == 0 && c % WORD_LIMIT == 0
    ensures (a * 10 + b + c) % WORD_LIMIT == 0
  {
    var k, l, m := a / WORD_LIMIT, b / WORD_LIMIT, c / WORD_LIMIT;
    assert a == k * WORD_LIMIT && b == l * WORD_LIMIT && c == m * WORD_LIMIT;
    assert a * 10 + b + c == (k * 10 + l + m) * WORD_LIMIT;
    DividesBack(k * 10 + l + m);
  }

  /** One round of the parser, wrapping wherever the machine would, adds a digit to the number modulo 2^32. */
  lemma WrapStep(i: i32, v: nat, c: char)
    requires i == Signed(v) && IsDigit(c)
    ensures Signed(Signed(i * 10 + c as int) - '0' as int) == Signed(v * 10 + DigitValue(c))
  {
    var s := Signed(i * 10 + c as int);
    Multiples(i - v, s - (i * 10 + c as int), 0);
    assert (i - v) * 10 + (s - (i * 10 + c as int)) + 0 == (s - '0' as int) - (v * 10 + DigitValue(c));
    SameResidue(s - '0' as int, v * 10 + DigitValue(c));
  }

  lemma ScanStep(f: string, p: nat, next: nat, i: i32)
    requires p <= next < |f| && IsDigit(f[next]) && i == Signed(Value(f[p..next], 10))
    ensures Signed(Signed(i * 10 + f[next] as int) - '0' as int) == Signed(Value(f[p..next + 1], 10))
  {
    hide Signed;
    WrapStep(i, Value(f[p..next], 10), f[next]);
    ValueSnoc(f[p..next], f[next], 10);
    assert f[p..next] + [f[next]] == f[p..next + 1];
  }

  /** skip_atoi: the digits at `p` are consumed; the NUL at the end stops it at the latest. */
  method SkipAtoi(f: string, p: nat) returns (i: i32, next: nat)
    requires CString(f) && p < |f|
    ensures next == p + Run(f, p) < |f| && i == Scanned(f, p)
  {
    hide Signed, Value, Run;
    i, next := 0, p;
    ValueNothing(f, p);
    while IsDigit(f[next])
      invariant p <= next < |f| && forall k :: p <= k < next ==> IsDigit(f[k])
      invariant i == Signed(Value(f[p..next], 10))
      decreases |f| - next
    {
      ScanStep(f, p, next, i);
      i := Signed(Signed(i * 10 + f[next] as int) - '0' as int);
      next := next + 1;
    }
    RunIs(f, p, next - p);
  }

  lemma ValueNothing(f: string, p: nat)
    requires p <= |f|
    ensures Signed(Value(f[p..p], 10)) == 0
  {
  }

  lemma {:induction false} DecimalDigits(v: nat, large: bool)
    ensures forall k :: 0 <= k < |Digits(v, 10, large)| ==> IsDigit(Digits(v, 10, large)[k])
  {
    if v >= 10 {
      DecimalDigits(v / 10, large);
    }
  }

  /** Reading back a printed decimal number yields it exactly when it fits an int. */
  lemma ScansPrinted(n: nat, before: string, after: string, large: bool)
    requires after != "" && !IsDigit(after[0])
    ensures var f := before + Digits(n, 10, large) + after;
            && Run(f, |before|) == |Digits(n, 10, large)|
            && (Scanned(f, |before|) == n <==> n < INT_LIMIT)
  {
    var d := Digits(n, 10, large);
    var f := before + d + after;
    DecimalDigits(n, large);
    hide Digits, Value, Signed;
    forall k | |before| <= k < |before| + |d|
      ensures IsDigit(f[k])
    {
      assert f[k] == d[k - |before|];
    }
    assert f[|before| + |d|] == after[0];
    RunIs(f, |before|, |d|);
    assert f[|before|..|before| + |d|] == d;
    DigitsValue(n, 10, large);
    SignedSmall(n);
  }

  lemma SignedSmall(n: nat)
    ensures Signed(n) == n <==> n < INT_LIMIT
  {
  }

  // ----- the bounded output buffer -----

  /** Memory when the output begins, and the address it begins at. */
  datatype Start = Start(memory: seq<char>, address: u32)

  /** The pointer `k` bytes on, in 32 bits. */
  function At(m0: Start, k: nat): u32 {
    (m0.address + k) % WORD_LIMIT
  }

  /** Memory after the text `out`: each character went where the pointer was, unless that was not below `end`. */
  function Stored(m0: Start, out: string, end: nat): (m: seq<char>)
    requires end <= |m0.memory|
    ensures |m| == |m0.memory|
    decreases |out|
  {
    if out == "" then m0.memory
    else
      var n := |out| - 1;
      var m := Stored(m0, out[..n], end);
      if At(m0, n) < end then m[At(m0, n) := out[n]] else m
  }

  /** `m` is memory, and `str` the pointer, after the text `out`. */
  ghost predicate Shows(m: seq<char>, str: nat, m0: Start, out: string, end: nat) {
    end <= |m0.memory| && m == Stored(m0, out, end) && str == At(m0, |out|)
  }

  lemma StoredSnoc(m0: Start, out: string, c: char, end: nat)
    requires end <= |m0.memory|
    ensures var m, p := Stored(m0, out, end), At(m0, |out|);
            Stored(m0, out + [c], end) == if p < end then m[p := c] else m
  {
    assert (out + [c])[..|out|] == out;
  }

  lemma AtNext(m0: Start, k: nat)
    ensures (At(m0, k) + 1) % WORD_LIMIT == At(m0, k + 1)
  {
  }

  /** The pattern `if (str < end) *str = c; ++str`, where the pointer has 32 bits. */
  method PutOne(mem: array<char>, str: nat, end: nat, c: char, ghost m0: Start, ghost out: string) returns (next: nat)
    requires Shows(mem[..], str, m0, out, end)
    modifies mem
    ensures Shows(mem[..], next, m0, out + [c], end)
  {
    StoredSnoc(m0, out, c, end);
    AtNext(m0, |out|);
    hide Stored, At;
    if str < end {
      mem[str] := c;
    }
    next := (str + 1) % WORD_LIMIT;
  }

  function Repeat(c: char, n: int): (s: string)
    ensures |s| == (if n > 0 then n else 0) && forall k :: 0 <= k < |s| ==> s[k] == c
  {
    if n <= 0 then "" else Repeat(c, n - 1) + [c]
  }

  /** The loops `while (low < n--)`: what they leave in `n` matters to the code after them. */
  method Fill(mem: array<char>, str: nat, end: nat, c: char, low: int, n: int, ghost m0: Start, ghost out: string)
    returns (next: nat, left: int)
    requires Shows(mem[..], str, m0, out, end)
    modifies mem
    ensures Shows(mem[..], next, m0, out + Repeat(c, n - low), end)
    ensures left == (if low < n then low else n) - 1
  {
    hide Shows;
    next, left := str, n;
    assert out + Repeat(c, 0) == out;
    ghost var done := 0;
    while low < left
      invariant done >= 0 && left == n - done && (low < n ==> low <= left) && (low >= n ==> left == n)
      invariant Shows(mem[..], next, m0, out + Repeat(c, done), end)
    {
      left := left - 1;
      next := PutOne(mem, next, end, c, m0, out + Repeat(c, done));
      assert (out + Repeat(c, done)) + [c] == out + Repeat(c, done + 1);
      done := done + 1;
    }
    left := left - 1;
    assert low >= n ==> Repeat(c, n - low) == Repeat(c, done);
  }

  // ----- print_number -----

  datatype Flags = Flags(zeropad: bool, sign: bool, plus: bool, space: bool, left: bool, large: bool)

  function SignText(num: i32, fl: Flags): (s: string)
    ensures |s| <= 1
  {
    if !fl.sign then "" else if num < 0 then "-" else if fl.plus then "+" else if fl.space then " " else ""
  }

  /** The number whose digits are printed. */
  function Magnitude(num: i32, fl: Flags): u32 {
    var n: int := num;
    if fl.sign && n < 0 then -n else Unsigned(num)
  }

  function NumberDigits(num: i32, base: int, fl: Flags): string {
    Digits(Magnitude(num, fl), Radix(base), fl.large)
  }

  /** The width left for padding. */
  function Padding(num: i32, base: int, s: int, precision: int, fl: Flags): int {
    s - Max(|NumberDigits(num, base, fl)|, precision) - |SignText(num, fl)|
  }

  /** Zeros and digits of the number. With an explicit precision of zero the digits are left out. */
  function Core(num: i32, base: int, s: int, precision: int, fl: Flags): string {
    var d := NumberDigits(num, base, fl);
    Repeat('0', if fl.zeropad && !fl.left then Padding(num, base, s, precision, fl) else 0)
    + (Repeat('0', precision - |d|) + if precision != 0 then d else "")
  }

  /** The text print_number puts out. */
  function Number(num: i32, base: int, s: int, precision: int, fl: Flags): string {
    var pad := Padding(num, base, s, precision, fl);
    Repeat(' ', if fl.zeropad || fl.left then 0 else pad) + SignText(num, fl) + Core(num, base, s, precision, fl)
    + Repeat(' ', if fl.left then pad else 0)
  }

  /** The field is as wide as asked for, or as the number needs, unless the precision is zero; then digits are missing. */
  lemma NumberLength(num: i32, base: int, s: int, precision: int, fl: Flags)
    ensures |Number(num, base, s, precision, fl)|
         == Max(s, |SignText(num, fl)| + Max(|NumberDigits(num, base, fl)|, precision))
       <==> precision != 0
  {
  }

  lemma {:induction false} ZerosAlone(n: int, b: nat)
    ensures Value(Repeat('0', n), b) == 0
    decreases n
  {
    if n > 0 {
      ZerosAlone(n - 1, b);
      ValueSnoc(Repeat('0', n - 1), '0', b);
    }
  }

  /** Zeros in front do not count. */
  lemma {:induction false} ZerosValue(n: int, d: string, b: nat)
    ensures Value(Repeat('0', n) + d, b) == Value(d, b)
    decreases |d|
  {
    hide Repeat;
    var zeros := Repeat('0', n);
    if d == "" {
      assert zeros + d == zeros;
      ZerosAlone(n, b);
    } else {
      var e, c := d[..|d| - 1], d[|d| - 1];
      ZerosValue(n, e, b);
      assert zeros + d == (zeros + e) + [c];
      ValueSnoc(zeros + e, c, b);
    }
  }

  lemma ZerosTwice(lead: int, zeros: int, d: string, b: nat)
    ensures Value(Repeat('0', lead) + (Repeat('0', zeros) + d), b) == Value(d, b)
  {
    hide Value, Repeat;
    ZerosValue(zeros, d, b);
    ZerosValue(lead, Repeat('0', zeros) + d, b);
  }

  /** Every number printed reads back: zeros and digits together are worth its magnitude. */
  lemma NumberReadsBack(num: i32, base: int, s: int, precision: int, fl: Flags)
    requires precision != 0
    ensures Value(Core(num, base, s, precision, fl), Radix(base)) == Magnitude(num, fl)
  {
    DigitsValue(Magnitude(num, fl), Radix(base), fl.large);
    var d := NumberDigits(num, base, fl);
    assert Value(d, Radix(base)) == Magnitude(num, fl);
    hide Digits, Value, Magnitude, Repeat, Radix, Padding, NumberDigits;
    ZerosTwice(if fl.zeropad && !fl.left then Padding(num, base, s, precision, fl) else 0, precision - |d|, d,
               Radix(base));
  }

  /** Sign and magnitude, or the magnitude alone for an unsigned conversion, determine the number. */
  lemma MagnitudeTells(num: i32, fl: Flags)
    ensures fl.sign ==> num == if SignText(num, fl) == "-" then 0 - (Magnitude(num, fl) as int) else Magnitude(num, fl)
    ensures !fl.sign ==> num == Signed(Magnitude(num, fl))
  {
  }

  lemma ReverseSnoc(s: string, c: char)
    ensures Reversed(s + [c]) == [c] + Reversed(s)
  {
    var r, r' := Reversed(s + [c]), [c] + Reversed(s);
    assert forall k :: 0 <= k < |r| ==> r[k] == r'[k];
  }

  /** What is still to be divided, and the digits already found, least significant first. */
  ghost predicate Dividing(v: nat, rest: nat, found: string, b: nat, large: bool) {
    && (b == 10 || b == 16)
    && Digits(v, b, large) == (if rest == 0 then "" else Digits(rest, b, large)) + Reversed(found)
  }

  lemma DividingStep(v: nat, rest: nat, next: nat, d: nat, found: string, b: nat, large: bool)
    requires Dividing(v, rest, found, b, large) && rest > 0 && rest == next * b + d && d < b
    ensures Dividing(v, next, found + [DigitChar(d, large)], b, large)
  {
    assert rest / b == next && rest % b == d;
    ReverseSnoc(found, DigitChar(d, large));
    hide Reversed;
    if next == 0 {
      assert Digits(rest, b, large) == [DigitChar(d, large)];
      assert Digits(v, b, large) == "" + ([DigitChar(d, large)] + Reversed(found));
    } else {
      assert Digits(rest, b, large) == Digits(next, b, large) + [DigitChar(d, large)];
      assert Digits(v, b, large) == Digits(next, b, large) + ([DigitChar(d, large)] + Reversed(found));
    }
  }

  /** The conversion loop: digits of the number, taken as unsigned, from the last to the first. */
  method Convert(num: i32, base: int, large: bool) returns (tmp: array<char>, i: nat)
    ensures fresh(tmp) && tmp.Length == TMP_SIZE && i <= TMP_SIZE
    ensures Reversed(tmp[..i]) == Digits(Unsigned(num), Radix(base), large)
  {
    tmp := new char[TMP_SIZE];
    i := 0;
    ghost var v, b := Unsigned(num), Radix(base);
    DigitsFit(v, b, large);
    hide Reversed, Digits;
    if num == 0 {
      tmp[i] := '0';
      i := i + 1;
      ZeroDigits(tmp[..i], b, large);
    } else {
      var n: i32 := num;
      NothingFound(v, tmp[..0], b, large);
      while n != 0
        invariant 0 <= i <= TMP_SIZE && Dividing(v, Unsigned(n), tmp[..i], b, large)
        decreases Unsigned(n)
      {
        var digit, rest := Divide(n, base);
        DividingStep(v, Unsigned(n), rest, digit, tmp[..i], b, large);
        Shorter(v, rest, tmp[..i] + [DigitChar(digit, large)], b, large);
        assert rest < Unsigned(n);
        ghost var found := tmp[..i];
        tmp[i] := DigitChar(digit, large);
        assert tmp[..i + 1] == found + [DigitChar(digit, large)];
        i := i + 1;
        n := rest;
      }
      assert Digits(v, b, large) == "" + Reversed(tmp[..i]);
    }
  }

  lemma ZeroDigits(found: string, b: nat, large: bool)
    requires (b == 10 || b == 16) && found == "0"
    ensures Reversed(found) == Digits(0, b, large)
  {
  }

  lemma NothingFound(v: nat, found: string, b: nat, large: bool)
    requires (b == 10 || b == 16) && v > 0 && found == ""
    ensures Dividing(v, v, found, b, large)
  {
  }

  lemma Shorter(v: nat, rest: nat, found: string, b: nat, large: bool)
    requires Dividing(v, rest, found, b, large)
    ensures |found| <= |Digits(v, b, large)|
  {
  }

  /** The digits, last cell first. */
  method PutReversed(mem: array<char>, str: nat, end: nat, tmp: array<char>, count: nat, ghost m0: Start,
                     ghost out: string)
    returns (next: nat)
    requires mem != tmp && count <= tmp.Length && Shows(mem[..], str, m0, out, end)
    modifies mem
    ensures Shows(mem[..], next, m0, out + Reversed(tmp[..count]), end)
  {
    hide Shows;
    ghost var d := Reversed(tmp[..count]);
    next := str;
    var i := count;
    assert out + d[..0] == out;
    while i > 0
      invariant 0 <= i <= count
      invariant Shows(mem[..], next, m0, out + d[..count - i], end)
    {
      i := i - 1;
      next := PutOne(mem, next, end, tmp[i], m0, out + d[..count - i - 1]);
      assert d[..count - i - 1] + [tmp[i]] == d[..count - i];
      assert (out + d[..count - i - 1]) + [tmp[i]] == out + d[..count - i];
    }
    assert d[..count] == d;
  }

  lemma RepeatSame(c: char, m: int, n: int)
    requires m == n || (m <= 0 && n <= 0)
    ensures Repeat(c, m) == Repeat(c, n)
  {
  }

  function Mark(sign: char): string {
    if sign == '\0' then "" else [sign]
  }

  /** What comes before zeros and digits, and the width it leaves over. */
  ghost predicate HeadIs(text: string, mark: string, width: int, padded: bool, size: int) {
    && text == Repeat(' ', if padded then 0 else width - |mark|) + mark
    && (if padded then size == width - |mark| else size < 0)
  }

  /** What comes then. */
  ghost predicate TailIs(text: string, c: char, size: int, zeros: int, digits: string, left: bool) {
    text == Repeat(c, if left then 0 else size) + (Repeat('0', zeros) + digits) + Repeat(' ', if left then size else 0)
  }

  /** Blanks and sign, and the width left over after them. */
  method PutHead(mem: array<char>, str: nat, end: nat, sign: char, width: int, fl: Flags, ghost m0: Start,
                 ghost out: string)
    returns (next: nat, size: int, ghost text: string)
    requires Shows(mem[..], str, m0, out, end)
    modifies mem
    ensures Shows(mem[..], next, m0, out + text, end)
    ensures HeadIs(text, Mark(sign), width, fl.zeropad || fl.left, size)
  {
    hide Shows, Repeat;
    next, size := str, width;
    text := Repeat(' ', 0);
    assert out + text == out;
    if !fl.zeropad && !fl.left {
      if sign != '\0' && size > 0 {
        size := size - 1;
      }
      RepeatSame(' ', size, width - (if sign == '\0' then 0 else 1));
      text := Repeat(' ', size);
      next, size := Fill(mem, next, end, ' ', 0, size, m0, out);
    }
    if sign != '\0' {
      next := PutOne(mem, next, end, sign, m0, out + text);
      assert (out + text) + [sign] == out + (text + [sign]);
      text := text + [sign];
      size := size - 1;
    } else {
      assert text + "" == text;
    }
  }

  /** Zeros, digits and trailing blanks. */
  method PutTail(mem: array<char>, str: nat, end: nat, c: char, width: int, i: nat, precision: int, tmp: array<char>,
                 shown: bool, left: bool, ghost m0: Start, ghost out: string)
    returns (next: nat, ghost text: string)
    requires Shows(mem[..], str, m0, out, end) && mem != tmp && i <= tmp.Length
    modifies mem
    ensures Shows(mem[..], next, m0, out + text, end)
    ensures TailIs(text, c, width, precision - i, if shown then Reversed(old(tmp[..i])) else "", left)
  {
    hide Shows, Repeat, Reversed;
    var size := width;
    next := str;
    ghost var pad := Repeat(c, if left then 0 else size);
    ghost var zeros, digits := Repeat('0', precision - i), if shown then Reversed(tmp[..i]) else "";
    if left {
      RepeatNone(c, 0);
      assert out + pad == out;
    } else {
      next, size := Fill(mem, next, end, c, 0, size, m0, out);
    }
    var spent;
    next, spent := Fill(mem, next, end, '0', i, precision, m0, out + pad);
    if shown {
      next := PutReversed(mem, next, end, tmp, i, m0, out + pad + zeros);
    } else {
      assert out + pad + zeros + "" == out + pad + zeros;
    }
    RepeatSame(' ', size, if left then width else 0);
    Regroup(out, pad, zeros, digits, Repeat(' ', size));
    ghost var core := pad + (zeros + digits);
    next, spent := Fill(mem, next, end, ' ', 0, size, m0, out + core);
    text := core + Repeat(' ', size);
  }

  lemma Regroup(out: string, a: string, b: string, c: string, d: string)
    ensures out + a + b + c == out + (a + (b + c)) && (out + (a + (b + c))) + d == out + ((a + (b + c)) + d)
  {
  }

  lemma RepeatNone(c: char, n: int)
    requires n <= 0
    ensures Repeat(c, n) == ""
  {
  }

  lemma NumberPieces(num: i32, base: int, s: int, prec: int, fl: Flags, size: int, c: char, head: string, tail: string)
    requires var d, mark, zp := NumberDigits(num, base, fl), SignText(num, fl), fl.zeropad && !fl.left;
             var width := s - Max(|d|, prec);
             && HeadIs(head, mark, width, zp || fl.left, size) && c == (if zp then '0' else ' ')
             && TailIs(tail, c, size, Max(|d|, prec) - |d|, if prec != 0 then d else "", fl.left)
    ensures head + tail == Number(num, base, s, prec, fl)
  {
    hide Repeat, NumberDigits, SignText;
    var d, zp := NumberDigits(num, base, fl), fl.zeropad && !fl.left;
    RepeatSame('0', Max(|d|, prec) - |d|, prec - |d|);
    if !zp {
      RepeatNone(c, if fl.left then 0 else size);
      RepeatNone('0', 0);
    }
    assert fl.zeropad || fl.left <==> zp || fl.left;
    var core := Core(num, base, s, prec, fl);
    var blanks := Repeat(' ', if fl.left then size else 0);
    assert tail == core + blanks;
    assert head + (core + blanks) == head + core + blanks;
  }

  /** The sign to print, 0 for none, and the number left to convert. */
  method ChooseSign(num: i32, fl: Flags) returns (sign: char, n: i32)
    ensures SignText(num, fl) == Mark(sign)
    ensures Unsigned(n) == Magnitude(num, fl)
  {
    sign, n := '\0', num;
    if fl.sign {
      if n < 0 {
        sign := '-';
        n := Negate(n);
      } else if fl.plus {
        sign := '+';
      } else if fl.space {
        sign := ' ';
      }
    }
  }

  /** print_number: whatever `end` is, the text put out is Number, cut off at `end`. */
  method PrintNumber(mem: array<char>, str: nat, end: nat, num: i32, base: int, s: int, prec: int, fl: Flags,
                     ghost m0: Start, ghost out: string)
    returns (next: nat)
    requires Shows(mem[..], str, m0, out, end)
    modifies mem
    ensures Shows(mem[..], next, m0, out + Number(num, base, s, prec, fl), end)
  {
    hide Shows, Repeat, Reversed, Digits, Radix, Unsigned, Magnitude, SignText, Number, HeadIs, TailIs, Mark;
    var precision, size, kind := prec, s, fl;
    if kind.left {
      kind := kind.(zeropad := false);
    }
    var c := if kind.zeropad then '0' else ' ';
    var sign, n := ChooseSign(num, fl);
    var tmp, i := Convert(n, base, kind.large);
    if i > precision {
      precision := i;
    }
    size := size - precision;
    ghost var head, tail;
    next, size, head := PutHead(mem, str, end, sign, size, kind, m0, out);
    next, tail := PutTail(mem, next, end, c, size, i, precision, tmp, prec != 0, kind.left, m0, out + head);
    assert (out + head) + tail == out + (head + tail);
    NumberPieces(num, base, s, prec, fl, size, c, head, tail);
  }
}
