/**
 What a single directive prints: where the text, the blanks, the sign and the zeros of a field stand, for every
 directive at every place of a format.
 */
module FieldFormat {
  import opened Bytes
  import opened NumberFormat
  import opened Formatter

  /** A width or a precision: not there, written out, or taken from the arguments. */
  datatype Size = Absent | Written(n: nat) | Starred

  /** A directive as it is written; the precision, if any, stands behind a dot. */
  datatype Spec = Spec(flags: string, width: Size, prec: Option<Size>, qual: string, c: char)

  predicate FlagChar(c: char) {
    c in "-+ #0"
  }

  predicate SmallSize(size: Size, least: nat) {
    size.Written? ==> least <= size.n < INT_LIMIT
  }

  /** Any flags, in any order, and any number of them; written sizes fit an int, and a width of 0 would be a flag. */
  predicate Wellformed(s: Spec) {
    && (forall k :: 0 <= k < |s.flags| ==> FlagChar(s.flags[k]))
    && SmallSize(s.width, 1) && (s.prec.Some? ==> SmallSize(s.prec.value, 0))
    && (s.qual == "" || s.qual == "h" || s.qual == "l") && s.c in "csdiuxXop%"
  }

  function SizeText(size: Size): string {
    match size
    case Absent => ""
    case Written(n) => Digits(n, 10, false)
    case Starred => "*"
  }

  function PrecText(prec: Option<Size>): string {
    match prec
    case None => ""
    case Some(size) => "." + SizeText(size)
  }

  function Source(s: Spec): string {
    "%" + (s.flags + (SizeText(s.width) + (PrecText(s.prec) + (s.qual + [s.c]))))
  }

  /** The directive stands at position `p` of the format. */
  predicate StandsAt(f: string, p: nat, s: Spec) {
    CString(f) && Wellformed(s) && p + |Source(s)| < |f| && f[p..p + |Source(s)|] == Source(s)
  }

  // ----- what its parts mean -----

  /** The number a size stands for, -1 for none, when the next argument is `a`. */
  function SizeValue(size: Size, args: seq<Arg>, a: nat): int {
    match size
    case Absent => -1
    case Written(n) => n
    case Starred => Signed(WordArg(args, a))
  }

  function Takes(size: Size): nat {
    if size.Starred? then 1 else 0
  }

  /** The field width, -1 for none; a negative argument counts without its sign. */
  function Width(s: Spec, args: seq<Arg>, a: nat): (w: int)
    ensures w >= -1 && (w == -1 <==> s.width.Absent?)
  {
    var w := SizeValue(s.width, args, a);
    if s.width.Starred? && w < 0 then -w else w
  }

  /** Left alignment is asked for by a flag or by a negative argument. */
  predicate Left(s: Spec, args: seq<Arg>, a: nat) {
    '-' in s.flags || (s.width.Starred? && SizeValue(s.width, args, a) < 0)
  }

  /** The precision, -1 for none; behind a dot nothing or a negative argument counts as zero. */
  function Precision(s: Spec, args: seq<Arg>, a: nat): (n: int)
    ensures n >= -1
  {
    if s.prec == None then -1 else Max(0, SizeValue(s.prec.value, args, a + Takes(s.width)))
  }

  /** The argument that is converted. */
  function ArgOf(s: Spec, a: nat): nat {
    a + Takes(s.width) + if s.prec.Some? then Takes(s.prec.value) else 0
  }

  function Qual(s: Spec): char {
    if s.qual == "" then '\0' else s.qual[0]
  }

  // ----- the parser finds them -----

  lemma Split(f: string, p: nat, x: string, y: string)
    requires p + |x + y| <= |f| && f[p..p + |x + y|] == x + y
    ensures p + |x| + |y| <= |f| && f[p..p + |x|] == x && f[p + |x|..p + |x| + |y|] == y
  {
    var z := f[p..p + |x + y|];
    assert z[..|x|] == x && z[|x|..] == y;
    assert f[p..p + |x|] == z[..|x|] && f[p + |x|..p + |x| + |y|] == z[|x|..];
  }

  function Merged(fl: Flags, flags: string): Flags {
    fl.(left := fl.left || '-' in flags, plus := fl.plus || '+' in flags, space := fl.space || ' ' in flags,
        zeropad := fl.zeropad || '0' in flags)
  }

  lemma MergedMore(fl: Flags, c: char, flags: string)
    requires FlagChar(c)
    ensures AddFlag(c, fl).Some? && Merged(AddFlag(c, fl).value, flags) == Merged(fl, [c] + flags)
  {
  }

  lemma NoneMerged(fl: Flags, c: char)
    ensures Merged(fl, "") == fl && (!FlagChar(c) ==> AddFlag(c, fl) == None)
  {
  }

  lemma {:induction false} FlagsFound(f: string, p: nat, flags: string, fl: Flags)
    requires CString(f) && p + |flags| < |f| && f[p..p + |flags|] == flags && !FlagChar(f[p + |flags|])
    requires forall k :: 0 <= k < |flags| ==> FlagChar(flags[k])
    ensures Flagged(f, p, fl) == (Merged(fl, flags), p + |flags|)
    decreases |flags|
  {
    hide Merged, AddFlag, FlagChar, CString;
    if flags == "" {
      NoneMerged(fl, f[p]);
    } else {
      assert f[p] == flags[0];
      MergedMore(fl, f[p], flags[1..]);
      assert f[p + 1..p + 1 + |flags[1..]|] == flags[1..];
      FlagsFound(f, p + 1, flags[1..], AddFlag(f[p], fl).value);
      assert flags == [flags[0]] + flags[1..];
    }
  }

  lemma NumberFound(f: string, p: nat, n: nat)
    requires CString(f) && n < INT_LIMIT
    requires p + |Digits(n, 10, false)| < |f| && f[p..p + |Digits(n, 10, false)|] == Digits(n, 10, false)
    requires !IsDigit(f[p + |Digits(n, 10, false)|])
    ensures IsDigit(f[p]) && Scanned(f, p) == n && Run(f, p) == |Digits(n, 10, false)|
  {
    hide Digits, Scanned, Run, CString;
    var d := Digits(n, 10, false);
    ScansPrinted(n, f[..p], f[p + |d|..], false);
    assert f[..p] + d + f[p + |d|..] == f;
    DecimalDigits(n, false);
    assert f[p] == d[0];
  }

  lemma SizeFound(f: string, p: nat, size: Size, args: seq<Arg>, a: nat)
    requires CString(f) && p + |SizeText(size)| < |f| && f[p..p + |SizeText(size)|] == SizeText(size)
    requires SmallSize(size, 0) && !IsDigit(f[p + |SizeText(size)|]) && f[p + |SizeText(size)|] != '*'
    ensures Amount(f, p, -1, args, a) == (SizeValue(size, args, a), p + |SizeText(size)|, a + Takes(size))
  {
    hide Signed, WordArg;
    hide Digits, Scanned, Run;
    match size {
      case Written(n) => NumberFound(f, p, n);
      case Absent =>
      case Starred => assert f[p] == SizeText(size)[0];
    }
  }

  /** A number that is not 0 does not begin with the digit 0. */
  lemma {:induction false} FirstDigit(n: nat)
    ensures n > 0 ==> Digits(n, 10, false)[0] != '0'
    ensures IsDigit(Digits(n, 10, false)[0])
  {
    if n >= 10 {
      FirstDigit(n / 10);
    }
  }

  /** Where the parts stand, for a directive at `p`. */
  lemma PartsStand(f: string, p: nat, s: Spec)
    requires StandsAt(f, p, s)
    ensures var p1 := p + 1; var p2 := p1 + |s.flags|; var p3 := p2 + |SizeText(s.width)|;
            var p4 := p3 + |PrecText(s.prec)|; var p5 := p4 + |s.qual|;
            && p5 + 1 == p + |Source(s)| < |f| && f[p] == '%' && f[p5] == s.c
            && f[p1..p2] == s.flags && f[p2..p3] == SizeText(s.width) && f[p3..p4] == PrecText(s.prec)
            && f[p4..p5] == s.qual
  {
    hide CString, Wellformed, SizeText, PrecText;
    var w, n := SizeText(s.width), PrecText(s.prec);
    var p1 := p + 1;
    var p2 := p1 + |s.flags|;
    var p3 := p2 + |w|;
    Split(f, p, "%", s.flags + (w + (n + (s.qual + [s.c]))));
    Split(f, p1, s.flags, w + (n + (s.qual + [s.c])));
    Split(f, p2, w, n + (s.qual + [s.c]));
    Split(f, p3, n, s.qual + [s.c]);
    Split(f, p3 + |n|, s.qual, [s.c]);
  }

  function Directed(s: Spec, p: nat, args: seq<Arg>, a: nat): Directive {
    Directive(Merged(NO_FLAGS, s.flags).(left := Left(s, args, a)), Width(s, args, a), Precision(s, args, a), Qual(s),
              p + |Source(s)| - 1, ArgOf(s, a))
  }

  lemma WidthFound(f: string, q: nat, s: Spec, args: seq<Arg>, a: nat)
    requires CString(f) && q + |SizeText(s.width)| < |f| && f[q..q + |SizeText(s.width)|] == SizeText(s.width)
    requires SmallSize(s.width, 1) && !IsDigit(f[q + |SizeText(s.width)|]) && f[q + |SizeText(s.width)|] != '*'
    ensures Widened(f, q, Merged(NO_FLAGS, s.flags), args, a)
         == Directive(Merged(NO_FLAGS, s.flags).(left := Left(s, args, a)), Width(s, args, a), -1, '\0',
                      q + |SizeText(s.width)|, a + Takes(s.width))
  {
    hide Amount, Signed, WordArg, CString, Digits;
    SizeFound(f, q, s.width, args, a);
    StarIs(f, q, s.width);
  }

  /** Only a size from the arguments begins with a star. */
  lemma StarIs(f: string, q: nat, size: Size)
    requires q + |SizeText(size)| < |f| && f[q..q + |SizeText(size)|] == SizeText(size) && f[q + |SizeText(size)|] != '*'
    ensures f[q] == '*' <==> size.Starred?
  {
    if size != Absent {
      assert f[q] == SizeText(size)[0];
    }
    if size.Written? {
      FirstDigit(size.n);
    }
  }

  lemma PrecisionFound(f: string, q: nat, s: Spec, d: Directive, args: seq<Arg>, a: nat)
    requires CString(f) && q + |PrecText(s.prec)| < |f| && f[q..q + |PrecText(s.prec)|] == PrecText(s.prec)
    requires s.prec.Some? ==> SmallSize(s.prec.value, 0)
    requires var c := f[q + |PrecText(s.prec)|]; !IsDigit(c) && c != '*' && c != '.'
    requires d.p == q && d.prec == -1 && d.a == a + Takes(s.width)
    ensures Refined(f, d, args) == d.(prec := Precision(s, args, a), p := q + |PrecText(s.prec)|, a := ArgOf(s, a))
  {
    hide Amount, Signed, WordArg, CString, Digits;
    if s.prec.Some? {
      assert f[q] == PrecText(s.prec)[0];
      Split(f, q, ".", SizeText(s.prec.value));
      SizeFound(f, q + 1, s.prec.value, args, d.a);
    }
  }

  lemma QualFound(f: string, s: Spec, d: Directive)
    requires CString(f) && Wellformed(s) && d.p + |s.qual| < |f| && f[d.p..d.p + |s.qual|] == s.qual && d.qual == '\0'
    requires f[d.p + |s.qual|] == s.c
    ensures Qualified(f, d) == d.(qual := Qual(s), p := d.p + |s.qual|)
  {
    hide CString;
    if s.qual != "" {
      assert f[d.p] == s.qual[0];
    }
  }

  /** The directive parser returns what stands there. */
  lemma SpecParsed(f: string, p: nat, s: Spec, args: seq<Arg>, a: nat)
    requires StandsAt(f, p, s)
    ensures Parsed(f, p + 1, args, a) == Directed(s, p, args, a)
  {
    hide CString, StandsAt, FlagChar, IsDigit, SmallSize, Flagged, Widened, Refined, Qualified, Merged, Width, Left, Precision,
         ArgOf, Takes, Source, SizeText, PrecText, Qual;
    FormOk(f, p, s);
    PartsStand(f, p, s);
    NextChars(f, p, s);
    var q := p + 1 + |s.flags|;
    FlagsFound(f, p + 1, s.flags, NO_FLAGS);
    WidthFound(f, q, s, args, a);
    var d := Widened(f, q, Merged(NO_FLAGS, s.flags), args, a);
    PrecisionFound(f, q + |SizeText(s.width)|, s, d, args, a);
    QualFound(f, s, Refined(f, d, args));
  }

  lemma FormOk(f: string, p: nat, s: Spec)
    requires StandsAt(f, p, s)
    ensures CString(f) && Wellformed(s)
  {
  }

  /** No part runs into the next one. */
  lemma NextChars(f: string, p: nat, s: Spec)
    requires StandsAt(f, p, s)
    ensures var p2 := p + 1 + |s.flags|; var p3 := p2 + |SizeText(s.width)|; var p4 := p3 + |PrecText(s.prec)|;
            && p4 < |f| && !FlagChar(f[p2])
            && !IsDigit(f[p3]) && f[p3] != '*' && !IsDigit(f[p4]) && f[p4] != '*' && f[p4] != '.'
  {
    PartsStand(f, p, s);
    hide CString, Digits;
    var p2 := p + 1 + |s.flags|;
    var p3 := p2 + |SizeText(s.width)|;
    var p4 := p3 + |PrecText(s.prec)|;
    if s.qual != "" {
      assert f[p4] == s.qual[0];
    }
    if s.prec.Some? {
      assert f[p3] == PrecText(s.prec)[0];
    }
    if s.width != Absent {
      assert f[p2] == SizeText(s.width)[0];
    }
    if s.width.Written? {
      FirstDigit(s.width.n);
    }
  }

  // ----- what is printed -----

  predicate All(s: string, c: char) {
    forall k :: 0 <= k < |s| ==> s[k] == c
  }

  /** A text in a field: nothing but blanks beside it, on the side away from the alignment. */
  predicate InField(out: string, text: string, width: int, left: bool) {
    && |out| == Max(width, |text|)
    && if left
       then out[..|text|] == text && All(out[|text|..], ' ')
       else out[|out| - |text|..] == text && All(out[..|out| - |text|], ' ')
  }

  lemma PaddedInField(text: string, width: int, left: bool)
    ensures InField(Padded(text, width, left), text, width, left)
  {
  }

  /** How many of `len` characters %s shows: a given width and a positive precision are limits. */
  function Limit(len: nat, width: int, prec: int): (n: nat)
    requires width >= -1
  {
    var n := if width == -1 then len else Min(len, width);
    if prec > 0 then Min(n, prec) else n
  }

  /** A number in a field: blanks, sign, zeros, digits, blanks; the width is filled with blanks or with zeros. */
  predicate Laid(out: string, sign: string, digits: string, width: int, prec: int, left: bool, zero: bool) {
    var m := |sign| + Max(|digits|, prec);
    && |out| == Max(width, m)
    && var first := if left || zero then 0 else |out| - m;
       var end := if left then m else |out|;
       && All(out[..first], ' ') && out[first..first + |sign|] == sign
       && All(out[first + |sign|..end - |digits|], '0') && out[end - |digits|..end] == digits
       && All(out[end..], ' ')
  }

  /** An explicit precision of zero drops the digits, but the field is as wide as if they were there. */
  predicate LaidOut(out: string, sign: string, digits: string, width: int, prec: int, left: bool, zero: bool) {
    if prec == 0 then Laid(out, sign, "", width - |digits|, 0, left, zero)
    else Laid(out, sign, digits, width, prec, left, zero)
  }

  lemma Pieces(a: string, b: string, c: string, d: string, e: string)
    ensures var s := a + b + (c + d) + e; var n := |a| + |b|; var m := n + |c| + |d|;
            && |s| == m + |e| && s[..|a|] == a && s[|a|..n] == b && s[n..m - |d|] == c && s[m - |d|..m] == d && s[m..] == e
  {
    var s, n, m := a + b + (c + d) + e, |a| + |b|, |a| + |b| + |c| + |d|;
    assert s[..m] == a + b + (c + d) && s[..m][..n] == a + b && s[..m][n..] == c + d;
    assert s[n..m] == s[..m][n..];
    assert s[n..m - |d|] == (c + d)[..|c|] && s[m - |d|..m] == (c + d)[|c|..];
  }

  /** Blanks in front or behind, or zeros after the sign: one of them makes up what the width leaves. */
  lemma PiecesLaid(lead: string, sign: string, zeros: string, digits: string, trail: string, width: int, prec: int,
                   left: bool, zero: bool)
    requires All(lead, ' ') && All(zeros, '0') && All(trail, ' ')
    requires var m := |sign| + Max(|digits|, prec);
             var pad := Max(width, m) - m;
             && |lead| == (if zero || left then 0 else pad) && |trail| == (if left then pad else 0)
             && |zeros| == (if zero && !left then pad else 0) + Max(|digits|, prec) - |digits|
    ensures Laid(lead + sign + (zeros + digits) + trail, sign, digits, width, prec, left, zero)
  {
    hide All;
    Pieces(lead, sign, zeros, digits, trail);
  }

  lemma NumberLaidOut(num: i32, base: int, width: int, prec: int, fl: Flags)
    ensures LaidOut(Number(num, base, width, prec, fl), SignText(num, fl), NumberDigits(num, base, fl), width, prec, fl.left,
                    fl.zeropad)
  {
    hide NumberDigits, SignText, Laid;
    var d, sign := NumberDigits(num, base, fl), SignText(num, fl);
    var pad := Padding(num, base, width, prec, fl);
    var lead, trail := Repeat(' ', if fl.zeropad || fl.left then 0 else pad), Repeat(' ', if fl.left then pad else 0);
    var fill, zeros := Repeat('0', if fl.zeropad && !fl.left then pad else 0), Repeat('0', prec - |d|);
    hide Repeat;
    var digits := if prec == 0 then "" else d;
    PiecesLaid(lead, sign, fill + zeros, digits, trail, if prec == 0 then width - |d| else width, prec, fl.left, fl.zeropad);
    assert fill + (zeros + digits) == (fill + zeros) + digits;
  }

  lemma Ends(f: string, p: nat, s: Spec)
    requires StandsAt(f, p, s)
    ensures CString(f) && |Source(s)| > 1 && p + |Source(s)| < |f| && f[p] == '%' && f[p + |Source(s)| - 1] == s.c
    ensures s.c in "csdiuxXop%"
  {
    PartsStand(f, p, s);
  }

  function ConversionText(c: char, d: Directive, args: seq<Arg>): string
    requires ArgsOk(args)
  {
    if c == 's' then Padded(TextArg(args, d.a)[..Shown(TextArg(args, d.a), d.width, d.prec)], d.width, d.fl.left)
    else if c == 'c' then Padded([CharArg(args, d.a)], d.width, d.fl.left)
    else if c == 'p' then PointerText(d, WordArg(args, d.a))
    else if c == '%' then "%"
    else NumberText(c, d, WordArg(args, d.a))
  }

  lemma ConvertedIs(f: string, d: Directive, args: seq<Arg>, c: char)
    requires CString(f) && d.p < |f| && f[d.p] == c && c in "csdiuxXop%" && ArgsOk(args)
    ensures Converted(f, d, args) == (ConversionText(c, d, args), d.p + 1, d.a + if c == '%' then 0 else 1)
  {
    hide Padded, Shown, NumberText, PointerText, WordArg, CString, ArgsOk, TextArg;
  }

  /** A directive prints the text of its conversion, and the rest of the format follows. */
  lemma DirectiveText(f: string, p: nat, s: Spec, args: seq<Arg>, a: nat)
    requires StandsAt(f, p, s) && ArgsOk(args)
    ensures Format(f, p, args, a)
         == ConversionText(s.c, Directed(s, p, args, a), args)
            + Format(f, p + |Source(s)|, args, ArgOf(s, a) + if s.c == '%' then 0 else 1)
  {
    hide Converted, ConversionText, Parsed, Source, CString, ArgsOk, StandsAt, Width, Left, Precision, ArgOf, Qual, Merged;
    Ends(f, p, s);
    SpecParsed(f, p, s, args, a);
    ConvertedIs(f, Directed(s, p, args, a), args, s.c);
  }

  /**
   %s, with any flags, width, precision and qualifier, anywhere in a format: the string, up to the width and a positive
   precision, stands at the side asked for with only blanks beside it, and the rest of the format follows.
   */
  lemma TextField(f: string, p: nat, s: Spec, args: seq<Arg>, a: nat) returns (out: string)
    requires StandsAt(f, p, s) && s.c == 's' && ArgsOk(args)
    ensures Format(f, p, args, a) == out + Format(f, p + |Source(s)|, args, ArgOf(s, a) + 1)
    ensures var str := TextArg(args, ArgOf(s, a));
            var n := Limit(|str| - 1, Width(s, args, a), Precision(s, args, a));
            n < |str| && InField(out, str[..n], Width(s, args, a), Left(s, args, a))
  {
    hide Format, Padded, Source, Width, Left, Precision, ArgOf, InField;
    DirectiveText(f, p, s, args, a);
    out := ConversionText(s.c, Directed(s, p, args, a), args);
    var str := TextArg(args, ArgOf(s, a));
    PaddedInField(str[..Shown(str, Width(s, args, a), Precision(s, args, a))], Width(s, args, a), Left(s, args, a));
  }

  /** %c: the low byte of the argument, in a field likewise. */
  lemma CharField(f: string, p: nat, s: Spec, args: seq<Arg>, a: nat) returns (out: string)
    requires StandsAt(f, p, s) && s.c == 'c' && ArgsOk(args)
    ensures Format(f, p, args, a) == out + Format(f, p + |Source(s)|, args, ArgOf(s, a) + 1)
    ensures InField(out, [CharArg(args, ArgOf(s, a))], Width(s, args, a), Left(s, args, a))
  {
    hide Format, Padded, Source, Width, Left, Precision, ArgOf, InField, CharArg;
    DirectiveText(f, p, s, args, a);
    out := ConversionText(s.c, Directed(s, p, args, a), args);
    PaddedInField([CharArg(args, ArgOf(s, a))], Width(s, args, a), Left(s, args, a));
  }

  /** The sign of a number: a minus, or what the flags ask for, and none for an unsigned conversion. */
  function SignOf(s: Spec, num: int): string {
    if s.c != 'd' && s.c != 'i' then "" else if num < 0 then "-"
    else if '+' in s.flags then "+" else if ' ' in s.flags then " " else ""
  }

  /** Its digits: those of the magnitude, in capitals for %X; base eight counts as sixteen. */
  function DigitsOf(s: Spec, num: i32): string {
    var n: int := num;
    Digits(if (s.c == 'd' || s.c == 'i') && n < 0 then -n else Unsigned(num), if s.c in "diu" then 10 else 16, s.c == 'X')
  }

  /** %d, %i, %u, %x, %X and %o: blanks, sign, zeros and digits stand where flags, width and precision ask for them. */
  lemma NumberField(f: string, p: nat, s: Spec, args: seq<Arg>, a: nat) returns (out: string)
    requires StandsAt(f, p, s) && s.c in "diuxXo" && ArgsOk(args)
    ensures Format(f, p, args, a) == out + Format(f, p + |Source(s)|, args, ArgOf(s, a) + 1)
    ensures var num := Narrowed(WordArg(args, ArgOf(s, a)), Qual(s), s.c == 'd' || s.c == 'i');
            LaidOut(out, SignOf(s, num), DigitsOf(s, num), Width(s, args, a), Precision(s, args, a), Left(s, args, a),
                    '0' in s.flags)
  {
    hide Format, Source, StandsAt, Width, Precision, ArgOf, LaidOut, WordArg, Narrowed, Number, SignText, NumberDigits,
         SignOf, DigitsOf;
    DirectiveText(f, p, s, args, a);
    var d := Directed(s, p, args, a);
    out := ConversionText(s.c, d, args);
    var fl := d.fl.(sign := s.c == 'd' || s.c == 'i', large := s.c == 'X');
    var num := Narrowed(WordArg(args, ArgOf(s, a)), Qual(s), fl.sign);
    var base := if s.c == 'o' then 8 else if s.c == 'x' || s.c == 'X' then 16 else 10;
    NumberLaidOut(num, base, d.width, d.prec, fl);
    SameParts(s, num, base, fl);
  }

  lemma SameParts(s: Spec, num: i32, base: int, fl: Flags)
    requires s.c in "diuxXo" && base == if s.c == 'o' then 8 else if s.c == 'x' || s.c == 'X' then 16 else 10
    requires fl.sign == (s.c == 'd' || s.c == 'i') && fl.large == (s.c == 'X')
    requires fl.plus == ('+' in s.flags) && fl.space == (' ' in s.flags)
    ensures SignText(num, fl) == SignOf(s, num) && NumberDigits(num, base, fl) == DigitsOf(s, num)
  {
  }

  /** What a qualified argument stands for: the low half with or without its sign for h, the word otherwise. */
  lemma NarrowedIs(w: u32, qual: char, sign: bool)
    ensures var n: int := Narrowed(w, qual, sign);
            if qual == 'h' then (n - w) % 0x1_0000 == 0 && if sign then -0x8000 <= n < 0x8000 else 0 <= n < 0x1_0000
            else (n - w) % WORD_LIMIT == 0
  {
  }

  /** %p: the word in hexadecimal; without a width there are at least eight digits, filled up with zeros. */
  lemma PointerField(f: string, p: nat, s: Spec, args: seq<Arg>, a: nat) returns (out: string)
    requires StandsAt(f, p, s) && s.c == 'p' && ArgsOk(args)
    ensures Format(f, p, args, a) == out + Format(f, p + |Source(s)|, args, ArgOf(s, a) + 1)
    ensures LaidOut(out, "", Digits(WordArg(args, ArgOf(s, a)), 16, false),
                    if s.width.Absent? then 8 else Width(s, args, a), Precision(s, args, a), Left(s, args, a),
                    s.width.Absent? || '0' in s.flags)
  {
    hide Format, Source, Precision, ArgOf, LaidOut, WordArg, Digits, Number, Unsigned, Signed;
    DirectiveText(f, p, s, args, a);
    var d, w := Directed(s, p, args, a), WordArg(args, ArgOf(s, a));
    out := ConversionText(s.c, d, args);
    SignedBack(w);
    if s.width.Absent? {
      NumberLaidOut(Signed(w), 16, 8, d.prec, d.fl.(zeropad := true));
    } else {
      NumberLaidOut(Signed(w), 16, d.width, d.prec, d.fl);
    }
  }

  /** %%, whatever stands between the two, prints one and takes only the arguments of its sizes. */
  lemma PercentField(f: string, p: nat, s: Spec, args: seq<Arg>, a: nat)
    requires StandsAt(f, p, s) && s.c == '%' && ArgsOk(args)
    ensures Format(f, p, args, a) == "%" + Format(f, p + |Source(s)|, args, ArgOf(s, a))
  {
    hide Format, Source, ArgOf;
    DirectiveText(f, p, s, args, a);
  }

  /** Everything else is printed as it is. */
  lemma {:induction false} LiteralText(f: string, p: nat, q: nat, args: seq<Arg>, a: nat)
    requires CString(f) && p <= q < |f| && ArgsOk(args) && forall k :: p <= k < q ==> f[k] != '%'
    ensures Format(f, p, args, a) == f[p..q] + Format(f, q, args, a)
    decreases q - p
  {
    hide Parsed, Converted;
    if p == q {
      assert f[p..q] == "";
    } else {
      LiteralText(f, p + 1, q, args, a);
      assert f[p..q] == [f[p]] + f[p + 1..q];
      assert [f[p]] + (f[p + 1..q] + Format(f, q, args, a)) == f[p..q] + Format(f, q, args, a);
    }
  }

  /**
   A string in a field of width `w` and nothing else: exactly `w` characters, the string at one end, blanks at the other.
   The whole string appears exactly if it is no longer than the width, since %s stops at the width.
   */
  lemma StringInField(s: string, w: nat, left: bool) returns (f: string, out: string)
    requires CString(s + "\0") && 0 < w < INT_LIMIT
    ensures f == "%" + (if left then "-" else "") + Digits(w, 10, false) + "s\0" && CString(f)
    ensures ArgsOk([Text(s + "\0")]) && out == Format(f, 0, [Text(s + "\0")], 0)
    ensures |out| == w && InField(out, s[..Min(|s|, w)], w, left)
    ensures s[..Min(|s|, w)] == s <==> |s| <= w
  {
    hide Format, InField, Digits, StandsAt, CString;
    var spec := Spec(if left then "-" else "", Written(w), None, "", 's');
    var args := [Text(s + "\0")];
    f := "%" + (if left then "-" else "") + Digits(w, 10, false) + "s\0";
    StringSpec(f, spec, w, left);
    out := TextField(f, 0, spec, args, 0);
    EndsThere(f, |Source(spec)|, args, ArgOf(spec, 0) + 1);
    assert (s + "\0")[..Min(|s|, w)] == s[..Min(|s|, w)];
    FieldLength(out, s[..Min(|s|, w)], w, left);
  }

  lemma StringSpec(f: string, spec: Spec, w: nat, left: bool)
    requires spec == Spec(if left then "-" else "", Written(w), None, "", 's') && 0 < w < INT_LIMIT
    requires f == "%" + (if left then "-" else "") + Digits(w, 10, false) + "s\0"
    ensures StandsAt(f, 0, spec) && |Source(spec)| == |f| - 1 && f[|f| - 1] == '\0' && CString(f)
  {
    NoNul(w);
    hide Digits;
    assert f == Source(spec) + "\0";
  }

  lemma FieldLength(out: string, text: string, w: nat, left: bool)
    requires InField(out, text, w, left) && |text| <= w
    ensures |out| == w
  {
  }

  lemma NoNul(w: nat)
    ensures forall k :: 0 <= k < |Digits(w, 10, false)| ==> Digits(w, 10, false)[k] != '\0'
  {
    DecimalDigits(w, false);
  }

  lemma EndsThere(f: string, q: nat, args: seq<Arg>, a: nat)
    requires CString(f) && ArgsOk(args) && q < |f| && f[q] == '\0'
    ensures forall out :: out + Format(f, q, args, a) == out
  {
  }
}
