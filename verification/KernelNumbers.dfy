/** The kernel's number printer and number parser, and that the parser reads back what
    the printer writes. */
module KernelNumbers {

  // ----- printing -----

  const DIGITS := "0123456789abcdef"

  ghost function Digits(num: nat, base: nat): string
    requires 2 <= base <= 16
  {
    if num < base then [DIGITS[num]] else Digits(num / base, base) + [DIGITS[num % base]]
  }

  ghost function Padding(n: int, padc: char): string {
    if n <= 0 then "" else Padding(n - 1, padc) + [padc]
  }

  method Pad(sink: string, width: int, padc: char) returns (r: string)
    ensures r == sink + Padding(width - 1, padc)
  {
    var w := width - 1;
    r := sink;
    while w > 0
      invariant w <= width - 1 && (w < 0 ==> w == width - 1) && r == sink + Padding(width - 1 - w, padc)
    {
      w := w - 1;
      r := r + [padc];
    }
    assert w < 0 ==> Padding(width - 1, padc) == Padding(0, padc);
  }

  /** Print a number on the sink `sink`: its digits, right-justified in the width. */
  method PrintNum(sink: string, num: nat, base: nat, width: int, padc: char) returns (r: string)
    requires 2 <= base <= 16
    ensures r == sink + Padding(width - |Digits(num, base)|, padc) + Digits(num, base)
    decreases num
  {
    hide Padding;
    if num >= base {
      Smaller(num, base);
      r := PrintNum(sink, num / base, base, width - 1, padc);
      r := r + [DIGITS[num % base]];
    } else {
      r := Pad(sink, width, padc);
      r := r + [DIGITS[num]];
    }
  }

  lemma Smaller(num: nat, base: nat)
    requires num >= base >= 2
    ensures num / base < num
  {
    var q := num / base;
    assert num == q * base + num % base;
    Twice(q, base);
  }

  lemma {:induction false} Twice(q: nat, base: nat)
    requires base >= 2
    ensures q * base >= 2 * q
  {
    if q > 0 {
      Twice(q - 1, base);
      assert q * base == (q - 1) * base + base;
    }
  }

  /** The output is as long as the width asks for, and at least as long as the number. */
  lemma {:induction false} PaddingLength(n: int, padc: char)
    ensures |Padding(n, padc)| == (if n < 0 then 0 else n) && forall i :: 0 <= i < |Padding(n, padc)| ==>
            Padding(n, padc)[i] == padc
  {
    if n > 0 {
      PaddingLength(n - 1, padc);
    }
  }

  // ----- parsing -----

  /** The character at `i`, or the terminator. */
  function Get(s: string, i: nat): char {
    if i < |s| then s[i] else '\0'
  }

  function DigitOf(c: char): int {
    if '0' <= c <= '9' then c as int - '0' as int
    else if 'a' <= c <= 'z' then c as int - 'a' as int + 10
    else if 'A' <= c <= 'Z' then c as int - 'A' as int + 10
    else -1
  }

  predicate IsDigit(c: char, base: nat) {
    0 <= DigitOf(c) < base
  }

  predicate IsBlank(c: char) {
    c == ' ' || c == '\t'
  }

  /** The value of the digits from `i` to `j`. */
  ghost function Value(s: string, i: nat, j: nat, base: nat): int
    requires i <= j <= |s|
  {
    if i == j then 0 else Value(s, i, j - 1, base) * base + DigitOf(s[j - 1])
  }

  /** The first place from `i` on that is not blank. */
  ghost function AfterBlanks(s: string, i: nat): (j: nat)
    requires i <= |s|
    ensures i <= j <= |s| && (forall k :: i <= k < j ==> IsBlank(s[k])) && !IsBlank(Get(s, j))
    decreases |s| - i
  {
    if i < |s| && IsBlank(s[i]) then AfterBlanks(s, i + 1) else i
  }

  /** From `i` to `j` there are digits, and the character at `j` is none. */
  ghost predicate DigitRun(s: string, i: nat, j: nat, base: nat) {
    i <= j <= |s| && (forall k :: i <= k < j ==> IsDigit(s[k], base)) && !IsDigit(Get(s, j), base)
  }

  /** Where the digits start and in which base they are, after blanks up to `i`. */
  function Signed(s: string, i: nat): nat {
    if Get(s, i) == '+' || Get(s, i) == '-' then i + 1 else i
  }

  function Hex(s: string, i: nat, base: nat): bool {
    (base == 0 || base == 16) && Get(s, i) == '0' && Get(s, i + 1) == 'x'
  }

  function Start(s: string, i: nat, base: nat): nat {
    if Hex(s, i, base) then i + 2 else if base == 0 && Get(s, i) == '0' then i + 1 else i
  }

  function Base(s: string, i: nat, base: nat): nat {
    if Hex(s, i, base) then 16 else if base == 0 && Get(s, i) == '0' then 8 else if base == 0 then 10 else base
  }

  method SkipBlanks(s: string) returns (p: nat)
    ensures p == AfterBlanks(s, 0)
  {
    p := 0;
    while IsBlank(Get(s, p))
      invariant p <= |s| && AfterBlanks(s, p) == AfterBlanks(s, 0)
      decreases |s| - p
    {
      p := p + 1;
    }
  }

  /** The largest number of a `long`, which has 32 bits. */
  const LONG_MAX := 0x7fff_ffff

  /** Another digit does not make the value smaller. */
  lemma ValueGrows(val: int, base: nat, d: int)
    requires val >= 0 && 0 <= d < base
    ensures val * base + d >= val
  {
    assert val * base >= val * 1;
  }

  /** Add up the digits.  `overflow` tells whether a value on the way was too large for a
      `long`, after which the program's result is not determined; that is the case if and
      only if the last one is. */
  method ReadDigits(s: string, start: nat, base: nat) returns (val: int, end: nat, overflow: bool)
    requires start <= |s|
    ensures DigitRun(s, start, end, base) && (overflow <==> Value(s, start, end, base) > LONG_MAX)
    ensures !overflow ==> val == Value(s, start, end, base)
  {
    val, end, overflow := 0, start, false;
    while IsDigit(Get(s, end), base)
      invariant start <= end <= |s| && (forall k :: start <= k < end ==> IsDigit(s[k], base))
      invariant val == Value(s, start, end, base) >= 0 && (overflow <==> val > LONG_MAX)
      decreases |s| - end
    {
      ValueGrows(val, base, DigitOf(Get(s, end)));
      val := val * base + DigitOf(Get(s, end));
      overflow := overflow || val > LONG_MAX;
      end := end + 1;
    }
  }

  /** Parse a number: blanks, a sign, a prefix, then the longest run of digits. */
  method StrTol(s: string, base: nat) returns (val: int, end: nat, overflow: bool)
    ensures var blanks := AfterBlanks(s, 0);
            var i := Signed(s, blanks);
            var start, b := Start(s, i, base), Base(s, i, base);
            && DigitRun(s, start, end, b) && (overflow <==> Value(s, start, end, b) > LONG_MAX)
            && (!overflow ==> val == (if Get(s, blanks) == '-' then -1 else 1) * Value(s, start, end, b))
  {
    hide AfterBlanks, DigitRun, Value;
    var p := SkipBlanks(s);
    var neg := false;
    if Get(s, p) == '+' {
      p := p + 1;
    } else if Get(s, p) == '-' {
      p := p + 1;
      neg := true;
    }
    var b := base;
    if (base == 0 || base == 16) && Get(s, p) == '0' && Get(s, p + 1) == 'x' {
      p := p + 2;
      b := 16;
    } else if base == 0 && Get(s, p) == '0' {
      p := p + 1;
      b := 8;
    } else if base == 0 {
      b := 10;
    }
    val, end, overflow := ReadDigits(s, p, b);
    if neg {
      val := -val;
    }
  }

  // ----- there and back -----

  lemma DigitBack(d: nat, base: nat)
    requires d < base <= 16
    ensures DigitOf(DIGITS[d]) == d && IsDigit(DIGITS[d], base) && !IsBlank(DIGITS[d])
    ensures DIGITS[d] != '+' && DIGITS[d] != '-' && DIGITS[d] != 'x'
  {
    assert DIGITS[0] == '0' && DIGITS[1] == '1' && DIGITS[2] == '2' && DIGITS[3] == '3' && DIGITS[4] == '4' &&
           DIGITS[5] == '5';
    assert DIGITS[6] == '6' && DIGITS[7] == '7' && DIGITS[8] == '8' && DIGITS[9] == '9' && DIGITS[10] == 'a' &&
           DIGITS[11] == 'b';
    assert DIGITS[12] == 'c' && DIGITS[13] == 'd' && DIGITS[14] == 'e' && DIGITS[15] == 'f';
  }

  /** A character that the printer writes for a digit. */
  ghost predicate Plain(c: char, base: nat) {
    IsDigit(c, base) && !IsBlank(c) && c != '+' && c != '-' && c != 'x'
  }

  lemma {:induction false} DigitsPlain(num: nat, base: nat)
    requires 2 <= base <= 16
    ensures |Digits(num, base)| >= 1 && forall k :: 0 <= k < |Digits(num, base)| ==> Plain(Digits(num, base)[k], base)
    decreases num
  {
    hide DigitOf;
    if num < base {
      DigitBack(num, base);
    } else {
      DigitsPlain(num / base, base);
      DigitBack(num % base, base);
    }
  }

  lemma DigitsStep(num: nat, base: nat)
    requires 2 <= base <= 16
    ensures num < base ==> Digits(num, base) == [DIGITS[num]]
    ensures num >= base ==> Digits(num, base) == Digits(num / base, base) + [DIGITS[num % base]]
  {
  }

  lemma ValueStep(s: string, i: nat, j: nat, base: nat, q: int, d: int)
    requires i <= j < |s| && Value(s, i, j, base) == q && DigitOf(s[j]) == d
    ensures Value(s, i, j + 1, base) == q * base + d
  {
  }

  lemma NoValue(s: string, i: nat, base: nat)
    requires i <= |s|
    ensures Value(s, i, i, base) == 0
  {
  }

  lemma Recompose(num: nat, base: nat, q: int, d: int)
    requires base > 0 && q == num / base && d == num % base
    ensures q * base + d == num
  {
  }

  /** The digits that follow at `i` have the number as their value. */
  lemma {:induction false} DigitsValue(s: string, i: nat, num: nat, base: nat)
    requires 2 <= base <= 16 && i + |Digits(num, base)| <= |s| && s[i..i + |Digits(num, base)|] == Digits(num, base)
    ensures Value(s, i, i + |Digits(num, base)|, base) == num
    decreases num
  {
    hide Digits, Value, DigitOf;
    DigitsStep(num, base);
    if num < base {
      DigitBack(num, base);
      assert s[i] == s[i..i + 1][0];
      NoValue(s, i, base);
      ValueStep(s, i, i, base, 0, num);
    } else {
      var q, r := num / base, num % base;
      var front := Digits(q, base);
      Smaller(num, base);
      LastDigit(s, i, front, DIGITS[r]);
      DigitsValue(s, i, q, base);
      DigitBack(r, base);
      ValueStep(s, i, i + |front|, base, q, r);
      Recompose(num, base, q, r);
    }
  }

  lemma LastDigit(s: string, i: nat, front: string, c: char)
    requires i + |front| + 1 <= |s| && s[i..i + |front| + 1] == front + [c]
    ensures s[i..i + |front|] == front && s[i + |front|] == c
  {
    var all := s[i..i + |front| + 1];
    assert all[..|front|] == s[i..i + |front|] && all[|front|] == s[i + |front|];
  }

  /** What the printer writes. */
  ghost function Printed(num: nat, base: nat, width: int, padc: char): string
    requires 2 <= base <= 16
  {
    Padding(width - |Digits(num, base)|, padc) + Digits(num, base)
  }

  /** Leading zeros do not change the value. */
  lemma {:induction false} ZeroValue(s: string, i: nat, j: nat, base: nat)
    requires i <= j <= |s| && forall k :: i <= k < j ==> s[k] == '0'
    ensures Value(s, i, j, base) == 0
  {
    if i < j {
      ZeroValue(s, i, j - 1, base);
    }
  }

  lemma {:induction false} ValueSkips(s: string, i: nat, m: nat, j: nat, base: nat)
    requires i <= m <= j <= |s| && Value(s, i, m, base) == 0
    ensures Value(s, i, j, base) == Value(s, m, j, base)
  {
    if m < j {
      ValueSkips(s, i, m, j - 1, base);
    }
  }

  /** The whole output is one number for the parser: where it has to stop is the end. */
  lemma ReadBack(num: nat, base: nat, width: int, padc: char, end: nat)
    requires 2 <= base <= 16 && (padc == ' ' || padc == '0')
    requires var s := Printed(num, base, width, padc);
             var i := Signed(s, AfterBlanks(s, 0)); DigitRun(s, Start(s, i, base), end, Base(s, i, base))
    ensures var s := Printed(num, base, width, padc);
            var blanks := AfterBlanks(s, 0);
            && end == |s| && Get(s, blanks) != '-' && Signed(s, blanks) == blanks
            && Start(s, blanks, base) == blanks && Base(s, blanks, base) == base && Value(s, blanks, end, base) == num
  {
    var s := Printed(num, base, width, padc);
    var n := |s| - |Digits(num, base)|;
    PrintedShape(num, base, width, padc);
    hide Printed, Digits, Plain, Value;
    PrintedRun(s, base, padc, n, end);
    hide AfterBlanks, DigitRun, Start, Base, Signed;
    PrintedValue(num, base, width, padc);
  }

  lemma PrintedValue(num: nat, base: nat, width: int, padc: char)
    requires 2 <= base <= 16
    ensures var s := Printed(num, base, width, padc);
            var n := |s| - |Digits(num, base)|;
            n >= 0 && Value(s, n, |s|, base) == num && (padc == '0' ==> Value(s, 0, |s|, base) == num)
  {
    var s, ds := Printed(num, base, width, padc), Digits(num, base);
    var n := |s| - |ds|;
    assert s[n..n + |ds|] == ds;
    PrintedShape(num, base, width, padc);
    hide Printed, Digits, Plain, Value;
    DigitsValue(s, n, num, base);
    if padc == '0' {
      ZeroValue(s, 0, n, base);
      ValueSkips(s, 0, n, |s|, base);
    }
  }

  lemma PrintedShape(num: nat, base: nat, width: int, padc: char)
    requires 2 <= base <= 16
    ensures var s := Printed(num, base, width, padc);
            var n := |s| - |Digits(num, base)|;
            && 0 <= n < |s| && (forall k :: 0 <= k < n ==> s[k] == padc) &&
               (forall k :: n <= k < |s| ==> Plain(s[k], base))
            && |s| == (if width > |Digits(num, base)| then width else |Digits(num, base)|)
  {
    hide IsDigit;
    PaddingLength(width - |Digits(num, base)|, padc);
    DigitsPlain(num, base);
    var s, ds := Printed(num, base, width, padc), Digits(num, base);
    var n := |s| - |ds|;
    forall k | n <= k < |s| ensures Plain(s[k], base) {
      assert s[k] == ds[k - n];
    }
  }

  lemma BlanksEnd(s: string, m: nat)
    requires m < |s| && (forall k :: 0 <= k < m ==> IsBlank(s[k])) && !IsBlank(s[m])
    ensures AfterBlanks(s, 0) == m
  {
  }

  lemma PrintedRun(s: string, base: nat, padc: char, n: nat, end: nat)
    requires 2 <= base <= 16 && (padc == ' ' || padc == '0') && n < |s|
    requires (forall k :: 0 <= k < n ==> s[k] == padc) && (forall k :: n <= k < |s| ==> Plain(s[k], base))
    requires var i := Signed(s, AfterBlanks(s, 0)); DigitRun(s, Start(s, i, base), end, Base(s, i, base))
    ensures var blanks := AfterBlanks(s, 0);
            && blanks == (if padc == ' ' then n else 0) && Get(s, blanks) != '-' && Get(s, blanks) != '+'
            && Start(s, blanks, base) == blanks && Base(s, blanks, base) == base && end == |s|
  {
    var blanks := AfterBlanks(s, 0);
    forall k | 0 <= k < |s|
      ensures s[k] != '+' && s[k] != '-' && s[k] != 'x' && (IsBlank(s[k]) <==> k < n && padc == ' ')
    {
      assert k >= n ==> Plain(s[k], base);
    }
    BlanksEnd(s, if padc == ' ' then n else 0);
    assert Plain('0', base);
    assert forall k :: blanks <= k < |s| ==> IsDigit(s[k], base);
  }

  /** For every number, base from two to sixteen, any width, and padding with blanks or zeros,
      the parser reads all that the printer has written, and reads back the number if and
      only if it fits into a `long`. */
  method RoundTrip(num: nat, base: nat, width: int, padc: char) returns (s: string, val: int, end: nat, overflow: bool)
    requires 2 <= base <= 16 && (padc == ' ' || padc == '0')
    ensures end == |s| && (overflow <==> num > LONG_MAX) && (!overflow ==> val == num)
    ensures |s| == if width > |Digits(num, base)| then width else |Digits(num, base)|
  {
    s := PrintNum("", num, base, width, padc);
    assert s == Printed(num, base, width, padc);
    PrintedShape(num, base, width, padc);
    hide Printed, Digits, Padding, DigitRun, AfterBlanks, Value;
    val, end, overflow := StrTol(s, base);
    ReadBack(num, base, width, padc, end);
  }

  // ----- signs and prefixes -----

  datatype Prefix = NoPrefix | Octal | Hexadecimal

  function Text(prefix: Prefix): string {
    match prefix
    case NoPrefix => ""
    case Octal => "0"
    case Hexadecimal => "0x"
  }

  /** The base that the digits after the prefix are in, if the parser is called with `base`. */
  function DigitBase(prefix: Prefix, base: nat): nat {
    match prefix
    case NoPrefix => if base == 0 then 10 else base
    case Octal => 8
    case Hexadecimal => 16
  }

  /** The parser understands the prefix when it is called with `base`; without one it needs a
      base, or a number that does not begin with a zero. */
  predicate Understood(prefix: Prefix, base: nat, num: nat) {
    match prefix
    case NoPrefix => 2 <= base <= 16 || (base == 0 && num > 0)
    case Octal => base == 0
    case Hexadecimal => base == 0 || base == 16
  }

  lemma {:induction false} FirstDigit(num: nat, base: nat)
    requires 2 <= base <= 16 && num > 0
    ensures |Digits(num, base)| >= 1 && Digits(num, base)[0] != '0'
    decreases num
  {
    hide DigitOf;
    if num < base {
      DigitBack(num, base);
    } else {
      Smaller(num, base);
      FirstDigit(num / base, base);
    }
  }

  predicate IsSign(sign: string) {
    sign == "" || sign == "+" || sign == "-"
  }

  lemma SignRead(s: string, sign: string, rest: string)
    requires IsSign(sign) && s == sign + rest && rest != "" && rest[0] != '+' && rest[0] != '-' && !IsBlank(rest[0])
    ensures AfterBlanks(s, 0) == 0 && Signed(s, 0) == |sign| && (Get(s, 0) == '-' <==> sign == "-")
  {
    if sign == "" {
      assert s[0] == rest[0];
    } else {
      assert s[0] == sign[0];
    }
    BlanksEnd(s, 0);
  }

  /** Where the digits start, and in which base they are. */
  lemma PrefixRead(s: string, i: nat, prefix: Prefix, digits: string, base: nat, num: nat)
    requires i <= |s| && s[i..] == Text(prefix) + digits && digits != "" && Understood(prefix, base, num)
    requires (num > 0 ==> digits[0] != '0') && forall k :: 0 <= k < |digits| ==> digits[k] != 'x'
    ensures Start(s, i, base) == i + |Text(prefix)| && Base(s, i, base) == DigitBase(prefix, base)
  {
    var rest := s[i..];
    assert rest[0] == s[i] == Get(s, i);
    if |rest| > 1 {
      assert rest[1] == s[i + 1] == Get(s, i + 1);
    }
    assert prefix.NoPrefix? ==> rest == digits;
    assert prefix.Octal? ==> rest[0] == '0' && rest[1] == digits[0];
    assert prefix.Hexadecimal? ==> rest[0] == '0' && rest[1] == 'x';
  }

  lemma DigitsRead(s: string, ds: nat, num: nat, b: nat, end: nat)
    requires 2 <= b <= 16 && ds <= |s| && s[ds..] == Digits(num, b) && DigitRun(s, ds, end, b)
    ensures end == |s| && Value(s, ds, end, b) == num
  {
    DigitsPlain(num, b);
    hide Digits, IsDigit, Value;
    var digits := Digits(num, b);
    forall k | ds <= k < |s| ensures IsDigit(s[k], b) {
      assert s[k] == digits[k - ds] && Plain(digits[k - ds], b);
    }
    assert s[ds..ds + |digits|] == digits;
    DigitsValue(s, ds, num, b);
  }

  /** A number that is printed after a sign and a prefix is read back with its sign: hexadecimal
      after 0x, octal after 0 if no base is given, and otherwise in the base given or in ten. */
  method PrefixRoundTrip(num: nat, base: nat, sign: string, prefix: Prefix)
    returns (s: string, val: int, end: nat, overflow: bool)
    requires IsSign(sign) && Understood(prefix, base, num)
    ensures s == sign + Text(prefix) + Digits(num, DigitBase(prefix, base))
    ensures end == |s| && (overflow <==> num > LONG_MAX)
    ensures !overflow ==> val == (if sign == "-" then -1 else 1) * num
  {
    hide Digits, AfterBlanks, Value, DigitRun, Start, Base, Signed, Get, IsSign, Plain;
    var b := DigitBase(prefix, base);
    var digits := PrintDigits(num, b);
    s := sign + Text(prefix) + digits;
    PrefixParts(s, sign, prefix, digits, base, num);
    val, end, overflow := StrTol(s, base);
    DigitsRead(s, |sign| + |Text(prefix)|, num, b, end);
  }

  method PrintDigits(num: nat, base: nat) returns (digits: string)
    requires 2 <= base <= 16
    ensures digits == Digits(num, base) && digits != "" && (num > 0 ==> digits[0] != '0')
    ensures forall k :: 0 <= k < |digits| ==> Plain(digits[k], base)
  {
    digits := PrintNum("", num, base, 0, ' ');
    DigitsPlain(num, base);
    if num > 0 {
      FirstDigit(num, base);
    }
    assert digits == Digits(num, base);
  }

  lemma PrefixParts(s: string, sign: string, prefix: Prefix, digits: string, base: nat, num: nat)
    requires IsSign(sign) && Understood(prefix, base, num) && digits != "" && s == sign + Text(prefix) + digits
    requires (num > 0 ==> digits[0] != '0')
    requires forall k :: 0 <= k < |digits| ==> Plain(digits[k], DigitBase(prefix, base))
    ensures var i, ds := |sign|, |sign| + |Text(prefix)|;
            && AfterBlanks(s, 0) == 0 && Signed(s, 0) == i && (Get(s, 0) == '-' <==> sign == "-")
            && Start(s, i, base) == ds && Base(s, i, base) == DigitBase(prefix, base)
            && ds <= |s| && s[ds..] == digits
  {
    hide AfterBlanks, Start, Base, Signed, Get, IsDigit, IsSign;
    var rest := Text(prefix) + digits;
    assert s == sign + rest;
    assert Plain(digits[0], DigitBase(prefix, base));
    SignRead(s, sign, rest);
    assert s[|sign|..] == rest;
    PrefixRead(s, |sign|, prefix, digits, base, num);
  }
}
