/** Numbers as text: what `std::to_string` and `std::hex` print, and what the C library's
    `strtoul` reads back. */
module Numerals {
  import opened Text

  const ULONG_MAX: nat := 0xFFFF_FFFF_FFFF_FFFF
  const LONG_MAX: nat := 0x7FFF_FFFF_FFFF_FFFF

  /** The two bases the source prints and reads. */
  type Base = b: nat | b == 10 || b == 16 witness 10

  /** `acc * base + d`, `n / base` and `n % base`, by cases so that each is linear. */
  function Push(acc: nat, base: Base, d: nat): nat {
    if base == 10 then 10 * acc + d else 16 * acc + d
  }

  function Quotient(n: nat, base: Base): (q: nat)
    ensures n >= base ==> q < n
  {
    if base == 10 then n / 10 else n / 16
  }

  function Remainder(n: nat, base: Base): (d: nat)
    ensures d < base && Push(Quotient(n, base), base, d) == n
  {
    if base == 10 then n % 10 else n % 16
  }

  /** The value of a digit in any base up to 16, or 16 for every other character. */
  function DigitValue(c: char): (d: nat)
    ensures d <= 16
  {
    if '0' <= c <= '9' then c as int - '0' as int
    else if 'a' <= c <= 'f' then c as int - 'a' as int + 10
    else if 'A' <= c <= 'F' then c as int - 'A' as int + 10
    else 16
  }

  function LowerDigit(d: nat): (c: char)
    requires d < 16
    ensures DigitValue(c) == d && ('0' <= c <= '9' || 'a' <= c <= 'f')
  {
    if d < 10 then ('0' as int + d) as char else ('a' as int + d - 10) as char
  }

  function UpperDigit(d: nat): (c: char)
    requires d < 16
    ensures DigitValue(c) == d && ('0' <= c <= '9' || 'A' <= c <= 'F')
  {
    if d < 10 then ('0' as int + d) as char else ('A' as int + d - 10) as char
  }

  predicate AllDigits(s: string, base: Base) {
    forall i :: 0 <= i < |s| ==> DigitValue(s[i]) < base
  }

  /** Positional notation, most significant digit first, without leading zeros. */
  function Print(n: nat, base: Base): (s: string)
    ensures |s| >= 1 && AllDigits(s, base)
    ensures base == 10 ==> forall i :: 0 <= i < |s| ==> '0' <= s[i] <= '9'
  {
    if n < base then [LowerDigit(n)] else Print(Quotient(n, base), base) + [LowerDigit(Remainder(n, base))]
  }

  /** Exactly `width` digits, as `%0*X` prints a number that fits. */
  function PrintPadded(n: nat, width: nat): (s: string)
    ensures |s| == width && AllDigits(s, 16)
  {
    if width == 0 then "" else PrintPadded(n / 16, width - 1) + [UpperDigit(n % 16)]
  }

  /** Reads digits from the front of `s` until a character is not one. */
  function ReadDigits(s: string, base: Base, acc: nat): nat {
    if s == "" || DigitValue(s[0]) >= base then acc
    else ReadDigits(s[1..], base, Push(acc, base, DigitValue(s[0])))
  }

  function SkipSpace(s: string): (t: string)
    ensures |t| <= |s|
    ensures s != "" && !IsSpace(s[0]) ==> t == s
  {
    if s != "" && IsSpace(s[0]) then SkipSpace(s[1..]) else s
  }

  /** `0x` is a prefix in base 16 only when a digit follows it. */
  function SkipHexPrefix(s: string, base: Base): string {
    if base == 16 && |s| > 2 && s[0] == '0' && (s[1] == 'x' || s[1] == 'X') && DigitValue(s[2]) < 16
    then s[2..] else s
  }

  datatype Scanned = Scanned(negative: bool, found: bool, magnitude: nat)

  /** What `strtol` and `strtoul` have in common: blanks, a sign, a prefix, digits. */
  function Scan(s: string, base: Base): Scanned {
    var t := SkipSpace(s);
    var signed := t != "" && (t[0] == '-' || t[0] == '+');
    var u := SkipHexPrefix(if signed then t[1..] else t, base);
    Scanned(signed && t[0] == '-', u != "" && DigitValue(u[0]) < base, ReadDigits(u, base, 0))
  }

  /** `strtoul(s, NULL, base)` with a 64-bit `unsigned long`. */
  function Strtoul(s: string, base: Base): (r: nat)
    ensures r <= ULONG_MAX
  {
    var n := Scan(s, base);
    if n.magnitude > ULONG_MAX then ULONG_MAX
    else if n.negative then (ULONG_MAX + 1 - n.magnitude) % (ULONG_MAX + 1)
    else n.magnitude
  }

  // ---------------------------------------------------------------- round trips

  lemma {:induction false} ReadThrough(a: string, t: string, base: Base, acc: nat)
    requires AllDigits(a, base)
    ensures ReadDigits(a + t, base, acc) == ReadDigits(t, base, ReadDigits(a, base, acc))
  {
    if a == "" {
      assert a + t == t;
    } else {
      assert (a + t)[1..] == a[1..] + t;
      ReadThrough(a[1..], t, base, Push(acc, base, DigitValue(a[0])));
    }
  }

  lemma ReadOne(d: nat, s: string, base: Base, acc: nat)
    requires |s| == 1 && DigitValue(s[0]) == d < base
    ensures ReadDigits(s, base, acc) == Push(acc, base, d)
  {
    assert s[1..] == "";
  }

  lemma {:induction false} ReadPrinted(n: nat, base: Base)
    ensures ReadDigits(Print(n, base), base, 0) == n
  {
    if n >= base {
      var head, last := Print(Quotient(n, base), base), [LowerDigit(Remainder(n, base))];
      ReadPrinted(Quotient(n, base), base);
      ReadThrough(head, last, base, 0);
      ReadOne(Remainder(n, base), last, base, Quotient(n, base));
    } else {
      ReadOne(n, Print(n, base), base, 0);
    }
  }

  lemma {:induction false} ReadPadded(n: nat, width: nat)
    requires n < Power16(width)
    ensures ReadDigits(PrintPadded(n, width), 16, 0) == n
  {
    if width > 0 {
      var head, last := PrintPadded(n / 16, width - 1), [UpperDigit(n % 16)];
      ReadPadded(n / 16, width - 1);
      ReadThrough(head, last, 16, 0);
      ReadOne(n % 16, last, 16, n / 16);
    }
  }

  function Power16(w: nat): nat {
    if w == 0 then 1 else 16 * Power16(w - 1)
  }

  /** Reading stops at the first character that is no digit, whatever follows. */
  lemma ReadStops(a: string, t: string, base: Base)
    requires AllDigits(a, base)
    requires t == "" || DigitValue(t[0]) >= base
    ensures ReadDigits(a + t, base, 0) == ReadDigits(a, base, 0)
  {
    ReadThrough(a, t, base, 0);
  }

  /** `strtoul` and `strtol` on a run of digits followed by something that is neither a digit
      nor an `x`: no sign, no blank and no prefix is seen. */
  lemma ScanDigits(a: string, t: string, base: Base)
    requires a != "" && AllDigits(a, base)
    requires t == "" || (DigitValue(t[0]) >= base && t[0] != 'x' && t[0] != 'X')
    ensures Scan(a + t, base) == Scanned(false, true, ReadDigits(a, base, 0))
  {
    var s := a + t;
    assert s[0] == a[0];
    assert SkipSpace(s) == s;
    if |s| > 1 {
      assert s[1] == if |a| > 1 then a[1] else t[0];
    }
    ReadStops(a, t, base);
  }

  lemma ScanPrinted(n: nat, t: string, base: Base)
    requires t == "" || (DigitValue(t[0]) >= base && t[0] != 'x' && t[0] != 'X')
    ensures Scan(Print(n, base) + t, base) == Scanned(false, true, n)
  {
    ScanDigits(Print(n, base), t, base);
    ReadPrinted(n, base);
  }

  lemma StrtoulPrinted(n: nat, t: string, base: Base)
    requires n <= ULONG_MAX
    requires t == "" || (DigitValue(t[0]) >= base && t[0] != 'x' && t[0] != 'X')
    ensures Strtoul(Print(n, base) + t, base) == n
  {
    ScanPrinted(n, t, base);
  }

  /** A minus sign in front of printed digits: what follows is read as without it. */
  lemma ScanNegative(n: nat, base: Base)
    ensures Scan("-" + Print(n, base), base) == Scanned(true, true, n)
  {
    hide ReadDigits, Print;
    var digits := Print(n, base);
    var s := "-" + digits;
    assert s[1..] == digits && digits + "" == digits;
    ScanPrinted(n, "", base);
    NoPrefix(digits, base);
  }

  lemma NoPrefix(digits: string, base: Base)
    requires digits != "" && AllDigits(digits, base)
    ensures SkipSpace(digits) == digits && SkipHexPrefix(digits, base) == digits && digits[0] != '-' && digits[0] != '+'
  {
    assert DigitValue(digits[0]) < base;
    if |digits| > 1 {
      assert DigitValue(digits[1]) < base;
    }
  }

  /** `strtoul` saturates, and wraps a negative number around. */
  lemma StrtoulExtremes(n: nat, base: Base)
    ensures n > ULONG_MAX ==> Strtoul(Print(n, base), base) == ULONG_MAX && Strtoul("-" + Print(n, base), base) == ULONG_MAX
    ensures 0 < n <= ULONG_MAX ==> Strtoul("-" + Print(n, base), base) == ULONG_MAX + 1 - n
  {
    hide Scan, Print;
    ScanNegative(n, base);
    ScanPrinted(n, "", base);
    assert Print(n, base) + "" == Print(n, base);
  }
}
