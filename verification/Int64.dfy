/** 64-bit signed counters, and the decimal texts block sizes travel as. */
module Int64 {

  const MAX: int := 0x7fff_ffff_ffff_ffff
  const MIN: int := -0x8000_0000_0000_0000
  const MAX_UNSIGNED: int := 0xffff_ffff_ffff_ffff
  const RANGE: int := 0x1_0000_0000_0000_0000

  /** The 64-bit two's complement reading of a mathematical integer. */
  function Wrap(x: int): (r: int)
    ensures MIN <= r <= MAX
    ensures MIN <= x <= MAX ==> r == x
  {
    (x - MIN) % RANGE + MIN
  }

  /** Wrapping as one goes is wrapping once at the end. */
  lemma {:induction false} WrapAdd(x: int, y: int)
    ensures Wrap(Wrap(x) + y) == Wrap(x + y) == Wrap(x + Wrap(y))
  {
    var i, j := (x - MIN) / RANGE, (y - MIN) / RANGE;
    assert Wrap(x) == x - i * RANGE && Wrap(y) == y - j * RANGE;
    ModShift(x + y - MIN, i);
    ModShift(x + y - MIN, j);
  }

  lemma {:induction false} WrapAddBoth(x: int, y: int)
    ensures Wrap(Wrap(x) + Wrap(y)) == Wrap(x + y)
  {
    WrapAdd(x, Wrap(y));
    WrapAdd(x, y);
  }

  lemma {:induction false} ModShift(a: int, k: int)
    ensures (a - k * RANGE) % RANGE == a % RANGE
  {
  }

  lemma {:induction false} MulNonNegative(a: nat, b: int)
    requires b >= 0
    ensures a * b >= 0
  {
  }

  // ---------- decimal texts ----------

  predicate IsDigit(c: char) { '0' <= c <= '9' }

  function DigitChar(d: nat): (c: char)
    requires d < 10
    ensures IsDigit(c) && DigitValue(c) == d
  {
    "0123456789"[d]
  }

  function DigitValue(c: char): (d: nat)
    requires IsDigit(c)
    ensures d < 10
  {
    c as int - '0' as int
  }

  /** `%d` of a non-negative number. */
  function Print(n: nat): (s: string)
    ensures s != [] && IsDigit(s[0])
  {
    if n < 10 then [DigitChar(n)] else Print(n / 10) + [DigitChar(n % 10)]
  }

  datatype Parsed = Value(n: nat) | OutOfRange | BadSyntax

  /** Reads digits from the left and stops at the first bad character or at the first overflow of 64 bits. */
  function ParseDigits(s: string): Parsed {
    if s == [] then Value(0) else
    match ParseDigits(s[..|s| - 1])
    case BadSyntax => BadSyntax
    case OutOfRange => OutOfRange
    case Value(acc) =>
      var c := s[|s| - 1];
      if !IsDigit(c) then BadSyntax
      else if acc * 10 + DigitValue(c) > MAX_UNSIGNED then OutOfRange
      else Value(acc * 10 + DigitValue(c))
  }

  /** The number `strconv.ParseInt(s, 10, 64)` returns, whatever error comes with it: zero for bad syntax, the nearest
      limit for a number out of range. */
  function Parse(s: string): (r: int)
    ensures MIN <= r <= MAX
  {
    var signed := s != [] && (s[0] == '+' || s[0] == '-');
    var negative := signed && s[0] == '-';
    var digits := if signed then s[1..] else s;
    if digits == [] then 0 else
    match ParseDigits(digits)
    case BadSyntax => 0
    case OutOfRange => if negative then MIN else MAX
    case Value(n) => if negative then (if 0 - n < MIN then MIN else 0 - n) else Saturate(n)
  }

  function Saturate(n: nat): nat { if n > MAX then MAX else n }

  lemma {:induction false} ParseDigitsPrint(n: nat)
    ensures ParseDigits(Print(n)) == if n > MAX_UNSIGNED then OutOfRange else Value(n)
  {
    if n < 10 {
      assert [DigitChar(n)][..0] == [];
    } else {
      ParseDigitsPrint(n / 10);
      assert (Print(n / 10) + [DigitChar(n % 10)])[..|Print(n / 10)|] == Print(n / 10);
    }
  }

  /** Printing and parsing undo each other up to the largest signed number, and stop there. */
  lemma {:induction false} ParsePrint(n: nat)
    ensures Parse(Print(n)) == Saturate(n)
    ensures Parse(Print(n)) == n <==> n <= MAX
  {
    ParseDigitsPrint(n);
  }

  /** A sign is read, and the limit below is that of the counters too. */
  lemma {:induction false} ParseSigned(n: nat)
    ensures Parse("-" + Print(n)) == if 0 - n < MIN then MIN else 0 - n
    ensures Parse("+" + Print(n)) == Saturate(n)
  {
    ParseDigitsPrint(n);
    assert ("-" + Print(n))[1..] == Print(n) && ("+" + Print(n))[1..] == Print(n);
  }

  lemma {:induction false} BadStaysBad(s: string, rest: string)
    requires ParseDigits(s).BadSyntax?
    ensures ParseDigits(s + rest).BadSyntax?
  {
    if rest == [] {
      assert s + rest == s;
    } else {
      BadStaysBad(s, rest[..|rest| - 1]);
      assert (s + rest)[..|s + rest| - 1] == s + rest[..|rest| - 1];
    }
  }

  /** A text that is not a number counts for nothing, whatever comes after the first character that is not a digit. */
  lemma {:induction false} ParseBad(n: nat, c: char, rest: string)
    requires n <= MAX_UNSIGNED && !IsDigit(c)
    ensures Parse(Print(n) + [c] + rest) == 0
  {
    ParseDigitsPrint(n);
    var s := Print(n) + [c];
    assert s[..|s| - 1] == Print(n);
    BadStaysBad(s, rest);
    assert (s + rest)[0] == Print(n)[0];
  }
}
