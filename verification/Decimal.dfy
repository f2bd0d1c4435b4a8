/** Decimal numbers as Go prints, parses and scans them. */
module Decimal {
  import opened Wrappers
  import opened Text

  predicate IsDigit(c: char) {
    '0' <= c <= '9'
  }

  function Digit(v: nat): (c: char)
    requires v < 10
    ensures IsDigit(c)
  {
    ('0' as int + v) as char
  }

  predicate AllDigits(s: string) {
    forall c | c in s :: IsDigit(c)
  }

  /** %d of a non-negative number. */
  function Print(n: nat): (s: string)
    ensures s != "" && AllDigits(s)
  {
    if n < 10 then [Digit(n)] else Print(n / 10) + [Digit(n % 10)]
  }

  function Value(s: string): (v: int)
    requires AllDigits(s)
    ensures v >= 0
  {
    if s == "" then 0
    else
      assert forall c | c in s[..|s| - 1] :: c in s;
      assert s[|s| - 1] in s;
      10 * Value(s[..|s| - 1]) + (s[|s| - 1] as int - '0' as int)
  }

  lemma {:induction false} ValueOfPrint(n: nat)
    ensures Value(Print(n)) == n
  {
    if n >= 10 {
      ValueOfPrint(n / 10);
      assert Print(n)[..|Print(n)| - 1] == Print(n / 10);
    }
  }

  lemma DigitIs(v: nat)
    requires v < 10
    ensures Digit(v) == "0123456789"[v]
  {
  }

  /** Base ten: to append a digit is to multiply by ten and add it. */
  lemma PrintAppends(n: nat, d: nat)
    requires d < 10
    ensures Print(d) == ["0123456789"[d]]
    ensures n > 0 ==> Print(10 * n + d) == Print(n) + ["0123456789"[d]]
  {
    DigitIs(d);
    assert (10 * n + d) / 10 == n && (10 * n + d) % 10 == d;
    hide Digit;
  }

  lemma {:induction false} NoLeadingZero(n: nat)
    requires n > 0
    ensures Print(n)[0] != '0'
  {
    if n >= 10 {
      NoLeadingZero(n / 10);
    }
  }

  lemma ValueAppends(s: string, c: char)
    requires AllDigits(s) && '0' <= c <= '9'
    ensures AllDigits(s + [c]) && Value(s + [c]) == 10 * Value(s) + (c as int - '0' as int)
    ensures Value("") == 0
  {
    assert (s + [c])[..|s|] == s;
  }

  /** strconv.FormatInt(i, 10) */
  function FormatInt(i: int): string {
    if i < 0 then "-" + Print(-i) else Print(i)
  }

  const MIN_INT64: int := -0x8000_0000_0000_0000
  const MAX_INT64: int := 0x7FFF_FFFF_FFFF_FFFF

  /** strconv.ParseInt(s, 10, 64): an optional sign, digits, and in range. */
  function ParseInt(s: string): Option<int> {
    var body := if s != "" && (s[0] == '+' || s[0] == '-') then s[1..] else s;
    if body == "" || !AllDigits(body) then None
    else
      var v: int := if s[0] == '-' then -Value(body) else Value(body);
      if MIN_INT64 <= v <= MAX_INT64 then Some(v) else None
  }

  lemma ParseFormat(i: int)
    requires MIN_INT64 <= i <= MAX_INT64
    ensures ParseInt(FormatInt(i)) == Some(i)
  {
    var n: nat := if i < 0 then -i else i;
    ValueOfPrint(n);
    assert Print(n)[0] in Print(n);
    if i < 0 {
      assert FormatInt(i)[1..] == Print(n);
    }
  }

  /** Accepted are exactly digits, at least one, with at most one sign, whose value is one
      of a 64-bit integer. */
  lemma ParsesExactly(s: string, digits: string)
    requires s == digits || s == "+" + digits || s == "-" + digits
    requires digits != "" ==> digits[0] != '+' && digits[0] != '-'
    ensures ParseInt(s) == if digits == "" || exists c :: c in digits && !('0' <= c <= '9') then None
                           else
                             assert AllDigits(digits);
                             var v: int := if s == "-" + digits then -Value(digits) else Value(digits);
                             if -0x8000_0000_0000_0000 <= v <= 0x7FFF_FFFF_FFFF_FFFF then Some(v) else None
  {
    assert s != digits ==> s[1..] == digits;
  }

  lemma FormatInjective(i: int, j: int)
    requires FormatInt(i) == FormatInt(j)
    ensures i == j
  {
    var n: nat := if i < 0 then -i else i;
    var m: nat := if j < 0 then -j else j;
    ValueOfPrint(n);
    ValueOfPrint(m);
    assert Print(n)[0] in Print(n) && Print(m)[0] in Print(m);
    if i < 0 && j < 0 {
      assert FormatInt(i)[1..] == Print(n) && FormatInt(j)[1..] == Print(m);
    }
  }

  lemma FormatHasNo(i: int, c: char)
    requires !IsDigit(c) && c != '-'
    ensures c !in FormatInt(i)
  {
  }

  // ----- fmt.Sscanf -----

  /** Leading blanks are skipped; a newline in their place is an error. */
  function SkipSpace(s: string): Option<string> {
    if s == "" || !IsSpace(s[0]) then Some(s)
    else if s[0] == '\n' then None
    else SkipSpace(s[1..])
  }

  /** How many digits `s` starts with. */
  function DigitRun(s: string): (k: nat)
    ensures k <= |s| && AllDigits(s[..k])
    ensures k < |s| ==> !IsDigit(s[k])
  {
    if s == "" || !IsDigit(s[0]) then 0
    else
      var k := 1 + DigitRun(s[1..]);
      assert s[..k] == [s[0]] + s[1..][..k - 1];
      k
  }

  lemma {:induction false} DigitRunIs(digits: string, rest: string)
    requires AllDigits(digits) && (rest == "" || !IsDigit(rest[0]))
    ensures DigitRun(digits + rest) == |digits|
  {
    if digits == "" {
      assert digits + rest == rest;
    } else {
      assert digits[0] in digits;
      assert forall c | c in digits[1..] :: c in digits;
      assert (digits + rest)[1..] == digits[1..] + rest;
      DigitRunIs(digits[1..], rest);
    }
  }

  datatype Scanned = Scanned(value: int, rest: string)

  /** The verb %d into an unsigned integer of at most `max`. */
  function ScanUint(s: string, max: nat): Option<Scanned> {
    match SkipSpace(s)
    case None => None
    case Some(t) =>
      var k := DigitRun(t);
      if k == 0 || Value(t[..k]) > max then None else Some(Scanned(Value(t[..k]), t[k..]))
  }

  /** The verb %d into an int. */
  function ScanInt(s: string): Option<Scanned> {
    match SkipSpace(s)
    case None => None
    case Some(t) =>
      var u := if t != "" && (t[0] == '+' || t[0] == '-') then t[1..] else t;
      var k := DigitRun(u);
      if k == 0 then None
      else
        var v: int := if t[0] == '-' then -Value(u[..k]) else Value(u[..k]);
        if MIN_INT64 <= v <= MAX_INT64 then Some(Scanned(v, u[k..])) else None
  }

  /** Literal text of a format must match the input. */
  function ScanLiteral(s: string, literal: string): Option<string> {
    if literal <= s then Some(s[|literal|..]) else None
  }

  lemma ScanPrinted(n: nat, max: nat, rest: string)
    requires n <= max && (rest == "" || !IsDigit(rest[0]))
    ensures ScanUint(Print(n) + rest, max) == Some(Scanned(n, rest))
    ensures n <= MAX_INT64 ==> ScanInt(Print(n) + rest) == Some(Scanned(n, rest))
  {
    hide Print, Value, DigitRun;
    var s := Print(n) + rest;
    assert s[0] == Print(n)[0] && Print(n)[0] in Print(n);
    DigitRunIs(Print(n), rest);
    assert s[..|Print(n)|] == Print(n) && s[|Print(n)|..] == rest;
    ValueOfPrint(n);
  }

  lemma PrintedRun(n: nat, rest: string)
    requires rest == "" || !IsDigit(rest[0])
    ensures
      var s := Print(n) + rest;
      var k := DigitRun(s);
      && k == |Print(n)| > 0 && s[..k] == Print(n) && s[k..] == rest && IsDigit(s[0])
      && AllDigits(s[..k]) && Value(s[..k]) == n
  {
    hide Print, Value, DigitRun;
    var s := Print(n) + rest;
    assert s[0] == Print(n)[0] && Print(n)[0] in Print(n);
    DigitRunIs(Print(n), rest);
    assert s[..|Print(n)|] == Print(n) && s[|Print(n)|..] == rest;
    ValueOfPrint(n);
  }

  lemma ScanIntOf(t: string, u: string)
    requires t != "" && !IsSpace(t[0]) && u == (if t[0] == '+' || t[0] == '-' then t[1..] else t)
    requires DigitRun(u) > 0
    ensures
      var k := DigitRun(u);
      var v: int := if t[0] == '-' then -Value(u[..k]) else Value(u[..k]);
      ScanInt(t) == if -0x8000_0000_0000_0000 <= v < 0x8000_0000_0000_0000 then Some(Scanned(v, u[k..])) else None
  {
    hide Value, DigitRun, AllDigits, IsSpace;
    assert SkipSpace(t) == Some(t);
    hide SkipSpace;
  }

  /** An int may have a sign, and must fit 64 bits. */
  lemma ScanSigned(sign: string, n: nat, rest: string)
    requires (rest == "" || !IsDigit(rest[0])) && (sign == "" || sign == "+" || sign == "-")
    ensures
      var v: int := if sign == "-" then -(n as int) else n;
      ScanInt(sign + (Print(n) + rest))
      == if -0x8000_0000_0000_0000 <= v < 0x8000_0000_0000_0000 then Some(Scanned(v, rest)) else None
  {
    hide Print, Value, DigitRun, AllDigits, ScanInt, IsSpace;
    PrintedRun(n, rest);
    var s := Print(n) + rest;
    if sign == "" {
      assert sign + s == s;
      NotBlank(s[0]);
      ScanIntOf(s, s);
    } else {
      var t := sign + s;
      assert t[1..] == s && t[0] == sign[0];
      NotBlank(t[0]);
      ScanIntOf(t, s);
    }
  }

  lemma NotBlank(c: char)
    requires IsDigit(c) || c == '+' || c == '-'
    ensures !IsSpace(c)
  {
  }

  /** A number that is too large is refused, not cut off. */
  lemma ScanTooLarge(n: nat, max: nat, rest: string)
    requires n > max && (rest == "" || !IsDigit(rest[0]))
    ensures ScanUint(Print(n) + rest, max) == None
  {
    hide Print, Value, DigitRun;
    var s := Print(n) + rest;
    assert s[0] == Print(n)[0] && Print(n)[0] in Print(n);
    DigitRunIs(Print(n), rest);
    assert s[..|Print(n)|] == Print(n);
    ValueOfPrint(n);
  }

  lemma {:induction false} SkipBlanks(blanks: string, s: string)
    requires forall c | c in blanks :: c == ' ' || c == '\t' || c == '\r'
    ensures SkipSpace(blanks + s) == SkipSpace(s)
  {
    if blanks == "" {
      assert blanks + s == s;
    } else {
      assert blanks[0] in blanks;
      assert forall c | c in blanks[1..] :: c in blanks;
      assert (blanks + s)[1..] == blanks[1..] + s;
      SkipBlanks(blanks[1..], s);
    }
  }

  /** Blanks before the number are skipped, but no newline. */
  lemma ScanSkipsBlanks(blanks: string, s: string, max: nat)
    requires forall c | c in blanks :: c == ' ' || c == '\t' || c == '\r'
    ensures ScanUint(blanks + s, max) == ScanUint(s, max) && ScanInt(blanks + s) == ScanInt(s)
    ensures ScanUint(blanks + ("\n" + s), max) == None && ScanInt(blanks + ("\n" + s)) == None
  {
    hide Value, DigitRun, AllDigits;
    SkipBlanks(blanks, s);
    SkipBlanks(blanks, "\n" + s);
    NewlineStops(s);
    hide SkipSpace, IsSpace;
  }

  lemma NewlineStops(s: string)
    ensures SkipSpace("\n" + s) == None
  {
  }

  /** Another digit makes another number. */
  lemma {:induction false} LongerIsLarger(digits: string, more: string)
    requires AllDigits(digits + more) && AllDigits(digits) && more != ""
    ensures Value(digits + more) >= 10 * Value(digits)
  {
    var s := digits + more;
    assert forall c | c in s[..|s| - 1] :: c in s;
    assert s[..|s| - 1] == digits + more[..|more| - 1];
    assert s[|s| - 1] in s;
    if |more| > 1 {
      LongerIsLarger(digits, more[..|more| - 1]);
    } else {
      assert s[..|s| - 1] == digits;
    }
  }

  lemma {:induction false} DigitRunAtLeast(digits: string, rest: string)
    requires AllDigits(digits)
    ensures DigitRun(digits + rest) >= |digits|
  {
    if digits != "" {
      assert digits[0] in digits;
      assert forall c | c in digits[1..] :: c in digits;
      assert (digits + rest)[1..] == digits[1..] + rest;
      DigitRunAtLeast(digits[1..], rest);
    }
  }

  lemma ScanIntIsValue(s: string)
    requires s != "" && IsDigit(s[0])
    ensures ScanInt(s).Some? ==> ScanInt(s).value.value == Value(s[..DigitRun(s)])
  {
    hide Value, DigitRun;
  }

  /** A digit after a printed number is scanned as part of it. */
  lemma {:induction false} ScanReadsOn(n: nat, rest: string)
    requires n > 0 && rest != "" && IsDigit(rest[0])
    ensures ScanInt(Print(n) + rest).Some? ==> ScanInt(Print(n) + rest).value.value >= 10 * n
  {
    hide Print, Value, DigitRun, ScanInt;
    var p, s := Print(n), Print(n) + rest;
    assert s[0] == p[0] && p[0] in p;
    var longer := p + [rest[0]];
    assert AllDigits(longer) && s == longer + rest[1..];
    DigitRunAtLeast(longer, rest[1..]);
    var k := DigitRun(s);
    assert s[..k] == p + s[|p|..k];
    LongerIsLarger(p, s[|p|..k]);
    ValueOfPrint(n);
    ScanIntIsValue(s);
  }

  lemma ScanLiteralPrefix(literal: string, rest: string)
    ensures ScanLiteral(literal + rest, literal) == Some(rest)
  {
  }
}
