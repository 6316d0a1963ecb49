/**
 * The text conversions of Go's `fmt` and `strconv` that the client relies on:
 * `%d` of an integer, `strconv.Atoi` with its error dropped, and `%q` of a
 * byte string (that is, `strconv.Quote`), each with the inverse that shows
 * no information is lost.
 */
module Format {
  import opened Options

  /** Go's `int64`, and `int` on a 64-bit platform */
  newtype int64 = x: int | -0x8000_0000_0000_0000 <= x < 0x8000_0000_0000_0000

  const MinInt64: int := -0x8000_0000_0000_0000
  const MaxInt64: int := 0x7fff_ffff_ffff_ffff

  predicate IsDigit(c: char)
  {
    '0' <= c <= '9'
  }

  predicate AllDigits(s: string)
  {
    forall i :: 0 <= i < |s| ==> IsDigit(s[i])
  }

  function DigitChar(d: nat): (c: char)
    requires d < 10
    ensures IsDigit(c)
  {
    ('0' as int + d) as char
  }

  function DigitValue(c: char): nat
    requires IsDigit(c)
  {
    c as int - '0' as int
  }

  /** The decimal digits of `n`, most significant first, without leading zeros */
  function NatDigits(n: nat): (r: string)
    ensures |r| > 0 && AllDigits(r)
    ensures n < 10 <==> |r| == 1
    ensures r[0] == '0' <==> n == 0
    decreases n
  {
    if n < 10 then [DigitChar(n)] else NatDigits(n / 10) + [DigitChar(n % 10)]
  }

  /** `fmt`'s `%d`: an optional minus sign, then the digits */
  function Decimal(n: int): (r: string)
    ensures |r| > 0
    ensures n >= 0 ==> AllDigits(r)
    ensures n < 0 ==> r[0] == '-' && AllDigits(r[1..])
    ensures n >= 0 ==> (r[0] == '0' <==> n == 0)
    ensures n < 0 ==> |r| > 1 && r[1] != '0'
  {
    if n < 0 then "-" + NatDigits(-n) else NatDigits(n)
  }

  /** The number a string of decimal digits stands for */
  function DigitsValue(s: string): nat
    requires AllDigits(s)
    decreases |s|
  {
    if s == [] then 0 else DigitsValue(s[..|s| - 1]) * 10 + DigitValue(s[|s| - 1])
  }

  /** The largest `uint64`, beyond which `strconv.ParseUint` stops with a range error */
  const MaxUint64: int := 0xffff_ffff_ffff_ffff

  /** The longest run of decimal digits that `t` starts with */
  function LeadingDigits(t: string): (r: string)
    ensures |r| <= |t| && r == t[..|r|] && AllDigits(r)
    ensures |r| < |t| ==> !IsDigit(t[|r|])
  {
    if t == [] || !IsDigit(t[0]) then [] else [t[0]] + LeadingDigits(t[1..])
  }

  /** The nearest `int64`, as `strconv.ParseInt` returns it with a range error */
  function Clamp64(v: int): int64
  {
    if v < MinInt64 then MinInt64 as int64
    else if v > MaxInt64 then MaxInt64 as int64
    else v as int64
  }

  /** `s` without its sign, if it has one */
  function Unsigned(s: string): string
  {
    if |s| > 0 && (s[0] == '+' || s[0] == '-') then s[1..] else s
  }

  /** What `strconv.ParseInt` accepts in base 10: an optional sign, then one or more digits */
  predicate DecimalText(s: string)
  {
    Unsigned(s) != [] && AllDigits(Unsigned(s))
  }

  /** The signed value of a decimal text, before any range check */
  function SignedValue(s: string): int
    requires DecimalText(s)
  {
    if s[0] == '-' then -(DigitsValue(Unsigned(s)) as int) else DigitsValue(Unsigned(s))
  }

  /**
   * `strconv.ParseUint` reads the digits after the sign one at a time and
   * gives up with a range error as soon as the value read so far exceeds
   * `MaxUint64`, before it looks at the characters that follow.
   */
  predicate Overflows(s: string)
  {
    DigitsValue(LeadingDigits(Unsigned(s))) > MaxUint64
  }

  /**
   * `strconv.Atoi(s)` with its error dropped, as the caller does: when the
   * digits after the optional sign overflow `uint64` before anything else is
   * seen, the `int64` bound of that sign, whatever follows; otherwise an
   * optional sign and one or more decimal digits give their value, clamped
   * to the `int64` range when it does not fit; any other string gives 0.
   */
  function Atoi(s: string): (r: int64)
    ensures Overflows(s) ==> r == if s[0] == '-' then MinInt64 as int64 else MaxInt64 as int64
    ensures !DecimalText(s) && !Overflows(s) ==> r == 0
    ensures DecimalText(s) ==> r == Clamp64(SignedValue(s))
    ensures !(exists k :: 0 <= k < |s| && IsDigit(s[k])) ==> r == 0
  {
    var signed := |s| > 0 && (s[0] == '+' || s[0] == '-');
    var body := if signed then s[1..] else s;
    var run := DigitsValue(LeadingDigits(body));
    assert AllDigits(body) ==> LeadingDigits(body) == body;
    if run > MaxUint64 then
      if signed && s[0] == '-' then MinInt64 as int64 else MaxInt64 as int64
    else if body == [] || !AllDigits(body) then 0
    else if signed && s[0] == '-' then Clamp64(-(DigitsValue(body) as int))
    else Clamp64(DigitsValue(body))
  }

  lemma {:induction false} DigitsValueOfNatDigits(n: nat)
    ensures DigitsValue(NatDigits(n)) == n
    decreases n
  {
    if n >= 10 {
      var p := NatDigits(n / 10);
      var s := p + [DigitChar(n % 10)];
      assert s[..|s| - 1] == p;
      DigitsValueOfNatDigits(n / 10);
    }
  }

  /**
   * `Atoi` reads back what `%d` writes for any integer, clamped to the
   * `int64` range when it is out of range.
   */
  lemma AtoiClamps(n: int)
    ensures Atoi(Decimal(n)) == Clamp64(n)
  {
    var s := Decimal(n);
    if n < 0 {
      assert s[1..] == NatDigits(-n);
      DigitsValueOfNatDigits(-n);
    } else {
      DigitsValueOfNatDigits(n);
    }
  }

  /** `Atoi` reads back what `%d` writes, for every `int64`. */
  lemma AtoiOfDecimal(n: int64)
    ensures Atoi(Decimal(n as int)) == n
  {
    AtoiClamps(n as int);
  }

  /** A leading `+` is accepted and changes nothing. */
  lemma AtoiPlusSign(n: nat)
    ensures Atoi("+" + Decimal(n)) == Clamp64(n)
  {
    var s := "+" + Decimal(n);
    assert s[1..] == NatDigits(n);
    DigitsValueOfNatDigits(n);
  }

  /**
   * Texts `strconv.Atoi` rejects with a syntax error, and which therefore
   * give 0: a trailing letter, a doubled sign, leading blank, a bare sign,
   * a digit separator, the empty text.
   */
  lemma AtoiSyntaxErrors()
    ensures Atoi("1x") == 0 && Atoi("--1") == 0 && Atoi(" 1") == 0
    ensures Atoi("+") == 0 && Atoi("1_0") == 0 && Atoi("") == 0
  {
    assert !IsDigit("1x"[1]);
    assert !IsDigit("--1"[1..][0]);
    assert !IsDigit(" 1"[0]);
    assert !IsDigit("1_0"[1]);
  }

  /** A run of digits ends where the first non-digit begins. */
  lemma {:induction false} LeadingDigitsOfConcat(d: string, rest: string)
    requires AllDigits(d) && (rest == [] || !IsDigit(rest[0]))
    ensures LeadingDigits(d + rest) == d
    decreases |d|
  {
    if d != [] {
      assert (d + rest)[1..] == d[1..] + rest;
      LeadingDigitsOfConcat(d[1..], rest);
    }
  }

  /** Digits whose value exceeds `MaxUint64`, then a non-digit, overflow whatever follows. */
  lemma OverflowsBefore(t: string, d: string, rest: string)
    requires AllDigits(d) && DigitsValue(d) > MaxUint64 && (rest == [] || !IsDigit(rest[0]))
    requires Unsigned(t) == d + rest
    ensures Overflows(t)
  {
    LeadingDigitsOfConcat(d, rest);
  }

  lemma AtoiOverflowUnsigned(d: string, rest: string)
    requires AllDigits(d) && DigitsValue(d) > MaxUint64 && (rest == [] || !IsDigit(rest[0]))
    ensures Atoi(d + rest) == MaxInt64 as int64
  {
    var t := d + rest;
    assert t[0] == d[0];
    OverflowsBefore(t, d, rest);
  }

  lemma AtoiOverflowSigned(c: char, d: string, rest: string)
    requires c == '+' || c == '-'
    requires AllDigits(d) && DigitsValue(d) > MaxUint64 && (rest == [] || !IsDigit(rest[0]))
    ensures Atoi([c] + d + rest) == if c == '-' then MinInt64 as int64 else MaxInt64 as int64
  {
    var t := [c] + d + rest;
    assert t[1..] == d + rest;
    OverflowsBefore(t, d, rest);
  }

  /**
   * Once the digits overflow `uint64`, what follows them does not matter:
   * the text gives the `int64` bound of its sign even when the rest would
   * be a syntax error.
   */
  lemma AtoiOverflowIgnoresRest(d: string, rest: string)
    requires AllDigits(d) && DigitsValue(d) > MaxUint64 && (rest == [] || !IsDigit(rest[0]))
    ensures Atoi(d + rest) == MaxInt64 as int64
    ensures Atoi("+" + d + rest) == MaxInt64 as int64
    ensures Atoi("-" + d + rest) == MinInt64 as int64
  {
    AtoiOverflowUnsigned(d, rest);
    AtoiOverflowSigned('+', d, rest);
    AtoiOverflowSigned('-', d, rest);
  }

  function Pow10(k: nat): nat
  {
    if k == 0 then 1 else 10 * Pow10(k - 1)
  }

  /** `k` nines */
  function Nines(k: nat): (r: string)
    ensures |r| == k && AllDigits(r)
  {
    seq(k, _ => '9')
  }

  lemma {:induction false} NinesValue(k: nat)
    ensures DigitsValue(Nines(k)) == Pow10(k) - 1
  {
    if k > 0 {
      assert Nines(k)[..k - 1] == Nines(k - 1);
      NinesValue(k - 1);
    }
  }

  lemma TwentyNines()
    ensures DigitsValue(Nines(20)) > MaxUint64
  {
    NinesValue(20);
    assert Pow10(10) == 10000000000;
    assert Pow10(15) == 1000000000000000;
    assert Pow10(20) == 100000000000000000000;
  }

  lemma NinesThenLetter(s: string)
    requires s == "99999999999999999999x"
    ensures s == Nines(20) + "x"
  {
    assert forall i | 0 <= i < 21 :: s[i] == (Nines(20) + "x")[i];
  }

  /** Twenty nines and a letter: a range error, not a syntax error. */
  lemma AtoiOverflowExample(pos: string, neg: string)
    requires pos == "99999999999999999999x" && neg == "-99999999999999999999x"
    ensures Atoi(pos) == MaxInt64 as int64
    ensures Atoi(neg) == MinInt64 as int64
  {
    var d := Nines(20);
    TwentyNines();
    NinesThenLetter(pos);
    assert neg == "-" + pos;
    assert neg == "-" + d + "x" by {
      assert forall i | 0 <= i < |neg| :: neg[i] == ("-" + d + "x")[i];
    }
    AtoiOverflowIgnoresRest(d, "x");
  }

  /** `%d` writes different numbers differently. */
  lemma DecimalInjective(m: int64, n: int64)
    requires Decimal(m as int) == Decimal(n as int)
    ensures m == n
  {
    AtoiOfDecimal(m);
    AtoiOfDecimal(n);
  }

  lemma DecimalHasNoNewline(n: int)
    ensures '\n' !in Decimal(n)
  {
    var s := Decimal(n);
    forall k | 0 <= k < |s| ensures s[k] != '\n' {
      if n < 0 && k > 0 {
        assert s[k] == s[1..][k - 1];
      }
    }
  }

  // ---------------------------------------------------------------
  // %q of a byte string: strconv.Quote
  // ---------------------------------------------------------------

  /** The lower-case hexadecimal digit strconv writes in `\xHH` */
  function HexDigit(d: nat): char
    requires d < 16
  {
    if d < 10 then ('0' as int + d) as char else ('a' as int + (d - 10)) as char
  }

  /** strconv's `unhex` */
  function HexValue(c: char): (r: Option<nat>)
    ensures r.Some? ==> r.value < 16
  {
    if '0' <= c <= '9' then Some(c as int - '0' as int)
    else if 'a' <= c <= 'f' then Some(c as int - 'a' as int + 10)
    else if 'A' <= c <= 'F' then Some(c as int - 'A' as int + 10)
    else None
  }

  lemma HexValueOfHexDigit(d: nat)
    requires d < 16
    ensures HexValue(HexDigit(d)) == Some(d)
  {
  }

  /**
   * How `strconv.Quote` writes one character inside double quotes: a quote
   * or backslash behind a backslash, printable ASCII as itself, the seven
   * C escapes by name, any other control character as `\xHH`.
   * Characters from U+0080 on are written as themselves.
   */
  function EscapeChar(c: char): (r: string)
    ensures |r| > 0 && '\n' !in r
  {
    if c == '"' || c == '\\' then ['\\', c]
    else if ' ' <= c <= '~' then [c]
    else if c as int == 7 then "\\a"
    else if c as int == 8 then "\\b"
    else if c as int == 12 then "\\f"
    else if c == '\n' then "\\n"
    else if c == '\r' then "\\r"
    else if c == '\t' then "\\t"
    else if c as int == 11 then "\\v"
    else if c as int < 0x80 then ['\\', 'x', HexDigit(c as int / 16), HexDigit(c as int % 16)]
    else [c]
  }

  function EscapeAll(s: string): (r: string)
    ensures '\n' !in r
  {
    if s == [] then [] else EscapeChar(s[0]) + EscapeAll(s[1..])
  }

  /** `%q` / `strconv.Quote`: the escaped text between double quotes */
  function Quote(s: string): (r: string)
    ensures |r| >= 2 && r[0] == '"' && r[|r| - 1] == '"'
    ensures '\n' !in r
  {
    "\"" + EscapeAll(s) + "\""
  }

  /**
   * The first character of a quoted body and the length of its encoding,
   * as `strconv.UnquoteChar` reads it; None for a bare quote, a bare
   * newline or an unknown escape.
   */
  function DecodeOne(t: string): (r: Option<(char, nat)>)
    ensures r.Some? ==> 1 <= r.value.1 <= |t|
  {
    if t == [] then None
    else if t[0] == '\\' then
      if |t| < 2 then None
      else if t[1] == 'a' then Some((7 as char, 2))
      else if t[1] == 'b' then Some((8 as char, 2))
      else if t[1] == 'f' then Some((12 as char, 2))
      else if t[1] == 'n' then Some(('\n', 2))
      else if t[1] == 'r' then Some(('\r', 2))
      else if t[1] == 't' then Some(('\t', 2))
      else if t[1] == 'v' then Some((11 as char, 2))
      else if t[1] == '\\' || t[1] == '"' then Some((t[1], 2))
      else if t[1] == 'x' && |t| >= 4 && HexValue(t[2]).Some? && HexValue(t[3]).Some? then
        Some(((HexValue(t[2]).value * 16 + HexValue(t[3]).value) as char, 4))
      else None
    else if t[0] == '"' || t[0] == '\n' then None
    else Some((t[0], 1))
  }

  function Unescape(t: string): Option<string>
    decreases |t|
  {
    if t == [] then Some([])
    else match DecodeOne(t)
      case None => None
      case Some((c, n)) =>
        match Unescape(t[n..])
        case None => None
        case Some(u) => Some([c] + u)
  }

  /** The inverse of `Quote`: the escapes `EscapeChar` writes, between double quotes */
  function Unquote(q: string): Option<string>
  {
    if |q| >= 2 && q[0] == '"' && q[|q| - 1] == '"' then Unescape(q[1..|q| - 1]) else None
  }

  lemma DecodeEscapeChar(c: char, rest: string)
    ensures DecodeOne(EscapeChar(c) + rest) == Some((c, |EscapeChar(c)|))
  {
    var e := EscapeChar(c);
    var t := e + rest;
    assert t[0] == e[0];
    if |e| >= 2 {
      assert t[1] == e[1];
    }
    if |e| == 4 {
      var code := c as int;
      assert t[2] == HexDigit(code / 16) && t[3] == HexDigit(code % 16);
      HexValueOfHexDigit(code / 16);
      HexValueOfHexDigit(code % 16);
      assert (code / 16) * 16 + code % 16 == code;
    }
  }

  lemma {:induction false} UnescapeEscapeAll(s: string)
    ensures Unescape(EscapeAll(s)) == Some(s)
    decreases |s|
  {
    if s != [] {
      var e := EscapeChar(s[0]);
      var rest := EscapeAll(s[1..]);
      DecodeEscapeChar(s[0], rest);
      assert (e + rest)[|e|..] == rest;
      UnescapeEscapeAll(s[1..]);
      assert [s[0]] + s[1..] == s;
    }
  }

  /** `strconv.Unquote` undoes `%q`: quoting a byte string loses nothing. */
  lemma QuoteRoundTrip(s: string)
    ensures Unquote(Quote(s)) == Some(s)
  {
    var q := Quote(s);
    assert q[1..|q| - 1] == EscapeAll(s);
    UnescapeEscapeAll(s);
  }

  /** Two byte strings that `%q` writes alike are equal. */
  lemma QuoteInjective(a: string, b: string)
    requires Quote(a) == Quote(b)
    ensures a == b
  {
    QuoteRoundTrip(a);
    QuoteRoundTrip(b);
  }
}
