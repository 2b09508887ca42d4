/**
  Python 2's `%` string formatting as the bridge uses it: `%d` (decimal), `%x`
  and `%2x` (lower-case hexadecimal, right-aligned in a field of width two), and
  the comma-separated payload layout `"%d,%d,%d,%d"`. `%d`, `%2x` and the
  comma join have a parser beside them, the reading a receiver of the serial
  line applies, and the lemmas prove that parsing undoes rendering; `%x` is
  used only inside `%2x`.
 */
module Format {
  import opened Wrappers

  // ---------------------------------------------------------------- decimal

  predicate IsDigit(c: char) { '0' <= c <= '9' }

  function DigitChar(d: nat): (c: char)
    requires d < 10
    ensures IsDigit(c)
  {
    (d + '0' as int) as char
  }

  function DigitValue(c: char): nat
    requires IsDigit(c)
  {
    (c - '0') as nat
  }

  /** The decimal digits of a natural number, most significant first, with no leading zero. */
  function Digits(n: nat): (r: string)
    ensures |r| >= 1
    ensures forall k :: 0 <= k < |r| ==> IsDigit(r[k])
    ensures r[0] == '0' ==> n == 0
    decreases n
  {
    if n < 10 then [DigitChar(n)] else Digits(n / 10) + [DigitChar(n % 10)]
  }

  /** `"%d" % i`: a minus sign for negative numbers, then the digits of the magnitude. */
  function Dec(i: int): string
  {
    if i < 0 then "-" + Digits(-i) else Digits(i)
  }

  predicate AllDigits(s: string) { forall k :: 0 <= k < |s| ==> IsDigit(s[k]) }

  /** The value of a string of decimal digits. */
  function DigitsValue(s: string): nat
    requires AllDigits(s)
  {
    if s == [] then 0 else DigitsValue(s[..|s| - 1]) * 10 + DigitValue(s[|s| - 1])
  }

  /** Reads an optionally negative decimal integer, as Python's `int(s)` does for these strings. */
  function ParseDec(s: string): Option<int>
  {
    if |s| >= 2 && s[0] == '-' && AllDigits(s[1..]) then
      var magnitude: int := DigitsValue(s[1..]);
      Some(-magnitude)
    else if |s| >= 1 && AllDigits(s) then Some(DigitsValue(s))
    else None
  }

  lemma {:induction false} DigitsRoundTrip(n: nat)
    ensures DigitsValue(Digits(n)) == n
    decreases n
  {
    if n >= 10 {
      var init := Digits(n / 10);
      var s := init + [DigitChar(n % 10)];
      assert s[..|s| - 1] == init;
      DigitsRoundTrip(n / 10);
    }
  }

  /** Decimal rendering is undone by parsing: `%d` loses nothing. */
  lemma DecRoundTrip(i: int)
    ensures ParseDec(Dec(i)) == Some(i)
  {
    var s := Dec(i);
    if i < 0 {
      assert s == "-" + Digits(-i);
      assert s[1..] == Digits(-i);
      assert AllDigits(s[1..]);
      DigitsRoundTrip(-i);
    } else {
      assert s == Digits(i) && AllDigits(s) && s[0] != '-';
      DigitsRoundTrip(i);
    }
  }

  /** Different integers render differently. */
  lemma DecInjective(i: int, j: int)
    ensures Dec(i) == Dec(j) <==> i == j
  {
    DecRoundTrip(i);
    DecRoundTrip(j);
  }

  /** A rendered integer holds only digits and possibly a leading minus: never a separator or a frame delimiter. */
  lemma DecAlphabet(i: int)
    ensures |Dec(i)| >= 1
    ensures forall k :: 0 <= k < |Dec(i)| ==> IsDigit(Dec(i)[k]) || (k == 0 && Dec(i)[k] == '-')
    ensures ',' !in Dec(i) && '*' !in Dec(i) && '\r' !in Dec(i) && '\n' !in Dec(i)
  {
  }

  // ------------------------------------------------------------ hexadecimal

  predicate IsHexDigit(c: char) { IsDigit(c) || 'a' <= c <= 'f' }

  /** The lower-case hexadecimal digit of a value below 16. */
  function HexChar(d: nat): (c: char)
    requires d < 16
    ensures IsHexDigit(c)
  {
    if d < 10 then DigitChar(d) else (d - 10 + 'a' as int) as char
  }

  function HexValue(c: char): (d: nat)
    requires IsHexDigit(c)
    ensures d < 16 && HexChar(d) == c
  {
    if IsDigit(c) then DigitValue(c) else (c - 'a') as nat + 10
  }

  /** `"%x" % n` for a non-negative `n`: lower-case hexadecimal digits, no leading zero. */
  function Hex(n: nat): (r: string)
    ensures |r| >= 1
    ensures forall k :: 0 <= k < |r| ==> IsHexDigit(r[k])
    decreases n
  {
    if n < 16 then [HexChar(n)] else Hex(n / 16) + [HexChar(n % 16)]
  }

  /** Right-aligns `s` in a field of `width` characters, filling with spaces as `%2x` does. */
  function PadLeft(s: string, width: nat): (r: string)
    ensures |r| == if |s| >= width then |s| else width
  {
    if |s| >= width then s else seq(width - |s|, _ => ' ') + s
  }

  /** `"%2x" % n`: the hexadecimal of `n`, right-aligned in two columns. */
  function Hex2(n: nat): (r: string)
    ensures n < 256 ==> |r| == 2
    ensures n < 256 ==> r[1] == HexChar(n % 16)
    ensures n < 256 ==> r[0] == if n < 16 then ' ' else HexChar(n / 16)
  {
    assert n < 16 ==> Hex(n) == [HexChar(n)];
    assert 16 <= n < 256 ==> Hex(n) == [HexChar(n / 16), HexChar(n % 16)];
    PadLeft(Hex(n), 2)
  }

  /**
    Reads a two-column `%2x` field: a space and one digit for values below 16,
    otherwise two digits, the first of which is not `0`.
   */
  function ParseHex2(h: string): Option<nat>
  {
    if |h| != 2 || !IsHexDigit(h[1]) then None
    else if h[0] == ' ' then Some(HexValue(h[1]))
    else if IsHexDigit(h[0]) && h[0] != '0' then Some(HexValue(h[0]) * 16 + HexValue(h[1]))
    else None
  }

  /** `%2x` of a byte is a two-character field that parses back to the byte... */
  lemma Hex2RoundTrip(n: nat)
    requires n < 256
    ensures ParseHex2(Hex2(n)) == Some(n)
  {
    var h := Hex2(n);
    assert HexValue(h[1]) == n % 16;
    if n >= 16 {
      assert HexValue(h[0]) == n / 16;
    }
  }

  /** ...and every field the parser accepts is the `%2x` rendering of what it reads. */
  lemma Hex2Canonical(h: string)
    requires ParseHex2(h).Some?
    ensures ParseHex2(h).value < 256 && Hex2(ParseHex2(h).value) == h
  {
    var n := ParseHex2(h).value;
    var lo := HexValue(h[1]);
    if h[0] == ' ' {
      assert n == lo;
      assert Hex2(n) == [' ', HexChar(lo)];
    } else {
      var hi := HexValue(h[0]);
      assert hi != 0;
      assert n == hi * 16 + lo;
      assert n / 16 == hi && n % 16 == lo;
      assert Hex2(n) == [HexChar(hi), HexChar(lo)];
    }
  }

  // ------------------------------------------------------ comma separation

  /** Joins fields with `,`, as the format string `"%d,%d,%d,%d"` lays them out. */
  function Csv(fields: seq<string>): string
  {
    if fields == [] then ""
    else if |fields| == 1 then fields[0]
    else fields[0] + "," + Csv(fields[1..])
  }

  /** Python's `s.split(",")`: the pieces between commas, always at least one. */
  function Split(s: string): (r: seq<string>)
    ensures |r| >= 1
  {
    if s == [] then [""]
    else
      var rest := Split(s[1..]);
      if s[0] == ',' then [""] + rest else [[s[0]] + rest[0]] + rest[1..]
  }

  lemma {:induction false} SplitNoComma(a: string)
    requires ',' !in a
    ensures Split(a) == [a]
  {
    if a != [] {
      SplitNoComma(a[1..]);
      assert [a[0]] + a[1..] == a;
    }
  }

  lemma {:induction false} SplitAfterField(a: string, b: string)
    requires ',' !in a
    ensures Split(a + "," + b) == [a] + Split(b)
  {
    if a == [] {
      assert a + "," + b == [','] + b;
      assert ([','] + b)[1..] == b;
    } else {
      var s := a + "," + b;
      assert s[1..] == a[1..] + "," + b;
      SplitAfterField(a[1..], b);
      assert [a[0]] + a[1..] == a;
    }
  }

  /** Splitting a comma-joined row of comma-free fields at the commas gives back the fields. */
  lemma {:induction false} SplitCsv(fields: seq<string>)
    requires |fields| >= 1
    requires forall k :: 0 <= k < |fields| ==> ',' !in fields[k]
    ensures Split(Csv(fields)) == fields
  {
    if |fields| == 1 {
      SplitNoComma(fields[0]);
    } else {
      SplitCsv(fields[1..]);
      SplitAfterField(fields[0], Csv(fields[1..]));
    }
  }

  /** Reads a row of decimal integers. */
  function ParseInts(fields: seq<string>): Option<seq<int>>
  {
    if fields == [] then Some([])
    else match (ParseDec(fields[0]), ParseInts(fields[1..]))
      case (Some(i), Some(rest)) => Some([i] + rest)
      case _ => None
  }

  function DecAll(xs: seq<int>): (r: seq<string>)
    ensures |r| == |xs| && forall k :: 0 <= k < |xs| ==> r[k] == Dec(xs[k])
  {
    if xs == [] then [] else [Dec(xs[0])] + DecAll(xs[1..])
  }

  /** A row of `%d` fields joined by commas reads back as the same integers. */
  lemma {:induction false} IntRowRoundTrip(xs: seq<int>)
    requires |xs| >= 1
    ensures ParseInts(Split(Csv(DecAll(xs)))) == Some(xs)
  {
    var fields := DecAll(xs);
    forall k | 0 <= k < |fields| ensures ',' !in fields[k] {
      DecAlphabet(xs[k]);
    }
    SplitCsv(fields);
    ParseDecAll(xs);
  }

  lemma {:induction false} ParseDecAll(xs: seq<int>)
    ensures ParseInts(DecAll(xs)) == Some(xs)
  {
    if xs != [] {
      var fields := DecAll(xs);
      DecRoundTrip(xs[0]);
      assert fields[0] == Dec(xs[0]);
      assert fields[1..] == DecAll(xs[1..]);
      ParseDecAll(xs[1..]);
      assert [xs[0]] + xs[1..] == xs;
    }
  }
}
