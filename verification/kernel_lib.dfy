/*******************************************************************************
 *  Kernel library behaviour the driver fragments rely on: error numbers, C
 *  strings, the integer parsers behind kstrtouint and sscanf("%i"), and the
 *  decimal and hexadecimal renderings printf produces.
 *******************************************************************************/

/** Shared vocabulary: errno values, Option/Result, C strings and number text. */
module KernelLib {

  /** Positive errno values; a handler returns their negation. */
  const EPERM: nat := 1
  const EFAULT: nat := 14
  const EINVAL: nat := 22
  const ERANGE: nat := 34

  const U8Limit: int := 0x100
  const U32Limit: int := 0x1_0000_0000
  const S32Limit: int := 0x8000_0000
  const U64Limit: int := 0x1_0000_0000_0000_0000

  newtype uint8 = x: int | 0 <= x < 0x100
  newtype uint32 = x: int | 0 <= x < 0x1_0000_0000
  newtype uint64 = x: int | 0 <= x < 0x1_0000_0000_0000_0000

  /**
   * A bit mask as the set of its set bit positions: `|` is union, `&` is
   * intersection, `& ~m` is difference, and a mask is non-zero when non-empty.
   */
  type Bits = set<nat>

  /** Assigning to a narrower unsigned field keeps only the bits below `width`. */
  function Truncate(x: Bits, width: nat): (r: Bits)
    ensures r <= x
    ensures forall b :: b in x ==> (b in r <==> b < width)
  {
    set b | b in x && b < width
  }

  /** `a & ~b` is zero exactly when every bit of `a` is in `b`. */
  lemma EmptyDifference(a: Bits, b: Bits)
    ensures a - b == {} <==> a <= b
  {
    if a - b == {} {
      forall x | x in a ensures x in b {
        assert x !in a - b;
      }
    }
  }

  /** `a & b` is zero exactly when the masks share no bit. */
  lemma EmptyIntersection(a: Bits, b: Bits)
    ensures a * b == {} <==> a !! b
  {
    if a * b == {} {
      forall x | x in a ensures x !in b {
        assert x !in a * b;
      }
    }
  }

  datatype Option<+T> = None | Some(value: T)

  /** The outcome of a kernel helper that either yields a value or fails with an errno. */
  datatype Result<+T> = Ok(value: T) | Err(errno: nat)

  /* ------------------------------------------------------------------ */
  /* C strings                                                           */
  /* ------------------------------------------------------------------ */

  function Min(a: nat, b: nat): nat
  {
    if a < b then a else b
  }

  const NUL: char := '\0'

  /** The C string a buffer holds: its characters before the first NUL. */
  function CStr(s: string): (r: string)
    ensures r <= s
    ensures NUL !in r
    ensures |r| < |s| ==> s[|r|] == NUL
  {
    if |s| == 0 || s[0] == NUL then [] else [s[0]] + CStr(s[1..])
  }

  /** A buffer without a NUL is its own C string. */
  lemma {:induction false} CStrOfPlain(s: string)
    requires NUL !in s
    ensures CStr(s) == s
  {
    if |s| > 0 {
      CStrOfPlain(s[1..]);
    }
  }

  /** strnchr over a C string: the position of the first `c`, if any. */
  function FindChar(s: string, c: char): (r: Option<nat>)
    ensures r.None? <==> c !in s
    ensures r.Some? ==> r.value < |s| && s[r.value] == c && c !in s[..r.value]
  {
    if |s| == 0 then None
    else if s[0] == c then Some(0)
    else match FindChar(s[1..], c)
      case None => None
      case Some(i) => Some(i + 1)
  }

  /** The kernel's isspace: the ASCII blanks and, in its Latin-1 table, 0xA0. */
  predicate IsSpace(c: char)
  {
    c == ' ' || ('\t' <= c <= '\r') || c as int == 0xA0
  }

  /** Every character of `s` is white space. */
  predicate AllSpaces(s: string)
  {
    |s| == 0 || (IsSpace(s[0]) && AllSpaces(s[1..]))
  }

  /** skip_spaces: drops the leading white space. */
  function SkipSpaces(s: string): (r: string)
    ensures |r| <= |s| && r == s[|s| - |r|..]
    ensures AllSpaces(s[..|s| - |r|])
    ensures |r| > 0 ==> !IsSpace(r[0])
  {
    if |s| > 0 && IsSpace(s[0]) then
      var r := SkipSpaces(s[1..]);
      PrefixTail(s, |s| - |r|);
      r
    else s
  }

  lemma PrefixTail(s: string, k: nat)
    requires 1 <= k <= |s|
    ensures s[..k][0] == s[0] && s[..k][1..] == s[1..][..k - 1]
  {
  }

  /** A suffix of a suffix of `s` is a suffix of `s`. */
  lemma SuffixOfSuffix(s: string, t: string, u: string)
    requires |t| <= |s| && t == s[|s| - |t|..]
    requires |u| <= |t| && u == t[|t| - |u|..]
    ensures u == s[|s| - |u|..]
  {
  }

  /* ------------------------------------------------------------------ */
  /* Digits and the radix-0 integer grammar                              */
  /* ------------------------------------------------------------------ */

  /** The digit value _parse_integer gives a character: 0-9, then a-f in either case. */
  function DigitVal(c: char): (r: Option<nat>)
    ensures r.Some? ==> r.value < 16
    ensures r.Some? && r.value < 10 <==> '0' <= c <= '9'
  {
    if '0' <= c <= '9' then Some(c as int - '0' as int)
    else if 'a' <= c <= 'f' then Some(c as int - 'a' as int + 10)
    else if 'A' <= c <= 'F' then Some(c as int - 'A' as int + 10)
    else None
  }

  predicate IsDigitIn(c: char, base: nat)
  {
    DigitVal(c).Some? && DigitVal(c).value < base
  }

  predicate AllDigitsIn(s: string, base: nat)
  {
    forall i :: 0 <= i < |s| ==> IsDigitIn(s[i], base)
  }

  /** How many leading characters of `s` _parse_integer consumes in `base`. */
  function DigitRun(s: string, base: nat): (n: nat)
    ensures n <= |s|
    ensures AllDigitsIn(s[..n], base)
    ensures n < |s| ==> !IsDigitIn(s[n], base)
  {
    if |s| == 0 || !IsDigitIn(s[0], base) then 0
    else
      var n := 1 + DigitRun(s[1..], base);
      assert s[..n] == [s[0]] + s[1..][..n - 1];
      n
  }

  /** The value of a digit string read most significant digit first. */
  function ValueOf(ds: string, base: nat): nat
    requires AllDigitsIn(ds, base)
  {
    if |ds| == 0 then 0
    else ValueOf(ds[..|ds| - 1], base) * base + DigitVal(ds[|ds| - 1]).value
  }

  /**
   * _parse_integer_fixup_radix for base 0: a leading "0x" followed by a hex
   * digit selects base 16 and is skipped; any other leading "0" selects base 8;
   * everything else is decimal.
   */
  function FixupRadix(s: string): (r: (nat, string))
    ensures r.0 in {8, 10, 16}
    ensures r.0 == 16 <==> |s| >= 3 && s[0] == '0' && (s[1] == 'x' || s[1] == 'X') && IsDigitIn(s[2], 16)
    ensures r.0 == 16 ==> r.1 == s[2..]
    ensures r.0 != 16 ==> r.1 == s
    ensures r.0 == 8 <==> |s| >= 1 && s[0] == '0' && r.0 != 16
  {
    if |s| >= 1 && s[0] == '0' then
      if |s| >= 3 && (s[1] == 'x' || s[1] == 'X') && IsDigitIn(s[2], 16) then (16, s[2..])
      else (8, s)
    else (10, s)
  }

  /**
   * kstrtouint(buf, 0, &val) on the C string in `buf`: an optional '+', a
   * radix-0 number, at most one trailing newline. A value past 64 bits or past
   * 32 bits is -ERANGE; no digits or other trailing text is -EINVAL.
   */
  function KStrToUint(buf: string): (r: Result<nat>)
    ensures r.Ok? ==> r.value < U32Limit
    ensures r.Err? ==> r.errno == EINVAL || r.errno == ERANGE
    ensures |CStr(buf)| == 0 ==> r == Err(EINVAL)
  {
    var s := CStr(buf);
    ParseUnsigned(if |s| > 0 && s[0] == '+' then s[1..] else s)
  }

  /** The part of kstrtouint after the optional '+': number, optional newline, end. */
  function ParseUnsigned(s: string): (r: Result<nat>)
    ensures r.Ok? ==> r.value < U32Limit
    ensures r.Err? ==> r.errno == EINVAL || r.errno == ERANGE
    ensures |s| == 0 ==> r == Err(EINVAL)
  {
    var (base, s2) := FixupRadix(s);
    var n := DigitRun(s2, base);
    var v := ValueOf(s2[..n], base);
    var t := s2[n..];
    var t1 := if |t| > 0 && t[0] == '\n' then t[1..] else t;
    if v >= U64Limit then Err(ERANGE)
    else if n == 0 then Err(EINVAL)
    else if |t1| > 0 then Err(EINVAL)
    else if v >= U32Limit then Err(ERANGE)
    else Ok(v)
  }

  /** The 32-bit two's-complement value C stores when a wider integer is assigned to an int. */
  function ToS32(x: int): (r: int)
    ensures -S32Limit <= r < S32Limit
    ensures (x - r) % U32Limit == 0
    ensures -S32Limit <= x < S32Limit ==> r == x
  {
    var m := x % U32Limit;
    if m >= S32Limit then m - U32Limit else m
  }

  /**
   * One "%i" conversion of the kernel's vsscanf: skip white space, an optional
   * '-', then a decimal digit must follow; the radix-0 number is read through
   * simple_strtol and stored in an int. Returns the value and the unread text.
   */
  function ScanInt(s: string): (r: Option<(int, string)>)
    ensures r.Some? ==> -S32Limit <= r.value.0 < S32Limit
    ensures r.Some? ==> |r.value.1| < |s|
    ensures r.Some? ==> r.value.1 == s[|s| - |r.value.1|..]
  {
    var t := SkipSpaces(s);
    var r := ScanNumber(t);
    if r.Some? then
      SuffixOfSuffix(s, t, r.value.1);
      r
    else r
  }

  /** The part of a "%i" conversion after the white space: sign, digit check, number. */
  function ScanNumber(t: string): (r: Option<(int, string)>)
    ensures r.Some? ==> -S32Limit <= r.value.0 < S32Limit
    ensures r.Some? ==> |r.value.1| < |t|
    ensures r.Some? ==> r.value.1 == t[|t| - |r.value.1|..]
    ensures r.Some? ==> |t| > 0 && (t[0] == '-' || '0' <= t[0] <= '9')
  {
    var neg := |t| > 0 && t[0] == '-';
    var u := if neg then t[1..] else t;
    if |u| == 0 || !('0' <= u[0] <= '9') then None
    else
      var (mag, rest) := ReadNumber(u);
      // simple_strtol negates the unsigned magnitude; storing into an int keeps the low 32 bits.
      Some((ToS32(if neg then -(mag as int) else mag), rest))
  }

  /** simple_strtoull with base 0: the number at the front of `s` and the text after it. */
  function ReadNumber(s: string): (r: (nat, string))
    ensures |r.1| <= |s| && r.1 == s[|s| - |r.1|..]
    ensures |s| > 0 && '0' <= s[0] <= '9' ==> |r.1| < |s|
  {
    var (base, s2) := FixupRadix(s);
    var n := DigitRun(s2, base);
    (ValueOf(s2[..n], base), s2[n..])
  }

  /**
   * sscanf(s, "%i,%i", &a, &b) == 2: the first number, a comma right after it,
   * then the second number (which may be preceded by white space).
   */
  function ScanIntPair(s: string): (r: Option<(int, int)>)
    ensures r.Some? ==> ScanInt(s).Some?
    ensures r.Some? <==>
              && ScanInt(s).Some?
              && var rest := ScanInt(s).value.1;
              && |rest| > 0 && rest[0] == ','
              && ScanInt(rest[1..]).Some?
    ensures r.Some? ==>
              && r.value.0 == ScanInt(s).value.0
              && r.value.1 == ScanInt(ScanInt(s).value.1[1..]).value.0
    ensures r.Some? ==> -S32Limit <= r.value.0 < S32Limit && -S32Limit <= r.value.1 < S32Limit
  {
    match ScanInt(s)
    case None => None
    case Some((a, rest)) =>
      if |rest| == 0 || rest[0] != ',' then None
      else match ScanInt(rest[1..])
        case None => None
        case Some((b, _)) => Some((a, b))
  }

  /* ------------------------------------------------------------------ */
  /* printf renderings                                                   */
  /* ------------------------------------------------------------------ */

  function DecDigit(d: nat): (c: char)
    requires d < 10
    ensures IsDigitIn(c, 10) && DigitVal(c).value == d
  {
    ('0' as int + d) as char
  }

  /** "%u": the decimal digits of `n`, without leading zeros. */
  function Decimal(n: nat): (s: string)
    ensures |s| > 0
    ensures AllDigitsIn(s, 10)
    ensures n < 10 <==> |s| == 1
  {
    if n < 10 then [DecDigit(n)] else Decimal(n / 10) + [DecDigit(n % 10)]
  }

  /** "%d" / "%lld": a '-' before the digits of a negative value. */
  function SignedDecimal(x: int): (s: string)
    ensures |s| > 0
    ensures x < 0 <==> s[0] == '-'
  {
    if x < 0 then "-" + Decimal(-x) else Decimal(x)
  }

  /** A lower-case hexadecimal digit, as "%x" prints it. */
  function HexDigit(d: nat): (c: char)
    requires d < 16
    ensures IsDigitIn(c, 16) && DigitVal(c).value == d
    ensures !('A' <= c <= 'Z')
  {
    if d < 10 then ('0' as int + d) as char else ('a' as int + d - 10) as char
  }

  /** "%02x" of a byte. */
  function HexByte(b: uint8): (s: string)
    ensures |s| == 2 && AllDigitsIn(s, 16)
    ensures DigitVal(s[0]).value * 16 + DigitVal(s[1]).value == b as int
  {
    [HexDigit(b as int / 16), HexDigit(b as int % 16)]
  }

  /** "%x": the lower-case hexadecimal digits of `n`, without leading zeros. */
  function HexNumber(n: nat): (s: string)
    ensures |s| > 0
    ensures AllDigitsIn(s, 16)
    ensures n < 16 <==> |s| == 1
  {
    if n < 16 then [HexDigit(n)] else HexNumber(n / 16) + [HexDigit(n % 16)]
  }

  /** Every character Decimal prints is a decimal digit, and reading them back gives `n`. */
  lemma {:induction false} DecimalValue(n: nat)
    ensures ValueOf(Decimal(n), 10) == n
    ensures n > 0 ==> Decimal(n)[0] != '0'
  {
    if n >= 10 {
      DecimalValue(n / 10);
      var d := Decimal(n);
      assert d[..|d| - 1] == Decimal(n / 10);
    }
  }

  /** Reading the digits "%x" printed back in base 16 gives `n`. */
  lemma {:induction false} HexNumberValue(n: nat)
    ensures ValueOf(HexNumber(n), 16) == n
  {
    if n >= 16 {
      HexNumberValue(n / 16);
      var h := HexNumber(n);
      assert h[..|h| - 1] == HexNumber(n / 16);
    }
  }

  /** Reading the two digits "%02x" printed back in base 16 gives the byte. */
  lemma HexByteValue(b: uint8)
    ensures ValueOf(HexByte(b), 16) == b as int
  {
    var h := HexByte(b);
    assert ValueOf(h, 16) == ValueOf(h[..1], 16) * 16 + DigitVal(h[1]).value;
    assert h[..1][..0] == [];
    assert ValueOf(h[..1], 16) == DigitVal(h[0]).value;
  }

  function Pow10(k: nat): (p: nat)
    ensures p >= 1
  {
    if k == 0 then 1 else 10 * Pow10(k - 1)
  }

  /** A number "%u" prints in at most `k` digits is below 10^k. */
  lemma {:induction false} DecimalDigitsBound(n: nat, k: nat)
    requires |Decimal(n)| <= k
    ensures n < Pow10(k)
  {
    if n >= 10 {
      assert |Decimal(n)| == |Decimal(n / 10)| + 1;
      DecimalDigitsBound(n / 10, k - 1);
    }
  }

  /** _parse_integer stops exactly after the printed digits when no digit follows. */
  lemma {:induction false} DigitRunAfter(ds: string, rest: string, base: nat)
    requires AllDigitsIn(ds, base)
    requires |rest| == 0 || !IsDigitIn(rest[0], base)
    ensures DigitRun(ds + rest, base) == |ds|
    ensures (ds + rest)[..|ds|] == ds && (ds + rest)[|ds|..] == rest
  {
    var s := ds + rest;
    assert s[..|ds|] == ds;
    assert s[|ds|..] == rest;
    if |ds| == 0 {
      assert s == rest;
    } else {
      assert s[0] == ds[0];
      assert IsDigitIn(ds[0], base);
      assert s[1..] == ds[1..] + rest;
      assert AllDigitsIn(ds[1..], base) by {
        forall i | 0 <= i < |ds[1..]| ensures IsDigitIn(ds[1..][i], base) {
          assert ds[1..][i] == ds[i + 1];
        }
      }
      DigitRunAfter(ds[1..], rest, base);
    }
  }

  /** Printed digits hold neither a NUL nor a comma. */
  lemma DigitsAreNotSeparators(ds: string, base: nat)
    requires AllDigitsIn(ds, base)
    ensures NUL !in ds && ',' !in ds
  {
  }

  /**
   * Text that may follow a printed number without extending it: no digit of
   * any base, and no 'x' that would turn a lone "0" into a hex prefix.
   */
  predicate EndsNumber(rest: string)
  {
    |rest| == 0 || (!IsDigitIn(rest[0], 16) && rest[0] != 'x' && rest[0] != 'X')
  }

  /** The radix a printed non-negative decimal selects, and where its digits end. */
  lemma DecimalRadix(n: nat, rest: string) returns (base: nat)
    requires EndsNumber(rest)
    ensures base == (if n == 0 then 8 else 10)
    ensures FixupRadix(Decimal(n) + rest) == (base, Decimal(n) + rest)
    ensures AllDigitsIn(Decimal(n), base)
    ensures DigitRun(Decimal(n) + rest, base) == |Decimal(n)|
    ensures ValueOf(Decimal(n), base) == n
    ensures (Decimal(n) + rest)[..|Decimal(n)|] == Decimal(n)
    ensures (Decimal(n) + rest)[|Decimal(n)|..] == rest
  {
    var d := Decimal(n);
    DecimalValue(n);
    assert (d + rest)[0] == d[0];
    if n == 0 {
      base := 8;
      assert d == "0";
      if |rest| > 0 {
        assert (d + rest)[1] == rest[0];
      }
    } else {
      base := 10;
    }
    DigitRunAfter(d, rest, base);
  }

  /** kstrtouint reads back what "%u\n" (or "%u") printed, refusing values past 32 bits. */
  lemma KStrToUintDecimal(n: nat, nl: bool)
    ensures KStrToUint(Decimal(n) + (if nl then "\n" else "")) ==
            (if n < U32Limit then Ok(n) else Err(ERANGE))
  {
    var tail := if nl then "\n" else "";
    var d := Decimal(n);
    var buf := d + tail;
    ParseUnsignedDecimal(n, tail);
    DigitsAreNotSeparators(d, 10);
    assert NUL !in buf;
    CStrOfPlain(buf);
    assert buf[0] == d[0];
  }

  /** The digits "%u" printed are read in base 8 or 10 alike, and one newline may end them. */
  lemma ParseUnsignedDecimal(n: nat, tail: string)
    requires tail == "" || tail == "\n"
    ensures ParseUnsigned(Decimal(n) + tail) == (if n < U32Limit then Ok(n) else Err(ERANGE))
  {
    var base := DecimalRadix(n, tail);
    if tail == "\n" {
      assert tail[1..] == "";
    }
  }

  /** kstrtouint reads back a non-negative "%d\n" rendering. */
  lemma KStrToUintSignedDecimal(x: int)
    ensures 0 <= x < U32Limit ==> KStrToUint(SignedDecimal(x) + "\n") == Ok(x)
  {
    if x >= 0 {
      KStrToUintDecimal(x, true);
    }
  }

  /** kstrtouint reads back what "0x%x\n" printed, refusing values past 32 bits. */
  lemma KStrToUintHex(n: nat)
    ensures KStrToUint("0x" + HexNumber(n) + "\n") == (if n < U32Limit then Ok(n) else Err(ERANGE))
  {
    var h := HexNumber(n);
    var buf := "0x" + h + "\n";
    HexNumberValue(n);
    ParseUnsignedHex(h, n);
    DigitsAreNotSeparators(h, 16);
    assert buf == ['0', 'x'] + h + ['\n'];
    assert NUL !in buf;
    CStrOfPlain(buf);
  }

  /** The digits after "0x" are read in base 16, and one newline may end them. */
  lemma ParseUnsignedHex(h: string, n: nat)
    requires |h| > 0 && AllDigitsIn(h, 16) && ValueOf(h, 16) == n
    ensures ParseUnsigned("0x" + h + "\n") == (if n < U32Limit then Ok(n) else Err(ERANGE))
  {
    HexRadix(h, "\n");
    var s2 := h + "\n";
    assert s2[|h|..] == "\n";
    assert s2[|h|..][1..] == "";
  }

  /** After "0x" and a hex digit, _parse_integer reads base 16 up to the first non-hex character. */
  lemma HexRadix(h: string, rest: string)
    requires |h| > 0 && AllDigitsIn(h, 16)
    requires |rest| == 0 || !IsDigitIn(rest[0], 16)
    ensures FixupRadix("0x" + h + rest) == (16, h + rest)
    ensures DigitRun(h + rest, 16) == |h|
    ensures (h + rest)[..|h|] == h && (h + rest)[|h|..] == rest
  {
    HexPrefix(h, rest);
    DigitRunAfter(h, rest, 16);
  }

  /** "0x" followed by a hex digit selects base 16 and is skipped. */
  lemma HexPrefix(h: string, rest: string)
    requires |h| > 0 && IsDigitIn(h[0], 16)
    ensures FixupRadix("0x" + h + rest) == (16, h + rest)
  {
    var s := "0x" + h + rest;
    assert s[0] == '0' && s[1] == 'x' && s[2] == h[0];
    assert s[2..] == h + rest;
  }

  /** One leading '+' is skipped and changes nothing; a second '+' is not a digit. */
  lemma KStrToUintPlus(s: string)
    requires NUL !in s
    ensures (|s| == 0 || s[0] != '+') ==> KStrToUint("+" + s) == KStrToUint(s)
    ensures |s| > 0 && s[0] == '+' ==> KStrToUint("+" + s) == Err(EINVAL)
  {
    var buf := "+" + s;
    assert NUL !in buf;
    CStrOfPlain(buf);
    CStrOfPlain(s);
    assert buf[1..] == s;
    if |s| > 0 && s[0] == '+' {
      assert FixupRadix(s) == (10, s);
      assert DigitRun(s, 10) == 0;
    }
  }

  /** One "%i" conversion reads back a non-negative "%d" rendering and stops where the digits end. */
  lemma ScanIntDecimal(n: nat, rest: string)
    requires n < S32Limit
    requires EndsNumber(rest)
    ensures ScanInt(Decimal(n) + rest) == Some((n, rest))
  {
    var d := Decimal(n);
    var s := d + rest;
    ReadNumberDecimal(n, rest);
    assert s[0] == d[0];
    ScanIntDigit(s);
    assert ToS32(n) == n;
  }

  /** A conversion that starts right at a digit reads one unsigned number. */
  lemma ScanIntDigit(s: string)
    requires |s| > 0 && '0' <= s[0] <= '9'
    ensures ScanInt(s) == Some((ToS32(ReadNumber(s).0), ReadNumber(s).1))
  {
    assert !IsSpace(s[0]);
    assert SkipSpaces(s) == s;
  }

  lemma ReadNumberDecimal(n: nat, rest: string)
    requires EndsNumber(rest)
    ensures ReadNumber(Decimal(n) + rest) == (n, rest)
    ensures '0' <= Decimal(n)[0] <= '9'
  {
    var base := DecimalRadix(n, rest);
  }

  /** sscanf("%i,%i") reads back the "MAJ,MIN" text a user writes with decimal numbers. */
  lemma ScanIntPairDecimal(a: nat, b: nat)
    requires a < S32Limit && b < S32Limit
    ensures ScanIntPair(Decimal(a) + "," + Decimal(b)) == Some((a, b))
  {
    var da := Decimal(a);
    var db := Decimal(b);
    var rest := "," + db;
    SeqAssoc(da, ",", db);
    ScanIntDecimal(a, rest);
    ScanIntDecimal(b, "");
    assert db + "" == db;
    assert rest[1..] == db;
    ScanIntPairOf(da + rest, a, rest, b, "");
  }

  /** One "%i" conversion reads back a "0x%02x" byte and stops at a following comma. */
  lemma ScanIntHexByte(b: uint8, rest: string)
    requires |rest| == 0 || rest[0] == ','
    ensures ScanInt("0x" + HexByte(b) + rest) == Some((b as int, rest))
  {
    var h := HexByte(b);
    var s := "0x" + h + rest;
    HexRadix(h, rest);
    HexByteValue(b);
    assert ReadNumber(s) == (b as int, rest);
    ScanIntDigit(s);
  }

  /** White space in front of a "%i" conversion is skipped. */
  lemma ScanIntSkipsBlank(s: string)
    ensures ScanInt(" " + s) == ScanInt(s)
  {
    SkipBlank(s);
  }

  lemma SkipBlank(s: string)
    ensures SkipSpaces(" " + s) == SkipSpaces(s)
  {
    var b := " " + s;
    assert b[0] == ' ' && IsSpace(b[0]);
    assert b[1..] == s;
  }

  /** sscanf("%i,%i") reads back the "0x%02x, 0x%02x" text of two bytes. */
  lemma ScanIntPairHex(a: uint8, b: uint8)
    ensures ScanIntPair("0x" + HexByte(a) + ", 0x" + HexByte(b)) == Some((a as int, b as int))
  {
    var ha := "0x" + HexByte(a);
    var rest := ", " + ("0x" + HexByte(b));
    SeqAssoc(ha, ", 0x", HexByte(b));
    SeqAssoc(", ", "0x", HexByte(b));
    assert ", " + "0x" == ", 0x";
    ScanIntHexByte(a, rest);
    ScanIntBlankHexByte(b);
    ScanIntPairOf(ha + rest, a as int, rest, b as int, "");
  }

  /** The second conversion of "%i,%i" skips the blank after the comma. */
  lemma ScanIntBlankHexByte(b: uint8)
    ensures ScanInt((", " + ("0x" + HexByte(b)))[1..]) == Some((b as int, ""))
  {
    var hb := "0x" + HexByte(b);
    assert (", " + hb)[1..] == " " + hb;
    ScanIntSkipsBlank(hb);
    assert hb + "" == hb;
    ScanIntHexByte(b, "");
  }

  /** "%i,%i" refuses text whose first number is followed by anything but a comma. */
  lemma ScanIntPairNeedsComma(a: nat, c: char, t: string)
    requires a < S32Limit
    requires c != ',' && EndsNumber([c])
    ensures ScanIntPair(Decimal(a) + ([c] + t)).None?
  {
    ScanIntDecimal(a, [c] + t);
  }

  /** "%i,%i" refuses text with no number after the comma. */
  lemma ScanIntPairNeedsSecond(a: nat, t: string)
    requires a < S32Limit
    requires |t| == 0 || !(IsSpace(t[0]) || t[0] == '-' || '0' <= t[0] <= '9')
    ensures ScanIntPair(Decimal(a) + ("," + t)).None?
  {
    var rest := "," + t;
    ScanIntDecimal(a, rest);
    assert rest[1..] == t;
    ScanIntNoNumber(t);
  }

  /** A "%i" conversion fails on text that starts with neither a blank, a '-' nor a digit. */
  lemma ScanIntNoNumber(t: string)
    requires |t| == 0 || !(IsSpace(t[0]) || t[0] == '-' || '0' <= t[0] <= '9')
    ensures ScanInt(t).None?
  {
    assert SkipSpaces(t) == t;
    assert ScanNumber(t).None?;
  }

  lemma SeqAssoc(x: string, y: string, z: string)
    ensures x + y + z == x + (y + z)
  {
  }

  /** Two conversions with a comma right between them make a matched pair. */
  lemma ScanIntPairOf(s: string, a: int, rest: string, b: int, tail: string)
    ensures (ScanInt(s) == Some((a, rest)) && |rest| > 0 && rest[0] == ',' &&
             ScanInt(rest[1..]) == Some((b, tail))) ==> ScanIntPair(s) == Some((a, b))
  {
  }
}
