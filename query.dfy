/**
 * The request-shape rules of the two route handlers of 1/index.js:
 * `parseInt(req.query.minutes) || 50` (lines 128 and 151) and the
 * two-ticker check of the correlation route (line 153).
 *
 * Express hands a query parameter over as absent (`undefined`), one string,
 * an array of strings (the key repeated), or an object (bracketed keys).
 * `parseInt` first turns its argument into a string, so the model follows
 * JavaScript's `ToString` and then the parsing steps of `parseInt` with no
 * radix argument.
 */
module Query {
  import opened Types

  const DefaultMinutes: int := 50

  /** A query parameter as the query-string parser delivers it. */
  datatype QueryValue = Absent | Single(text: string) | Many(items: seq<string>) | Structured

  /** JavaScript's `ToString` of a query value. */
  function JsString(q: QueryValue): string
  {
    match q
    case Absent => "undefined"
    case Single(t) => t
    case Many(items) => Join(items)
    case Structured => "[object Object]"
  }

  /** `Array.prototype.join` with its default separator `,`. */
  function Join(items: seq<string>): string
  {
    if |items| == 0 then ""
    else if |items| == 1 then items[0]
    else items[0] + "," + Join(items[1..])
  }

  /** The result of `parseInt`: NaN or an integer. */
  datatype ParsedInt = NaN | Num(value: int)

  /** The characters `parseInt` skips at the front: white space and line terminators. */
  predicate IsJsSpace(c: char)
  {
    c == '\t' || c == '\n' || c == '\U{000B}' || c == '\U{000C}' || c == '\r' || c == ' ' ||
    c == '\U{00A0}' || c == '\U{1680}' || ('\U{2000}' <= c <= '\U{200A}') ||
    c == '\U{2028}' || c == '\U{2029}' || c == '\U{202F}' || c == '\U{205F}' ||
    c == '\U{3000}' || c == '\U{FEFF}'
  }

  /** The string with its leading white space removed. */
  function TrimStart(s: string): (r: string)
    ensures |r| <= |s|
  {
    if s != [] && IsJsSpace(s[0]) then TrimStart(s[1..]) else s
  }

  /** The value of `c` as a digit in base `radix` (10 or 16), or -1 if it is none. */
  function DigitValue(c: char, radix: int): (d: int)
    ensures -1 <= d < 16
    ensures radix == 10 ==> d < 10
  {
    if '0' <= c <= '9' then c as int - '0' as int
    else if radix == 16 && 'a' <= c <= 'f' then c as int - 'a' as int + 10
    else if radix == 16 && 'A' <= c <= 'F' then c as int - 'A' as int + 10
    else -1
  }

  /** The longest prefix of `s` made of digits of base `radix`. */
  function DigitPrefix(s: string, radix: int): (r: string)
    ensures |r| <= |s|
  {
    if s != [] && DigitValue(s[0], radix) >= 0 then [s[0]] + DigitPrefix(s[1..], radix) else []
  }

  /** The number a sequence of digits denotes, most significant first. */
  function DigitsValue(ds: string, radix: int): int
  {
    if ds == [] then 0 else DigitsValue(ds[..|ds| - 1], radix) * radix + DigitValue(ds[|ds| - 1], radix)
  }

  /** Parsing after the sign: a `0x`/`0X` prefix selects base 16, otherwise base 10. */
  function ParseUnsigned(s: string): (r: ParsedInt)
  {
    var hex := |s| >= 2 && s[0] == '0' && (s[1] == 'x' || s[1] == 'X');
    var radix := if hex then 16 else 10;
    var digits := DigitPrefix(if hex then s[2..] else s, radix);
    if digits == [] then NaN else Num(DigitsValue(digits, radix))
  }

  /** `parseInt(s)` with no radix: white space, an optional sign, a base prefix, then the longest run of digits. */
  function ParseInt(s: string): ParsedInt
  {
    var t := TrimStart(s);
    var negative := t != [] && t[0] == '-';
    var rest := if t != [] && (t[0] == '-' || t[0] == '+') then t[1..] else t;
    match ParseUnsigned(rest)
    case NaN => NaN
    case Num(v) => Num(if negative then -v else v)
  }

  /** `parseInt(req.query.minutes) || 50`: NaN, 0 and -0 are falsy and give the default. */
  function Minutes(q: QueryValue): int
  {
    match ParseInt(JsString(q))
    case NaN => DefaultMinutes
    case Num(v) => if v == 0 then DefaultMinutes else v
  }

  /** `ticker && Array.isArray(ticker) && ticker.length === 2`: the two symbols, or a rejection. */
  function TickerPair(q: QueryValue): (r: Option<(string, string)>)
  {
    if q.Many? && |q.items| == 2 then Some((q.items[0], q.items[1])) else None
  }

  /** The decimal numeral of a natural number, without leading zeros. */
  function Decimal(n: nat): (s: string)
    ensures |s| > 0 && forall i :: 0 <= i < |s| ==> '0' <= s[i] <= '9'
    ensures s[0] == '0' <==> n == 0
  {
    if n < 10 then [('0' as int + n) as char] else Decimal(n / 10) + [('0' as int + n % 10) as char]
  }

  // ---- Properties ----

  /** The rule never yields 0, and yields the parsed number whenever that is a non-zero number. */
  lemma {:induction false} MinutesNeverZero(q: QueryValue)
    ensures Minutes(q) != 0
    ensures ParseInt(JsString(q)).Num? && ParseInt(JsString(q)).value != 0 ==> Minutes(q) == ParseInt(JsString(q)).value
    ensures ParseInt(JsString(q)).NaN? ==> Minutes(q) == DefaultMinutes
  {
  }

  /** A string that does not start with white space is left as it is by the trimming step. */
  lemma {:induction false} NoLeadingSpace(s: string)
    requires s != [] && !IsJsSpace(s[0])
    ensures TrimStart(s) == s
  {
  }

  /** Trimming removes exactly the leading run of white space. */
  lemma {:induction false} TrimStartRemovesLeadingSpace(s: string)
    ensures var r := TrimStart(s);
      r == s[|s| - |r|..] && (r == [] || !IsJsSpace(r[0])) &&
      forall i :: 0 <= i < |s| - |r| ==> IsJsSpace(s[i])
  {
    if s != [] && IsJsSpace(s[0]) {
      TrimStartRemovesLeadingSpace(s[1..]);
      var r := TrimStart(s);
      assert s[1..][|s| - 1 - |r|..] == s[|s| - |r|..];
    }
  }

  /** `DigitPrefix` is the longest prefix of digits: every character in it is a digit, and the next one is not. */
  lemma {:induction false} DigitPrefixIsLongest(s: string, radix: int)
    ensures var r := DigitPrefix(s, radix);
      r == s[..|r|] && (forall i :: 0 <= i < |r| ==> DigitValue(r[i], radix) >= 0) &&
      (|r| < |s| ==> DigitValue(s[|r|], radix) < 0)
  {
    if s != [] && DigitValue(s[0], radix) >= 0 {
      DigitPrefixIsLongest(s[1..], radix);
    }
  }

  /** An absent parameter and an object both read as words, not numbers, and give the default 50. */
  lemma {:induction false} MinutesDefaultWhenNotNumeric()
    ensures Minutes(Absent) == DefaultMinutes
    ensures Minutes(Structured) == DefaultMinutes
    ensures Minutes(Single("abc")) == DefaultMinutes
  {
    NoLeadingSpace("undefined");
    NoLeadingSpace("[object Object]");
    NoLeadingSpace("abc");
  }

  /** An empty parameter, `0` and `-0` give the default 50 as well. */
  lemma {:induction false} MinutesDefaultWhenEmptyOrZero()
    ensures Minutes(Single("")) == DefaultMinutes
    ensures Minutes(Single("0")) == DefaultMinutes
    ensures Minutes(Single("-0")) == DefaultMinutes
  {
    ParseDecimal(0, "");
    assert Decimal(0) == "0";
    assert "0" + "" == "0" && "-" + "0" + "" == "-0";
  }

  /** A digit string read back gives the number it was built from. */
  lemma {:induction false} DecimalValue(n: nat)
    ensures DigitsValue(Decimal(n), 10) == n
  {
    var s := Decimal(n);
    if n >= 10 {
      DecimalValue(n / 10);
      assert s[..|s| - 1] == Decimal(n / 10);
    }
  }

  /** The longest digit prefix of digits followed by a non-digit is the digits. */
  lemma {:induction false} DigitsThenStop(d: string, tail: string)
    requires forall i :: 0 <= i < |d| ==> '0' <= d[i] <= '9'
    requires tail == [] || DigitValue(tail[0], 10) < 0
    ensures DigitPrefix(d + tail, 10) == d
  {
    if d == [] {
      assert d + tail == tail;
    } else {
      DigitsThenStop(d[1..], tail);
      assert (d + tail)[1..] == d[1..] + tail;
      assert [d[0]] + d[1..] == d;
    }
  }

  /** A tail that cannot continue a decimal numeral: empty, or a non-digit that does not turn `0` into `0x`. */
  predicate Terminates(n: nat, tail: string)
  {
    tail == [] || (DigitValue(tail[0], 10) < 0 && (n > 0 || (tail[0] != 'x' && tail[0] != 'X')))
  }

  /** Reading the decimal numeral of n, followed by a terminating tail, gives n. */
  lemma {:induction false} UnsignedDecimal(n: nat, tail: string)
    requires Terminates(n, tail)
    ensures ParseUnsigned(Decimal(n) + tail) == Num(n)
  {
    var d := Decimal(n);
    var s := d + tail;
    assert s[0] == d[0];
    if n == 0 && |s| >= 2 {
      assert d == "0" && s[1] == tail[0];
    }
    DigitsThenStop(d, tail);
    DecimalValue(n);
  }

  /**
   * Round trip: `parseInt` of the decimal numeral of n is n, and of the same
   * numeral after a minus sign is -n; text after the numeral is ignored.
   */
  lemma {:induction false} ParseDecimal(n: nat, tail: string)
    requires Terminates(n, tail)
    ensures ParseInt(Decimal(n) + tail) == Num(n)
    ensures ParseInt("-" + Decimal(n) + tail) == Num(-(n as int))
  {
    var d := Decimal(n);
    UnsignedDecimal(n, tail);
    NoLeadingSpace(d + tail);
    NoLeadingSpace("-" + d + tail);
    assert ("-" + d + tail)[1..] == d + tail;
  }

  /**
   * Any positive number of minutes written in decimal passes through
   * unchanged, and so does any negative one: the handlers do not reject a
   * negative window.
   */
  lemma {:induction false} MinutesPassThrough(n: nat)
    requires n > 0
    ensures Minutes(Single(Decimal(n))) == n
    ensures Minutes(Single("-" + Decimal(n))) == -(n as int)
  {
    ParseDecimal(n, "");
    assert Decimal(n) + "" == Decimal(n);
    assert "-" + Decimal(n) + "" == "-" + Decimal(n);
  }

  /** A character that cannot continue a `parseInt` prefix: no space, sign, digit of either base or `x`. */
  predicate EndsNumeral(c: char)
  {
    !IsJsSpace(c) && c != '-' && c != '+' && DigitValue(c, 16) < 0 && c != 'x' && c != 'X'
  }

  /** White space trimming does not reach past a character that is not white space. */
  lemma {:induction false} TrimStartAppend(x: string, t: string)
    requires t == [] || !IsJsSpace(t[0])
    ensures TrimStart(x + t) == TrimStart(x) + t
  {
    if x == [] {
      assert x + t == t;
    } else if IsJsSpace(x[0]) {
      assert (x + t)[1..] == x[1..] + t;
      TrimStartAppend(x[1..], t);
    } else {
      assert (x + t)[0] == x[0];
    }
  }

  /** The digit run ends at a character that is not a digit, whatever follows it. */
  lemma {:induction false} DigitPrefixAppend(z: string, t: string, radix: int)
    requires t == [] || DigitValue(t[0], radix) < 0
    ensures DigitPrefix(z + t, radix) == DigitPrefix(z, radix)
  {
    if z == [] {
      assert z + t == t;
    } else {
      assert (z + t)[0] == z[0] && (z + t)[1..] == z[1..] + t;
      DigitPrefixAppend(z[1..], t, radix);
    }
  }

  /** `parseInt` of `x` followed by text starting with a character that ends a numeral is `parseInt(x)`. */
  lemma {:induction false} ParseIntAppend(x: string, t: string)
    requires t != [] && EndsNumeral(t[0])
    ensures ParseInt(x + t) == ParseInt(x)
  {
    TrimStartAppend(x, t);
    var y := TrimStart(x);
    var rest := if y != [] && (y[0] == '-' || y[0] == '+') then y[1..] else y;
    if y != [] {
      assert (y + t)[0] == y[0];
      if y[0] == '-' || y[0] == '+' {
        assert (y + t)[1..] == rest + t;
      }
    }
    ParseUnsignedAppend(rest, t);
  }

  lemma {:induction false} ParseUnsignedAppend(u: string, t: string)
    requires t != [] && EndsNumeral(t[0])
    ensures ParseUnsigned(u + t) == ParseUnsigned(u)
  {
    var s := u + t;
    var hex := |u| >= 2 && u[0] == '0' && (u[1] == 'x' || u[1] == 'X');
    assert hex == (|s| >= 2 && s[0] == '0' && (s[1] == 'x' || s[1] == 'X')) by {
      if |u| == 1 { assert s[1] == t[0]; }
      if |u| == 0 { assert s[0] == t[0]; }
      if |u| >= 2 { assert s[0] == u[0] && s[1] == u[1]; }
    }
    var radix := if hex then 16 else 10;
    var z := if hex then u[2..] else u;
    assert (if hex then s[2..] else s) == z + t;
    DigitPrefixAppend(z, t, radix);
  }

  /**
   * A repeated parameter arrives as an array, which `parseInt` joins with
   * commas, so the window is read from the first value alone, whatever it is.
   */
  lemma {:induction false} RepeatedMinutesUseFirst(x: string, more: seq<string>)
    requires |more| > 0
    ensures ParseInt(JsString(Many([x] + more))) == ParseInt(x)
    ensures Minutes(Many([x] + more)) == Minutes(Single(x))
  {
    var items := [x] + more;
    assert items[0] == x && items[1..] == more;
    assert JsString(Many(items)) == x + ("," + Join(more));
    ParseIntAppend(x, "," + Join(more));
  }

  /** Leading white space is skipped and reading stops at the first non-digit. */
  lemma {:induction false} ParseIntSkipsSpaceAndStops()
    ensures ParseInt(" 12.9") == Num(12)
  {
    assert TrimStart(" 12.9") == TrimStart("12.9");
    assert Decimal(12) == "12";
    assert "12.9" == Decimal(12) + ".9";
    ParseDecimal(12, ".9");
  }

  /** A `0x` prefix switches to base 16. */
  lemma {:induction false} ParseIntHex()
    ensures ParseInt("0x1F") == Num(31)
  {
    NoLeadingSpace("0x1F");
    assert "0x1F"[2..] == "1F";
    assert DigitPrefix("1F", 16) == "1F" by {
      assert DigitPrefix("F", 16) == "F" + DigitPrefix("", 16);
    }
    assert DigitsValue("1F", 16) == DigitsValue("1", 16) * 16 + 15;
  }

  /**
   * The correlation route goes on with the tickers `a` and `b`, in that
   * order, exactly when the parameter is the two-element array `[a, b]`;
   * in particular every other shape, and every other length, is rejected.
   */
  lemma {:induction false} TickerPairIff(q: QueryValue, a: string, b: string)
    ensures TickerPair(q) == Some((a, b)) <==> q == Many([a, b])
    ensures TickerPair(q).None? <==> forall c, d :: q != Many([c, d])
  {
    if q.Many? && |q.items| == 2 {
      assert q == Many([q.items[0], q.items[1]]);
    }
  }

  /** A single symbol, three symbols or no symbol at all are rejected; the same symbol twice is accepted. */
  lemma {:induction false} TickerPairExamples()
    ensures TickerPair(Single("NVDA")) == None
    ensures TickerPair(Absent) == None && TickerPair(Structured) == None
    ensures TickerPair(Many(["NVDA", "PYPL", "AMD"])) == None
    ensures TickerPair(Many(["NVDA", "NVDA"])) == Some(("NVDA", "NVDA"))
  {
  }
}
