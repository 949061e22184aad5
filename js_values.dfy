/** JavaScript values as the handlers receive them (decoded JSON bodies,
    socket payloads, route parameters), and the few rules of the language
    that the modelled code relies on: truthiness (`!x`, `x && ...`),
    strict equality (`===`), `String(x)` as a regular expression's `test`
    applies it, and `parseInt`. */
module JsValues {
  import opened Outcomes

  /** A JavaScript number: NaN or a finite value. */
  datatype Num = NaN | Finite(value: real)

  /** A decoded JSON value. `undefined` (a missing property) is `None`
      wherever a value may be absent. */
  datatype Json =
    | JNull
    | JBool(b: bool)
    | JNum(n: Num)
    | JStr(s: string)
    | JArr(items: seq<Json>)
    | JObj(fields: map<string, Json>)

  /** Property access `obj.key`: `undefined` when the key is absent. */
  function Prop(obj: map<string, Json>, key: string): Option<Json>
  {
    if key in obj then Some(obj[key]) else None
  }

  /** JavaScript truthiness; `undefined` is falsy. */
  predicate Truthy(v: Option<Json>)
  {
    match v
    case None => false
    case Some(JNull) => false
    case Some(JBool(b)) => b
    case Some(JNum(n)) => n.Finite? && n.value != 0.0
    case Some(JStr(s)) => s != ""
    case Some(_) => true
  }

  /** `a === b`. Arrays and objects decoded from two messages are two
      objects, never identical; NaN is not equal to itself. */
  predicate StrictEquals(a: Option<Json>, b: Option<Json>)
  {
    match (a, b)
    case (None, None) => true
    case (Some(x), Some(y)) => x == y && !x.JArr? && !x.JObj? && x != JNum(NaN)
    case _ => false
  }

  predicate IsInteger(r: real)
  {
    r.Floor as real == r
  }

  /** The characters of JavaScript's WhiteSpace and LineTerminator
      productions: what `\s` matches and what `parseInt` skips. */
  predicate IsJsWhitespace(c: char)
  {
    || c in {'\t', '\n', '\U{B}', '\U{C}', '\r', ' ', '\U{A0}', '\U{1680}'}
    || c in {'\U{2028}', '\U{2029}', '\U{202F}', '\U{205F}', '\U{3000}', '\U{FEFF}'}
    || '\U{2000}' <= c <= '\U{200A}'
  }

  predicate IsDecimalDigit(c: char)
  {
    '0' <= c <= '9'
  }

  /** Leading whitespace removed. */
  function TrimStart(s: string): string
  {
    if s != [] && IsJsWhitespace(s[0]) then TrimStart(s[1..]) else s
  }

  // ---------------------------------------------------------------------
  // Decimal text of an integer, as `String(n)` writes it for |n| < 10^21.

  function DigitChar(d: nat): char
    requires d < 10
  {
    ('0' as int + d) as char
  }

  function NatText(n: nat): string
  {
    if n < 10 then [DigitChar(n)] else NatText(n / 10) + [DigitChar(n % 10)]
  }

  function IntText(n: int): string
  {
    if n < 0 then "-" + NatText(-n) else NatText(n)
  }

  // ---------------------------------------------------------------------
  // parseInt(s) with no radix argument.

  /** The value of a digit in radices up to 36. */
  function DigitValue(c: char): Option<nat>
  {
    if '0' <= c <= '9' then Some(c as int - '0' as int)
    else if 'a' <= c <= 'z' then Some(c as int - 'a' as int + 10)
    else if 'A' <= c <= 'Z' then Some(c as int - 'A' as int + 10)
    else None
  }

  predicate IsDigitOf(c: char, radix: nat)
  {
    DigitValue(c).Some? && DigitValue(c).value < radix
  }

  /** A decimal digit is exactly a digit of radix 10. */
  lemma DecimalDigitsAgree(c: char)
    ensures IsDecimalDigit(c) <==> IsDigitOf(c, 10)
  {
  }

  /** The longest prefix of `s` made of digits of `radix`. */
  function DigitRun(s: string, radix: nat): (r: string)
    ensures |r| <= |s| && r == s[..|r|]
    ensures forall i | 0 <= i < |r| :: IsDigitOf(r[i], radix)
    ensures |r| < |s| ==> !IsDigitOf(s[|r|], radix)
  {
    if s != [] && IsDigitOf(s[0], radix) then [s[0]] + DigitRun(s[1..], radix) else []
  }

  /** The number a digit string denotes, most significant digit first. */
  function ValueOf(ds: string, radix: nat): nat
    requires forall i | 0 <= i < |ds| :: IsDigitOf(ds[i], radix)
  {
    if ds == [] then 0
    else
      var init, last := ds[..|ds| - 1], ds[|ds| - 1];
      assert IsDigitOf(last, radix);
      assert forall i | 0 <= i < |init| :: init[i] == ds[i];
      var high: nat := ValueOf(init, radix);
      var shifted := high * radix;
      assert shifted >= 0 by { ProductOfNats(high, radix); }
      shifted + DigitValue(last).value
  }

  lemma ProductOfNats(a: nat, b: nat)
    ensures a * b >= 0
  {
  }

  /** `parseInt(s)`: skip leading whitespace, read an optional sign, then
      a `0x`/`0X` prefix selects radix 16, otherwise radix 10; the longest
      run of digits that follows is the value, and no digit at all gives
      NaN (`None`). */
  function ParseInt(s: string): Option<int>
  {
    var t := TrimStart(s);
    if t != [] && t[0] == '-' then
      match ParseMagnitude(t[1..])
      case Some(v) => Some(-(v as int))
      case None => None
    else if t != [] && t[0] == '+' then
      match ParseMagnitude(t[1..])
      case Some(v) => Some(v)
      case None => None
    else
      match ParseMagnitude(t)
      case Some(v) => Some(v)
      case None => None
  }

  /** What `parseInt` reads after the sign: a `0x`/`0X` prefix selects
      radix 16, otherwise radix 10. */
  function ParseMagnitude(u: string): Option<nat>
  {
    var hex := |u| >= 2 && u[0] == '0' && (u[1] == 'x' || u[1] == 'X');
    var radix := if hex then 16 else 10;
    var ds := DigitRun(if hex then u[2..] else u, radix);
    if ds == [] then None else Some(ValueOf(ds, radix))
  }

  // ---------------------------------------------------------------------
  // `x > 0` for a value that is not a number: ToNumber of its text.

  /** Trailing whitespace removed. */
  function TrimEnd(s: string): string
  {
    if s != [] && IsJsWhitespace(s[|s| - 1]) then TrimEnd(s[..|s| - 1]) else s
  }

  function Pow(base: nat, e: nat): nat
  {
    if e == 0 then 1 else base * Pow(base, e - 1)
  }

  predicate AllDecimal(s: string)
  {
    forall i | 0 <= i < |s| :: IsDecimalDigit(s[i])
  }

  /** The index of the first occurrence of `c` or `d` in `s`, or `|s|`. */
  function IndexOfEither(s: string, c: char, d: char): (r: nat)
    ensures r <= |s|
    ensures forall i | 0 <= i < r :: s[i] != c && s[i] != d
    ensures r < |s| ==> s[r] == c || s[r] == d
  {
    if s == [] then 0
    else if s[0] == c || s[0] == d then 0
    else 1 + IndexOfEither(s[1..], c, d)
  }

  /** The exponent of a decimal literal: an optional sign and at least
      one digit. */
  function Exponent(x: string): Option<int>
  {
    var neg := x != [] && x[0] == '-';
    var ds := if x != [] && (x[0] == '-' || x[0] == '+') then x[1..] else x;
    if ds == [] || !AllDecimal(ds) then None
    else
      DecimalDigitsAgreeAll(ds);
      var v := ValueOf(ds, 10);
      Some(if neg then -(v as int) else v)
  }

  lemma DecimalDigitsAgreeAll(ds: string)
    requires AllDecimal(ds)
    ensures forall i | 0 <= i < |ds| :: IsDigitOf(ds[i], 10)
  {
    forall i | 0 <= i < |ds|
      ensures IsDigitOf(ds[i], 10)
    {
      DecimalDigitsAgree(ds[i]);
    }
  }

  /** The value m * 10^k of an unsigned decimal literal (digits with an
      optional '.', at least one digit, and an optional exponent), as the
      pair (m, k); `None` when `u` is not such a literal. */
  function DecimalLiteral(u: string): Option<(nat, int)>
  {
    var ie := IndexOfEither(u, 'e', 'E');
    var mantissa := u[..ie];
    var id := IndexOfEither(mantissa, '.', '.');
    var whole := mantissa[..id];
    var frac := if id < |mantissa| then mantissa[id + 1..] else "";
    var exp := if ie < |u| then Exponent(u[ie + 1..]) else Some(0);
    if !AllDecimal(whole) || !AllDecimal(frac) || |whole| + |frac| == 0 || exp.None? then None
    else
      DecimalDigitsAgreeAll(whole + frac);
      Some((ValueOf(whole + frac, 10), exp.value - |frac|))
  }

  /** A positive decimal value m * 10^k that the nearest double does not
      round to 0: it lies above half the least subnormal, 2^-1075. */
  predicate AboveUnderflow(m: nat, k: int)
  {
    m > 0 && (k >= 0 || m * Pow(2, 1075) > Pow(10, -k))
  }

  /** A `0x`, `0o` or `0b` literal (either case, no sign) and its value. */
  function NonDecimalLiteral(u: string): Option<nat>
  {
    if |u| < 3 || u[0] != '0' then None
    else
      var radix := if u[1] in {'x', 'X'} then 16 else if u[1] in {'o', 'O'} then 8
                   else if u[1] in {'b', 'B'} then 2 else 0;
      var ds := u[2..];
      if radix == 0 || !(forall i | 0 <= i < |ds| :: IsDigitOf(ds[i], radix)) then None
      else Some(ValueOf(ds, radix))
  }

  /** `ToNumber(s) > 0` for a string: surrounding whitespace is ignored
      (leaving nothing gives 0); an optionally signed decimal literal or
      `Infinity`, or an unsigned `0x`/`0o`/`0b` literal, gives its value;
      any other text gives NaN. */
  predicate TextPositive(s: string)
  {
    TrimmedPositive(TrimEnd(TrimStart(s)))
  }

  /** `ToNumber(t) > 0` for a text with no surrounding whitespace. */
  predicate TrimmedPositive(t: string)
  {
    var signed := t != [] && (t[0] == '+' || t[0] == '-');
    var u := if signed then t[1..] else t;
    var negative := signed && t[0] == '-';
    if !signed && NonDecimalLiteral(u).Some? then NonDecimalLiteral(u).value > 0
    else if u == "Infinity" then !negative
    else match DecimalLiteral(u)
      case Some((m, k)) => !negative && AboveUnderflow(m, k)
      case None => false
  }

  /** `String(e) > 0`, the comparison of an array's one element: `null`
      gives "" (0), a number's text reads back as that number, and a
      boolean or an object gives text that is NaN. */
  predicate ElementPositive(e: Json)
  {
    match e
    case JNull => false
    case JBool(_) => false
    case JNum(n) => n.Finite? && n.value > 0.0
    case JStr(s) => TextPositive(s)
    case JArr(items) => |items| == 1 && ElementPositive(items[0])
    case JObj(_) => false
  }

  /** `v > 0` for a decoded JSON value: `null` is 0 and `true` is 1; a
      string is read by ToNumber; an array becomes the text of its
      elements joined by ',' (NaN for two or more of them, 0 for none);
      an object becomes "[object Object]", which is NaN. */
  predicate GreaterThanZero(v: Json)
  {
    match v
    case JBool(b) => b
    case _ => ElementPositive(v)
  }

  /** Examples: "1", " 2 ", "0x1", "1e3", "Infinity" and ["3"] are above
      0; "", "0", "-1", "0x0", "1,2", "abc", "1e-400" and [1, 2] are not. */
  lemma GreaterThanZeroExamples()
    ensures TextPositive("1") && TextPositive(" 2 ") && TextPositive("0x1") && TextPositive("1e3")
    ensures TextPositive("Infinity") && GreaterThanZero(JArr([JStr("3")]))
    ensures !TextPositive("") && !TextPositive("0") && !TextPositive("-1") && !TextPositive("0x0")
    ensures !TextPositive("1,2") && !TextPositive("abc") && !TextPositive("1e-400")
    ensures !GreaterThanZero(JArr([JNum(Finite(1.0)), JNum(Finite(2.0))]))
  {
    TextPositiveOfDigit('1');
    TextPositiveOfDigit('3');
    TextPositiveOfDigit('0');
    TextPositiveSpaced();
    TextPositiveHex();
    TextPositiveExponent();
    TextPositiveInfinity();
    TextNotPositiveEmpty();
    TextNotPositiveNegative();
    TextNotPositiveHexZero();
    TextNotPositiveComma();
    TextNotPositiveWord();
    TextNotPositiveTiny();
  }

  lemma TextPositiveSpaced()
    ensures TextPositive(" 2 ")
  {
    assert TrimStart(" 2 ") == "2 " by {
      assert " 2 "[1..] == "2 ";
    }
    assert TrimEnd("2 ") == "2" by {
      assert "2 "[..1] == "2";
    }
    TextPositiveOfDigit('2');
  }

  lemma TextPositiveHex()
    ensures TextPositive("0x1")
  {
    TrimPlain("0x1");
    assert NonDecimalLiteral("0x1") == Some(1) by {
      assert "0x1"[2..] == "1";
      assert ValueOf("1", 16) == 1 by {
        assert "1"[..0] == [];
      }
    }
  }

  lemma TextPositiveExponent()
    ensures TextPositive("1e3")
  {
    var u := "1e3";
    TrimPlain(u);
    assert NonDecimalLiteral(u).None?;
    assert IndexOfEither(u, 'e', 'E') == 1;
    assert u[..1] == "1" && u[2..] == "3";
    assert IndexOfEither("1", '.', '.') == 1;
    assert ValueOf("3", 10) == 3 by {
      assert "3"[..0] == [];
    }
    assert ValueOf("1", 10) == 1 by {
      assert "1"[..0] == [];
    }
    assert Exponent("3") == Some(3);
    assert "1" + "" == "1";
    assert DecimalLiteral(u) == Some((1, 3));
  }

  lemma TextPositiveInfinity()
    ensures TextPositive("Infinity")
  {
    TrimPlain("Infinity");
    assert NonDecimalLiteral("Infinity").None?;
  }

  lemma TextNotPositiveEmpty()
    ensures !TextPositive("")
  {
    assert DecimalLiteral("").None?;
  }

  lemma TextNotPositiveNegative()
    ensures !TextPositive("-1")
  {
    TrimPlain("-1");
    assert "-1"[1..] == "1";
  }

  lemma TextNotPositiveHexZero()
    ensures !TextPositive("0x0")
  {
    TrimPlain("0x0");
    assert NonDecimalLiteral("0x0") == Some(0) by {
      assert "0x0"[2..] == "0";
      assert ValueOf("0", 16) == 0 by {
        assert "0"[..0] == [];
      }
    }
  }

  lemma TextNotPositiveComma()
    ensures !TextPositive("1,2")
  {
    var u := "1,2";
    TrimPlain(u);
    assert NonDecimalLiteral(u).None?;
    assert IndexOfEither(u, 'e', 'E') == 3 && u[..3] == u;
    assert IndexOfEither(u, '.', '.') == 3;
    assert !IsDecimalDigit(u[1]);
    assert DecimalLiteral(u).None?;
  }

  lemma TextNotPositiveWord()
    ensures !TextPositive("abc")
  {
    var u := "abc";
    TrimPlain(u);
    assert NonDecimalLiteral(u).None?;
    assert IndexOfEither(u, 'e', 'E') == 3 && u[..3] == u;
    assert IndexOfEither(u, '.', '.') == 3;
    assert !IsDecimalDigit(u[0]);
    assert DecimalLiteral(u).None?;
  }

  /** A text that neither starts nor ends with whitespace is its own trim. */
  lemma TrimPlain(s: string)
    requires s != [] && !IsJsWhitespace(s[0]) && !IsJsWhitespace(s[|s| - 1])
    ensures TextPositive(s) == TrimmedPositive(s)
  {
    assert TrimStart(s) == s;
    assert TrimEnd(s) == s;
  }

  /** A single digit reads as itself. */
  lemma TextPositiveOfDigit(c: char)
    requires '0' <= c <= '9'
    ensures TrimEnd(TrimStart([c])) == [c]
    ensures NonDecimalLiteral([c]).None?
    ensures DecimalLiteral([c]) == Some((c as int - '0' as int, 0))
    ensures TextPositive([c]) <==> c != '0'
  {
    var u := [c];
    TrimPlain(u);
    assert IndexOfEither(u, 'e', 'E') == 1;
    assert u[..1] == u;
    assert IndexOfEither(u, '.', '.') == 1;
    assert u + "" == u;
    assert ValueOf(u, 10) == c as int - '0' as int by {
      assert u[..0] == [];
    }
  }

  lemma TextNotPositiveZero()
    ensures !TextPositive("0")
  {
    TextPositiveOfDigit('0');
  }

  /** 1e-400 is below every double but 0. */
  lemma TextNotPositiveTiny()
    ensures !TextPositive("1e-400")
  {
    TrimPlain("1e-400");
    TinyLiteral();
    TinyUnderflows(1, -400);
  }

  lemma TinyLiteral()
    ensures DecimalLiteral("1e-400") == Some((1, -400))
  {
    var u := "1e-400";
    assert IndexOfEither(u, 'e', 'E') == 1;
    assert u[..1] == "1" && u[2..] == "-400";
    assert IndexOfEither("1", '.', '.') == 1;
    assert "-400"[1..] == "400";
    assert ValueOf("400", 10) == 400 by {
      assert "400"[..2] == "40" && "40"[..1] == "4";
    }
    assert ValueOf("1", 10) == 1;
    assert "1" + "" == "1";
  }

  lemma TinyUnderflows(m: nat, k: int)
    requires m == 1 && k == -400
    ensures !AboveUnderflow(m, k)
  {
    PowersCompare();
  }

  /** 2^1075 <= 10^400, since 2^1075 <= 2^1200 = 8^400. */
  lemma PowersCompare()
    ensures 1 * Pow(2, 1075) <= Pow(10, 400)
  {
    PowMonotone(2, 1075, 1200);
    PowOfPow(2, 3, 400);
    assert Pow(2, 3) == 8;
    PowBaseMonotone(8, 10, 400);
  }

  lemma {:induction false} PowMonotone(b: nat, e: nat, f: nat)
    requires b >= 1 && e <= f
    ensures Pow(b, e) <= Pow(b, f)
    decreases f
  {
    if e < f {
      PowMonotone(b, e, f - 1);
      PowPositive(b, f - 1);
    }
  }

  lemma {:induction false} PowPositive(b: nat, e: nat)
    requires b >= 1
    ensures Pow(b, e) >= 1
  {
    if e > 0 {
      PowPositive(b, e - 1);
    }
  }

  lemma {:induction false} PowAdd(b: nat, e: nat, f: nat)
    ensures Pow(b, e + f) == Pow(b, e) * Pow(b, f)
    decreases e
  {
    if e > 0 {
      PowAdd(b, e - 1, f);
    }
  }

  lemma {:induction false} PowOfPow(b: nat, e: nat, f: nat)
    ensures Pow(b, e * f) == Pow(Pow(b, e), f)
    decreases f
  {
    if f > 0 {
      PowOfPow(b, e, f - 1);
      PowAdd(b, e, e * (f - 1));
    }
  }

  lemma {:induction false} PowBaseMonotone(a: nat, b: nat, e: nat)
    requires a <= b
    ensures Pow(a, e) <= Pow(b, e)
  {
    if e > 0 {
      PowBaseMonotone(a, b, e - 1);
      MulMonotone(a, Pow(a, e - 1), b, Pow(b, e - 1));
    }
  }

  lemma MulMonotone(a: nat, x: nat, b: nat, y: nat)
    requires a <= b && x <= y
    ensures a * x <= b * y
  {
    assert a * x <= b * x;
    assert b * x <= b * y;
  }

  // ---------------------------------------------------------------------
  // Conversion of an object to a primitive value.

  /** The message of the TypeError that converting such a value throws. */
  const NotPrimitive := "Cannot convert object to primitive value"

  /** Converting `j` to a primitive (`String(j)`, a template literal,
      `j > 0`) throws. A decoded object with its own `toString` key hides
      `Object.prototype.toString` behind a value that is not callable, and
      its `valueOf` gives back the object itself, so no primitive is left;
      an array converts its elements one by one. Without that key, an
      object is "[object Object]". */
  predicate ToPrimitiveThrows(j: Json)
  {
    match j
    case JObj(f) => "toString" in f
    case JArr(items) => exists i | 0 <= i < |items| :: ToPrimitiveThrows(items[i])
    case _ => false
  }

  /** `{"toString": 1}` and an array holding it throw; `{"valueOf": 1}`
      and `[{}]` do not. */
  lemma ToPrimitiveThrowsExamples()
    ensures ToPrimitiveThrows(JObj(map["toString" := JNum(Finite(1.0))]))
    ensures ToPrimitiveThrows(JArr([JNull, JObj(map["toString" := JNum(Finite(1.0))])]))
    ensures !ToPrimitiveThrows(JObj(map["valueOf" := JNum(Finite(1.0))]))
    ensures !ToPrimitiveThrows(JArr([JObj(map[])]))
  {
    var o := JObj(map["toString" := JNum(Finite(1.0))]);
    assert ToPrimitiveThrows(JArr([JNull, o])) by {
      assert [JNull, o][1] == o;
    }
  }

  // ---------------------------------------------------------------------
  // String(v), as a regular expression's `test` converts its argument.

  /** `String(j)` for a value whose conversion does not throw (see
      ToPrimitiveThrows). `None` stands for the texts this model does not
      spell out: a non-integral number, or one of magnitude 10^21 or more,
      which JavaScript writes with a fraction or an exponent (and an array
      that holds one). Such a text always holds a decimal digit and no
      '@'. */
  function ToJsString(j: Json): Option<string>
  {
    match j
    case JNull => Some("null")
    case JBool(b) => Some(if b then "true" else "false")
    case JNum(NaN) => Some("NaN")
    case JNum(Finite(r)) =>
      if IsInteger(r) && -1000000000000000000000.0 < r < 1000000000000000000000.0
      then Some(IntText(r.Floor)) else None
    case JStr(s) => Some(s)
    case JObj(_) => Some("[object Object]")
    case JArr(items) =>
      // Array.prototype.join: elements joined by ',', null written as ''
      JoinTexts(seq(|items|, i requires 0 <= i < |items| =>
        if items[i] == JNull then Some("") else ToJsString(items[i])))
  }

  function JoinTexts(parts: seq<Option<string>>): Option<string>
  {
    if parts == [] then Some("")
    else if |parts| == 1 then parts[0]
    else match (parts[0], JoinTexts(parts[1..]))
      case (Some(a), Some(b)) => Some(a + "," + b)
      case _ => None
  }

  // ---------------------------------------------------------------------
  // Properties.

  lemma {:induction false} NatTextDigits(n: nat)
    ensures |NatText(n)| >= 1
    ensures forall i | 0 <= i < |NatText(n)| :: IsDecimalDigit(NatText(n)[i])
    ensures NatText(n)[0] == '0' ==> n == 0
    ensures n < 10 ==> |NatText(n)| == 1
  {
    if n >= 10 {
      NatTextDigits(n / 10);
    }
  }

  lemma {:induction false} ValueOfNatText(n: nat)
    ensures forall i | 0 <= i < |NatText(n)| :: IsDigitOf(NatText(n)[i], 10)
    ensures ValueOf(NatText(n), 10) == n
  {
    NatTextDigits(n);
    if n >= 10 {
      ValueOfNatText(n / 10);
      var t := NatText(n);
      assert t[..|t| - 1] == NatText(n / 10);
    }
  }

  /** A run of digits followed by a non-digit is read up to that non-digit. */
  lemma {:induction false} DigitRunOfPrefix(a: string, t: string, radix: nat)
    requires forall i | 0 <= i < |a| :: IsDigitOf(a[i], radix)
    requires t == [] || !IsDigitOf(t[0], radix)
    ensures DigitRun(a + t, radix) == a
  {
    if a != [] {
      assert (a + t)[1..] == a[1..] + t;
      DigitRunOfPrefix(a[1..], t, radix);
    }
  }

  /** `parseInt` reads back the decimal text of every integer, whatever
      follows it, unless what follows is another digit or the text is "0"
      followed by 'x' or 'X' (which `parseInt` takes for a hex prefix). */
  lemma ParseIntOfIntText(n: int, t: string)
    requires t == [] || !IsDecimalDigit(t[0])
    requires n == 0 ==> t == [] || (t[0] != 'x' && t[0] != 'X')
    ensures ParseInt(IntText(n) + t) == Some(n)
  {
    if n < 0 {
      var m: nat := -n;
      assert IntText(n) == "-" + NatText(m);
      ParseIntOfNegativeText(m, t);
      assert IntText(n) + t == "-" + (NatText(m) + t);
    } else {
      assert IntText(n) == NatText(n);
      ParseIntOfNatText(n, t);
    }
  }

  lemma ParseIntOfNatText(m: nat, t: string)
    requires t == [] || !IsDecimalDigit(t[0])
    requires m == 0 ==> t == [] || (t[0] != 'x' && t[0] != 'X')
    ensures ParseInt(NatText(m) + t) == Some(m)
  {
    NatTextDigits(m);
    ParseMagnitudeOfNatText(m, t);
    ParseIntUnsigned(NatText(m) + t);
  }

  lemma ParseIntOfNegativeText(m: nat, t: string)
    requires m > 0
    requires t == [] || !IsDecimalDigit(t[0])
    ensures ParseInt("-" + (NatText(m) + t)) == Some(-(m as int))
  {
    ParseMagnitudeOfNatText(m, t);
    ParseIntMinus(NatText(m) + t);
  }

  /** Text that starts with a digit is read by `ParseMagnitude` as it is. */
  lemma ParseIntUnsigned(s: string)
    requires s != [] && IsDecimalDigit(s[0])
    ensures ParseInt(s) == (match ParseMagnitude(s) case Some(v) => Some(v as int) case None => None)
  {
    assert !IsJsWhitespace(s[0]);
    assert TrimStart(s) == s;
  }

  /** Text that starts with '-' is the negated magnitude of the rest. */
  lemma ParseIntMinus(u: string)
    ensures ParseInt("-" + u) == (match ParseMagnitude(u) case Some(v) => Some(-(v as int)) case None => None)
  {
    var s := "-" + u;
    assert !IsJsWhitespace(s[0]);
    assert TrimStart(s) == s;
    assert s[1..] == u;
  }

  lemma ParseMagnitudeOfNatText(m: nat, t: string)
    requires t == [] || !IsDecimalDigit(t[0])
    requires m == 0 ==> t == [] || (t[0] != 'x' && t[0] != 'X')
    ensures ParseMagnitude(NatText(m) + t) == Some(m)
  {
    NatTextDigits(m);
    ValueOfNatText(m);
    var digits := NatText(m);
    var u := digits + t;
    assert u[0] == '0' ==> m == 0;
    assert |u| >= 2 && u[0] == '0' ==> u[1] == t[0];
    assert t != [] ==> !IsDigitOf(t[0], 10);
    DigitRunOfPrefix(digits, t, 10);
  }
}
