/** Recognising numeric cells and building their Excel number formats
    (parser.py, lines 297-332 and 369-386). */
module Numeric {
  import opened Wrappers
  import opened Strings

  // ------------------------------------------------------------ the literal

  /** The characters deleted before the numeric test: `,`, `$`, `%` (the
      three `replace` calls) and whitespace (`strip()` and then
      `re.sub(r'\s+', '', ...)`, which already removes every whitespace
      character the strip would). */
  predicate IsFormatting(c: char) {
    c == ',' || c == '$' || c == '%' || IsSpace(c)
  }

  /** `cleaned`. */
  function Clean(s: string): (r: string)
    ensures |r| <= |s|
    ensures forall i :: 0 <= i < |r| ==> !IsFormatting(r[i])
  {
    if s == [] then []
    else if IsFormatting(s[0]) then Clean(s[1..])
    else [s[0]] + Clean(s[1..])
  }

  /** Cleaning keeps every other character, and adds none. */
  lemma {:induction false} CleanKeeps(s: string)
    ensures forall c :: c in s && !IsFormatting(c) ==> c in Clean(s)
    ensures forall c :: c in Clean(s) ==> c in s
  {
    if s != [] {
      CleanKeeps(s[1..]);
      assert forall c :: c in s ==> c == s[0] || c in s[1..];
    }
  }

  /** A match of `^-?\d+\.?\d*$`: an optional minus, a non-empty run of
      digits, and optionally a dot followed by a possibly empty run of digits. */
  datatype Literal = Literal(negative: bool, whole: string, dot: bool, frac: string)

  predicate ValidLiteral(l: Literal) {
    |l.whole| >= 1 && IsDigits(l.whole) && IsDigits(l.frac) && (!l.dot ==> l.frac == "")
  }

  /** The text a literal is written as, without and with its sign. */
  function UnsignedText(l: Literal): string {
    l.whole + (if l.dot then "." + l.frac else "")
  }

  function LiteralText(l: Literal): string {
    (if l.negative then "-" else "") + UnsignedText(l)
  }

  /** The length of the run of digits at the start of `s`. */
  function DigitRun(s: string): (n: nat)
    ensures n <= |s| && IsDigits(s[..n])
    ensures n < |s| ==> !IsDigit(s[n])
  {
    if s == [] || !IsDigit(s[0]) then 0
    else
      var n := 1 + DigitRun(s[1..]);
      assert s[..n] == [s[0]] + s[1..][..n - 1];
      n
  }

  /** `\d+\.?\d*$` on the text after the optional minus. */
  function ScanUnsigned(negative: bool, t: string): Option<Literal> {
    var n := DigitRun(t);
    if n == 0 then None
    else if n == |t| then Some(Literal(negative, t, false, ""))
    else if t[n] != '.' then None
    else
      var u := t[n + 1..];
      if DigitRun(u) == |u| then Some(Literal(negative, t[..n], true, u)) else None
  }

  /** The regular-expression test, as a scanner. */
  function ScanLiteral(s: string): Option<Literal> {
    if |s| > 0 && s[0] == '-' then ScanUnsigned(true, s[1..]) else ScanUnsigned(false, s)
  }

  lemma ScanUnsignedSound(negative: bool, t: string)
    requires ScanUnsigned(negative, t).Some?
    ensures ValidLiteral(ScanUnsigned(negative, t).value)
    ensures ScanUnsigned(negative, t).value.negative == negative
    ensures UnsignedText(ScanUnsigned(negative, t).value) == t
  {
    var n := DigitRun(t);
    if n == |t| {
      assert t[..n] == t;
    } else {
      var u := t[n + 1..];
      assert u[..|u|] == u;
      assert t == t[..n] + "." + u;
    }
  }

  /** What the scanner accepts is a valid literal, written exactly as the input. */
  lemma ScanLiteralSound(s: string)
    requires ScanLiteral(s).Some?
    ensures ValidLiteral(ScanLiteral(s).value) && LiteralText(ScanLiteral(s).value) == s
  {
    if |s| > 0 && s[0] == '-' {
      ScanUnsignedSound(true, s[1..]);
      assert s == "-" + s[1..];
    } else {
      ScanUnsignedSound(false, s);
    }
  }

  lemma DigitRunOfDigits(d: string, rest: string)
    requires IsDigits(d) && (rest == [] || !IsDigit(rest[0]))
    ensures DigitRun(d + rest) == |d|
    decreases |d|
  {
    if d != [] {
      assert (d + rest)[1..] == d[1..] + rest;
      DigitRunOfDigits(d[1..], rest);
    } else {
      assert d + rest == rest;
    }
  }

  lemma ScanUnsignedComplete(l: Literal)
    requires ValidLiteral(l)
    ensures ScanUnsigned(l.negative, UnsignedText(l)) == Some(l)
  {
    var tail := if l.dot then "." + l.frac else "";
    var t := l.whole + tail;
    DigitRunOfDigits(l.whole, tail);
    if l.dot {
      assert t[|l.whole| + 1..] == l.frac;
      DigitRunOfDigits(l.frac, "");
      assert l.frac + "" == l.frac;
      assert t[..|l.whole|] == l.whole;
    } else {
      assert t == l.whole;
    }
  }

  /** Every valid literal is accepted, and read back as itself. */
  lemma ScanLiteralComplete(l: Literal)
    requires ValidLiteral(l)
    ensures ScanLiteral(LiteralText(l)) == Some(l)
  {
    var t := UnsignedText(l);
    ScanUnsignedComplete(l);
    assert t[0] == l.whole[0];
    if l.negative {
      assert LiteralText(l)[1..] == t;
    } else {
      assert LiteralText(l) == t;
    }
  }

  /** `decimal_places`: the number of characters after the dot. */
  function DecimalPlaces(l: Literal): nat {
    if l.dot then |l.frac| else 0
  }

  // ------------------------------------------------------------- the value

  /** A cell value: text, an `int`, or a `float` written with `places`
      digits after the dot, held exactly as `mantissa / 10^places`; `Empty`
      is a worksheet cell that holds no value (openpyxl's `None`). */
  datatype Value = Empty | Text(s: string) | Int(n: int) | Decimal(mantissa: int, places: nat)

  /** The number a valid literal denotes: `int(cleaned)` without a dot,
      `float(cleaned)` with one. */
  function LiteralValue(l: Literal): (v: Value)
    requires ValidLiteral(l)
    ensures l.dot ==> v.Decimal? && v.places == |l.frac|
    ensures !l.dot ==> v.Int?
  {
    var sign := if l.negative then -1 else 1;
    if l.dot then
      assert forall i :: 0 <= i < |l.whole + l.frac| ==>
        (l.whole + l.frac)[i] == (if i < |l.whole| then l.whole[i] else l.frac[i - |l.whole|]);
      Decimal(sign * DigitsValue(l.whole + l.frac), |l.frac|)
    else Int(sign * DigitsValue(l.whole))
  }

  /** The entry of `numeric_cells` for a numeric cell. */
  datatype NumberStyle = NumberStyle(dollar: bool, percent: bool, comma: bool, places: nat)

  /** A cell after the conversion loop: its value, and its number style when
      it was recognised as a number. */
  datatype Classified = Classified(value: Value, style: Option<NumberStyle>)

  /** The body of the conversion loop of parser.py, lines 298-332. */
  function Classify(cell: string): (r: Classified)
    ensures r.style.None? <==> r.value.Text?
    ensures r.value.Text? ==> r.value.s == cell
  {
    if cell == "" then Classified(Text(cell), None)
    else
      var scanned := ScanLiteral(Clean(cell));
      if scanned.None? then Classified(Text(cell), None)
      else
        ScanLiteralSound(Clean(cell));
        var l := scanned.value;
        Classified(LiteralValue(l), Some(NumberStyle('$' in cell, '%' in cell, ',' in cell, DecimalPlaces(l))))
  }

  /** A cell is numeric exactly when it is non-empty and, once formatting is
      deleted, it is written as a valid literal; it is then that literal's
      number, with the `$`, `%` and `,` flags of the original text and the
      literal's decimal places. Every other cell keeps its text. */
  lemma ClassifyIsNumericIff(cell: string)
    ensures Classify(cell).style.Some? <==>
              cell != "" && exists l :: ValidLiteral(l) && LiteralText(l) == Clean(cell)
    ensures Classify(cell).style.None? ==> Classify(cell).value == Text(cell)
    ensures Classify(cell).style.Some? ==>
              exists l :: && ValidLiteral(l) && LiteralText(l) == Clean(cell)
                          && Classify(cell).value == LiteralValue(l)
                          && Classify(cell).style.value
                             == NumberStyle('$' in cell, '%' in cell, ',' in cell, DecimalPlaces(l))
  {
    if cell != "" {
      if ScanLiteral(Clean(cell)).Some? {
        ScanLiteralSound(Clean(cell));
      }
      if exists l :: ValidLiteral(l) && LiteralText(l) == Clean(cell) {
        var l :| ValidLiteral(l) && LiteralText(l) == Clean(cell);
        ScanLiteralComplete(l);
      }
    }
  }

  /** Every character of a literal's text is a digit, `-` or `.`. */
  lemma LiteralChars(l: Literal)
    requires ValidLiteral(l)
    ensures forall c :: c in LiteralText(l) ==> IsDigit(c) || c == '-' || c == '.'
  {
    var sign := if l.negative then "-" else "";
    var tail := if l.dot then "." + l.frac else "";
    assert LiteralText(l) == sign + l.whole + tail;
    forall c | c in LiteralText(l)
      ensures IsDigit(c) || c == '-' || c == '.'
    {
      var i :| 0 <= i < |LiteralText(l)| && LiteralText(l)[i] == c;
      if i >= |sign| + |l.whole| && l.dot {
        assert tail == ['.'] + l.frac;
      }
    }
  }

  /** Accounting negatives such as `(1,234)` stay text: the parentheses are
      not formatting, and no literal contains them. */
  lemma ParenthesisedStaysText(cell: string)
    requires '(' in cell
    ensures Classify(cell) == Classified(Text(cell), None)
  {
    CleanKeeps(cell);
    assert '(' in Clean(cell);
    if ScanLiteral(Clean(cell)).Some? {
      ScanLiteralSound(Clean(cell));
      LiteralChars(ScanLiteral(Clean(cell)).value);
    }
  }

  // --------------------------------------------------------- number format

  /** The format string of parser.py, lines 370-386: `#,##0` or `0`, then a
      dot and `places` zeros when `places > 0`; a `$` prefix wins over a `%`
      suffix. */
  function FormatString(st: NumberStyle): (r: string)
    ensures |r| > 0
    ensures r[0] == '$' <==> st.dollar
    ensures r[|r| - 1] == '%' <==> st.percent && !st.dollar
  {
    var base := BaseFormat(st.comma, st.places);
    DecodeBaseFormat(st.comma, st.places, Plain);
    if st.dollar then "$" + base
    else if st.percent then base + "%"
    else base
  }

  /** `base_format`. */
  function BaseFormat(comma: bool, places: nat): string {
    var digits := if comma then "#,##0" else "0";
    if places > 0 then digits + "." + Repeat('0', places) else digits
  }

  /** What a format string shows: the currency or percent sign it carries,
      whether it groups thousands, and its decimal places. */
  datatype Sign = Dollar | Percent | Plain
  datatype FormatSpec = FormatSpec(sign: Sign, comma: bool, places: nat)

  /** The sign a style's format shows: the dollar when both flags are set. */
  function SignOf(st: NumberStyle): Sign {
    if st.dollar then Dollar else if st.percent then Percent else Plain
  }

  predicate AllZeros(s: string) {
    forall i :: 0 <= i < |s| ==> s[i] == '0'
  }

  /** Reads a base format back as its grouping and decimal places. */
  function DecodeBase(body: string, sign: Sign): Option<FormatSpec> {
    var comma := StartsWith(body, "#,##0");
    if !comma && !StartsWith(body, "0") then None
    else
      var rest := if comma then body[5..] else body[1..];
      if rest == [] then Some(FormatSpec(sign, comma, 0))
      else if |rest| >= 2 && rest[0] == '.' && AllZeros(rest[1..]) then Some(FormatSpec(sign, comma, |rest| - 1))
      else None
  }

  /** Reads a format string back. */
  function DecodeFormat(f: string): Option<FormatSpec> {
    if |f| > 0 && f[0] == '$' then DecodeBase(f[1..], Dollar)
    else if |f| > 0 && f[|f| - 1] == '%' then DecodeBase(f[..|f| - 1], Percent)
    else DecodeBase(f, Plain)
  }

  lemma DecodeBaseFormat(comma: bool, places: nat, sign: Sign)
    ensures DecodeBase(BaseFormat(comma, places), sign) == Some(FormatSpec(sign, comma, places))
    ensures BaseFormat(comma, places)[0] != '$'
    ensures BaseFormat(comma, places)[|BaseFormat(comma, places)| - 1] != '%'
  {
    var digits := if comma then "#,##0" else "0";
    var tail := if places > 0 then "." + Repeat('0', places) else "";
    var base := BaseFormat(comma, places);
    assert base == digits + tail;
    assert base[..|digits|] == digits;
    StartsWithSlice(base, digits);
    StartsWithSlice(base, "#,##0");
    if comma {
      assert base[5..] == tail;
    } else {
      assert base[1..] == tail;
      assert base[0] == '0' && !StartsWith(base, "#,##0");
    }
    if places > 0 {
      RepeatAll('0', places);
      assert tail[0] == '.' && tail[1..] == Repeat('0', places) && |tail| == places + 1;
    }
  }

  /** Every format string built reads back as the sign, grouping and decimal
      places of its style; in particular a `$` cell's format never shows the
      `%`, and the format determines the decimal places. */
  lemma DecodeFormatString(st: NumberStyle)
    ensures DecodeFormat(FormatString(st)) == Some(FormatSpec(SignOf(st), st.comma, st.places))
  {
    var base := BaseFormat(st.comma, st.places);
    DecodeBaseFormat(st.comma, st.places, SignOf(st));
    if st.dollar {
      assert ("$" + base)[1..] == base;
    } else if st.percent {
      assert (base + "%")[..|base|] == base;
    }
  }

  /** Two styles share a format exactly when they show the same sign,
      grouping and decimal places. */
  lemma FormatStringInjective(a: NumberStyle, b: NumberStyle)
    ensures FormatString(a) == FormatString(b) <==>
              SignOf(a) == SignOf(b) && a.comma == b.comma && a.places == b.places
  {
    DecodeFormatString(a);
    DecodeFormatString(b);
  }
}
