/**
 * Python's `float(str)` on the decimal literal forms the scraper feeds it:
 * surrounding whitespace, an optional sign, digits with at most one `.`,
 * and an optional exponent. The value is exact (a `real`), not a binary
 * double.
 */
module PyFloat {
  import opened Wrappers
  import opened Text

  function Pow10(n: nat): (r: nat)
    ensures r >= 1
  {
    if n == 0 then 1 else 10 * Pow10(n - 1)
  }

  /** The number a string of decimal digits denotes. */
  function DigitsValue(s: string): nat
    requires AllDigits(s)
    decreases |s|
  {
    if s == [] then 0 else 10 * DigitsValue(s[..|s| - 1]) + (s[|s| - 1] as int - '0' as int)
  }

  /** `digits`, `digits.`, `.digits` or `digits.digits`. */
  function Mantissa(t: string): Option<real> {
    var d := Find(t, {'.'});
    if d == |t| then
      if t != [] && AllDigits(t) then Some(DigitsValue(t) as real) else None
    else
      var whole, frac := t[..d], t[d + 1..];
      if AllDigits(whole) && AllDigits(frac) && |whole| + |frac| > 0
      then Some(DecimalOf(whole, frac))
      else None
  }

  /** The value of the literal `whole.frac`. */
  function DecimalOf(whole: string, frac: string): (r: real)
    requires AllDigits(whole) && AllDigits(frac)
    ensures r >= 0.0
  {
    DigitsValue(whole) as real + DigitsValue(frac) as real / Pow10(|frac|) as real
  }

  /** The part after `e`/`E`: an optional sign and at least one digit. */
  function Exponent(t: string): Option<int> {
    var signed := t != [] && (t[0] == '+' || t[0] == '-');
    var u := if signed then t[1..] else t;
    if u != [] && AllDigits(u)
    then Some(if signed && t[0] == '-' then -(DigitsValue(u) as int) else DigitsValue(u))
    else None
  }

  function Scale(m: real, e: int): (r: real)
    ensures m >= 0.0 ==> r >= 0.0
  {
    if e >= 0 then m * Pow10(e) as real else m / Pow10(-e) as real
  }

  function Unsigned(t: string): Option<real> {
    var k := Find(t, {'e', 'E'});
    if k == |t| then Mantissa(t)
    else
      match (Mantissa(t[..k]), Exponent(t[k + 1..]))
      case (Some(m), Some(e)) => Some(Scale(m, e))
      case _ => None
  }

  /** `float(s)`; `None` stands for the `ValueError` Python raises. */
  function ParseFloat(s: string): Option<real> {
    var t := Strip(s);
    if t != [] && (t[0] == '+' || t[0] == '-') then
      match Unsigned(t[1..])
      case Some(v) => Some(if t[0] == '-' then -v else v)
      case None => None
    else Unsigned(t)
  }

  /** A leading `-` negates what the rest denotes. */
  lemma ParseNegative(s: string)
    requires s != [] && s[0] == '-' && !IsSpace(s[|s| - 1])
    ensures ParseFloat(s) == if Unsigned(s[1..]).Some? then Some(-Unsigned(s[1..]).value) else None
  {
    StripKeeps(s);
  }

  /** `float("")` raises. */
  lemma ParseEmpty()
    ensures ParseFloat("").None?
  {
    assert Strip("") == "";
  }

  lemma UnsignedNonNegative(t: string)
    ensures Unsigned(t).Some? ==> Unsigned(t).value >= 0.0
  {
  }

  /** Digits and dots only, at least one digit, at most one dot: the shape a regex price group takes. */
  ghost predicate PlainDecimal(t: string) {
    && (forall i :: 0 <= i < |t| ==> IsDigit(t[i]) || t[i] == '.')
    && (exists i :: 0 <= i < |t| && IsDigit(t[i]))
    && CountChar(t, '.') <= 1
  }

  /** `float()` accepts every plain decimal and gives a non-negative value. */
  lemma PlainDecimalParses(t: string)
    requires PlainDecimal(t)
    ensures ParseFloat(t).Some? && ParseFloat(t).value >= 0.0
  {
    PlainDecimalUnsigned(t);
    assert IsDigit(t[0]) || t[0] == '.';
    assert IsDigit(t[|t| - 1]) || t[|t| - 1] == '.';
    StripKeeps(t);
    UnsignedNonNegative(t);
  }

  lemma PlainDecimalUnsigned(t: string)
    requires PlainDecimal(t)
    ensures t != [] && Unsigned(t) == Mantissa(t) && Mantissa(t).Some?
  {
    assert forall i :: 0 <= i < |t| ==> t[i] !in {'e', 'E'} by {
      forall i | 0 <= i < |t| ensures t[i] !in {'e', 'E'} {
        assert IsDigit(t[i]) || t[i] == '.';
      }
    }
    PlainDecimalMantissa(t);
  }

  lemma PlainDecimalMantissa(t: string)
    requires PlainDecimal(t)
    ensures Mantissa(t).Some?
  {
    var d := Find(t, {'.'});
    if d == |t| {
      assert AllDigits(t) by {
        forall i | 0 <= i < |t| ensures IsDigit(t[i]) {
          assert t[i] != '.';
        }
      }
    } else {
      var whole, frac := t[..d], t[d + 1..];
      assert t == whole + [t[d]] + frac;
      CountCharAppend(whole + [t[d]], frac, '.');
      CountCharAppend(whole, [t[d]], '.');
      CountCharZero(frac, '.');
      assert AllDigits(whole) by {
        forall i | 0 <= i < |whole| ensures IsDigit(whole[i]) {
          assert whole[i] == t[i];
        }
      }
      assert AllDigits(frac) by {
        forall i | 0 <= i < |frac| ensures IsDigit(frac[i]) {
          assert frac[i] == t[d + 1 + i];
          assert frac[i] in frac;
        }
      }
      var i :| 0 <= i < |t| && IsDigit(t[i]);
      assert i != d;
    }
  }

  /** `float(whole + "." + frac)` for digit strings is the decimal they spell. */
  lemma DecimalValue(whole: string, frac: string)
    requires whole != [] && frac != [] && AllDigits(whole) && AllDigits(frac)
    ensures ParseFloat(whole + "." + frac) == Some(DecimalOf(whole, frac))
  {
    var t := whole + "." + frac;
    var d := |whole|;
    assert t[0] == whole[0] && t[|t| - 1] == frac[|frac| - 1];
    DigitNotSpace(t[0]);
    DigitNotSpace(t[|t| - 1]);
    StripKeeps(t);
    DecimalMantissa(whole, frac);
  }

  lemma DecimalMantissa(whole: string, frac: string)
    requires whole != [] && AllDigits(whole) && AllDigits(frac)
    ensures Unsigned(whole + "." + frac) == Some(DecimalOf(whole, frac))
  {
    var t := whole + "." + frac;
    var d := |whole|;
    assert t[..d] == whole && t[d] == '.' && t[d + 1..] == frac;
    assert forall i :: 0 <= i < d ==> t[i] == whole[i] && IsDigit(t[i]);
    assert forall i :: d < i < |t| ==> t[i] == frac[i - d - 1] && IsDigit(t[i]);
    assert Find(t, {'e', 'E'}) == |t|;
    assert Unsigned(t) == Mantissa(t);
    assert Find(t, {'.'}) == d;
  }

  lemma DigitsExamples()
    ensures DigitsValue("1234") == 1234 && DigitsValue("56") == 56
    ensures DigitsValue("1") == 1 && DigitsValue("23456") == 23456
  {
    assert "1234"[..3] == "123" && "123"[..2] == "12" && "12"[..1] == "1" && "1"[..0] == "";
    assert "56"[..1] == "5" && "5"[..0] == "";
    assert "23456"[..4] == "2345" && "2345"[..3] == "234" && "234"[..2] == "23" && "23"[..1] == "2" && "2"[..0] == "";
  }

  lemma DecimalExamples()
    ensures DecimalOf("1234", "56") == 1234.56
    ensures DecimalOf("1", "23456") == 1.23456
  {
    DigitsExamples();
    assert Pow10(2) == 100 && Pow10(5) == 100000;
  }

  lemma Spelling()
    ensures "1234" + "." + "56" == "1234.56"
    ensures "1" + "." + "23456" == "1.23456"
  {
  }

  lemma ParseFloatUsExample()
    ensures ParseFloat("1234.56") == Some(1234.56)
  {
    DecimalExamples();
    Spelling();
    DecimalValue("1234", "56");
  }

  lemma ParseFloatEuExample()
    ensures ParseFloat("1.23456") == Some(1.23456)
  {
    DecimalExamples();
    Spelling();
    DecimalValue("1", "23456");
  }
}
