/** Kubernetes quantities (internal/ksmcompat/quantity.go): a decimal numeral with an optional
    suffix. strconv.ParseFloat is modelled on decimal numerals, over exact reals. */
module Quantity {
  import opened Text

  const SUFFIXES: map<string, real> := map[
    "" := 1.0,
    "m" := 0.001,
    "k" := 1_000.0,
    "M" := 1_000_000.0,
    "G" := 1_000_000_000.0,
    "T" := 1_000_000_000_000.0,
    "P" := 1_000_000_000_000_000.0,
    "E" := 1_000_000_000_000_000_000.0,
    "Ki" := 1_024.0,
    "Mi" := 1_048_576.0,
    "Gi" := 1_073_741_824.0,
    "Ti" := 1_099_511_627_776.0,
    "Pi" := 1_125_899_906_842_624.0,
    "Ei" := 1_152_921_504_606_846_976.0
  ]

  // ----- numerals -----

  function Pow10(k: nat): (p: real)
    ensures p > 0.0
  { if k == 0 then 1.0 else 10.0 * Pow10(k - 1) }

  /** x·10^k. */
  function Shift10(x: real, k: int): real {
    if k >= 0 then x * Pow10(k) else x / Pow10(-k)
  }

  type Digits = s: string | AllDigits(s) witness ""

  predicate IsSign(s: string) { s == "" || s == "+" || s == "-" }

  datatype Exponent = Exponent(mark: char, sign: string, digits: Digits) {
    ghost predicate Valid() { (mark == 'e' || mark == 'E') && IsSign(sign) && digits != "" }

    function Print(): string { [mark] + (sign + digits) }

    function Value(): int {
      var size: int := DigitsValue(digits);
      if sign == "-" then 0 - size else size
    }
  }

  /** The digits may be missing on one side of the point, not on both. */
  datatype Numeral = Numeral(sign: string, whole: Digits, fraction: Option<Digits>, exponent: Option<Exponent>) {
    ghost predicate Valid() {
      && IsSign(sign)
      && (whole != "" || (fraction.Some? && fraction.value != ""))
      && (exponent.Some? ==> exponent.value.Valid())
    }

    function Print(): string { sign + (whole + (FractionText(fraction) + ExponentText(exponent))) }

    function Value(): real {
      var decimals := if fraction.Some? then fraction.value else "";
      var power := (if exponent.Some? then exponent.value.Value() else 0) - |decimals|;
      var size := Shift10(DigitsValue(whole + decimals) as real, power);
      if sign == "-" then -size else size
    }
  }

  function FractionText(fraction: Option<Digits>): string {
    if fraction.Some? then "." + fraction.value else ""
  }

  function ExponentText(exponent: Option<Exponent>): string {
    if exponent.Some? then exponent.value.Print() else ""
  }

  // ----- reading one -----

  /** The longest prefix of digits, and the rest. */
  function TakeDigits(s: string): (Digits, string) {
    if s == "" || !IsDigit(s[0]) then ("", s)
    else
      var (d, rest) := TakeDigits(s[1..]);
      ([s[0]] + d, rest)
  }

  function TakeSign(s: string): (string, string) {
    if s != "" && (s[0] == '+' || s[0] == '-') then (s[..1], s[1..]) else ("", s)
  }

  function TakeFraction(s: string): (Option<Digits>, string) {
    if s != "" && s[0] == '.' then
      var (d, rest) := TakeDigits(s[1..]);
      (Some(d), rest)
    else (None, s)
  }

  /** All of s is an exponent, or s is empty. */
  function ReadExponent(s: string): Option<Option<Exponent>> {
    if s == "" then Some(None)
    else if s[0] != 'e' && s[0] != 'E' then None
    else
      var (sign, rest) := TakeSign(s[1..]);
      if rest != "" && AllDigits(rest) then Some(Some(Exponent(s[0], sign, rest))) else None
  }

  /** strconv.ParseFloat's decimal syntax, left to right. */
  function Read(s: string): Option<Numeral> {
    var (sign, body) := TakeSign(s);
    var (whole, tail) := TakeDigits(body);
    var (fraction, rest) := TakeFraction(tail);
    if whole == "" && (fraction.None? || fraction.value == "") then None
    else
      match ReadExponent(rest)
      case None => None
      case Some(exponent) => Some(Numeral(sign, whole, fraction, exponent))
  }

  function ParseFloat(s: string): Option<real> {
    match Read(s)
    case None => None
    case Some(n) => Some(n.Value())
  }

  lemma {:induction false} TakeDigitsIff(s: string, d: Digits, rest: string)
    ensures TakeDigits(s) == (d, rest) <==> s == d + rest && (rest != "" ==> !IsDigit(rest[0]))
  {
    if s == "" || !IsDigit(s[0]) {
      if d == "" {
        assert d + rest == rest;
      } else {
        assert (d + rest)[0] == d[0] && IsDigit(d[0]);
      }
    } else {
      assert s == [s[0]] + s[1..];
      if d != "" {
        TakeDigitsIff(s[1..], d[1..], rest);
        assert d == [d[0]] + d[1..];
        assert s == d + rest ==> s[0] == d[0] && s[1..] == d[1..] + rest;
      } else {
        assert s == d + rest ==> rest == s;
      }
    }
  }

  lemma TakeSignIff(s: string, sign: string, rest: string)
    requires rest == "" || (rest[0] != '+' && rest[0] != '-')
    ensures TakeSign(s) == (sign, rest) <==> IsSign(sign) && s == sign + rest
  {
    TakeSignParts(s);
    if sign == "" {
      assert sign + rest == rest;
    } else if IsSign(sign) {
      assert (sign + rest)[..1] == sign && (sign + rest)[1..] == rest;
    }
  }

  lemma TakeSignParts(s: string)
    ensures IsSign(TakeSign(s).0) && s == TakeSign(s).0 + TakeSign(s).1
  {}

  lemma TakeFractionIff(s: string, fraction: Option<Digits>, rest: string)
    requires rest == "" || (rest[0] != '.' && !IsDigit(rest[0]))
    ensures TakeFraction(s) == (fraction, rest) <==> s == FractionText(fraction) + rest
  {
    if fraction.None? {
      assert FractionText(fraction) + rest == rest;
    }
    if s != "" && s[0] == '.' {
      assert s == "." + s[1..];
      if fraction.Some? {
        TakeDigitsIff(s[1..], fraction.value, rest);
        assert s == FractionText(fraction) + rest <==> s[1..] == fraction.value + rest;
      }
    }
  }

  lemma ReadExponentIff(s: string, e: Option<Exponent>)
    ensures ReadExponent(s) == Some(e) <==> (e.Some? ==> e.value.Valid()) && s == ExponentText(e)
  {
    hide AllDigits;
    if s != "" && e.Some? {
      assert s == [s[0]] + s[1..];
      var x := e.value;
      assert s == x.Print() <==> s[0] == x.mark && s[1..] == x.sign + x.digits;
      if x.digits != "" {
        DigitIsNoSign(x.digits);
        TakeSignIff(s[1..], x.sign, x.digits);
      }
    }
  }

  lemma DigitIsNoSign(d: Digits)
    requires d != ""
    ensures d[0] != '+' && d[0] != '-' && d[0] != '.' && d[0] != 'e' && d[0] != 'E'
  {
    assert IsDigit(d[0]);
  }

  /** Reading inverts printing: the texts of numerals are read, each as the one numeral it
      spells, and no others. */
  lemma ReadIff(s: string, n: Numeral)
    ensures Read(s) == Some(n) <==> n.Valid() && n.Print() == s
  {
    hide Numeral.Valid, Numeral.Print, Read;
    if n.Valid() && n.Print() == s {
      ReadOfPrint(n);
    }
    if Read(s) == Some(n) {
      PrintOfRead(s, n);
    }
  }

  lemma ReadOfPrint(n: Numeral)
    requires n.Valid()
    ensures Read(n.Print()) == Some(n)
  {
    hide AllDigits, TakeSign, TakeDigits, TakeFraction, ReadExponent;
    var rest := ExponentText(n.exponent);
    var tail := FractionText(n.fraction) + rest;
    var body := n.whole + tail;
    ReadExponentIff(rest, n.exponent);
    TakeFractionIff(tail, n.fraction, rest);
    TakeDigitsIff(body, n.whole, tail);
    if n.whole != "" { DigitIsNoSign(n.whole); }
    TakeSignIff(n.Print(), n.sign, body);
  }

  lemma PrintOfRead(s: string, n: Numeral)
    requires Read(s) == Some(n)
    ensures n.Valid() && n.Print() == s
  {
    hide AllDigits, TakeSign, TakeDigits, TakeFraction, ReadExponent;
    var (sign, body) := TakeSign(s);
    var (whole, tail) := TakeDigits(body);
    var (fraction, rest) := TakeFraction(tail);
    TakeSignParts(s);
    TakeDigitsIff(body, whole, tail);
    ReadExponentIff(rest, n.exponent);
    TakeFractionIff(tail, fraction, rest);
  }

  // ----- what a numeral is worth -----

  lemma {:induction false} PowSum(a: nat, b: nat)
    ensures Pow10(a + b) == Pow10(a) * Pow10(b)
  {
    if a > 0 { PowSum(a - 1, b); }
  }

  lemma PowStep(k: nat)
    ensures Pow10(k + 1) == 10.0 * Pow10(k) && Pow10(0) == 1.0
  {}

  lemma DigitsStep(s: Digits, p: Digits, c: char)
    requires s == p + [c]
    ensures IsDigit(c) && DigitsValue(s) == DigitsValue(p) * 10 + DigitValue(c)
  {
    assert s[|s| - 1] == c && s[..|s| - 1] == p;
  }

  lemma NoDigits()
    ensures DigitsValue("") == 0
  {}

  lemma {:induction false} DigitsSum(a: Digits, b: Digits)
    ensures DigitsValue(a + b) as real == DigitsValue(a) as real * Pow10(|b|) + DigitsValue(b) as real
  {
    hide Pow10, DigitsValue, IsDigit;
    if b == "" {
      assert a + b == a;
      PowStep(0);
      NoDigits();
    } else {
      var p, c := b[..|b| - 1], b[|b| - 1];
      DigitsSum(a, p);
      assert b == p + [c] && a + b == a + p + [c];
      DigitsStep(b, p, c);
      DigitsStep(a + b, a + p, c);
      PowStep(|p|);
      OneMoreDigit(DigitsValue(a) as real, Pow10(|p|), DigitsValue(p) as real, DigitValue(c) as real);
    }
  }

  lemma OneMoreDigit(x: real, p: real, y: real, d: real)
    ensures (x * p + y) * 10.0 + d == x * (10.0 * p) + (y * 10.0 + d)
  {}

  lemma Cancel(y: real, p: real)
    requires p > 0.0
    ensures y * p / p == y
  {}

  lemma CancelBelow(x: real, q: real, p: real)
    requires p > 0.0 && q > 0.0
    ensures q * p > 0.0 && x / q == x * p / (q * p)
  {
    var y := x / q;
    assert y * q == x;
    assert y * (q * p) == x * p;
    Cancel(y, q * p);
  }

  lemma TwoQuotients(x: real, q: real, p: real)
    requires p > 0.0 && q > 0.0
    ensures q * p > 0.0 && x / (q * p) == x / q / p
  {
    var y := x / q / p;
    assert y * p == x / q;
    assert y * (q * p) == x;
    Cancel(y, q * p);
  }

  lemma Associate(x: real, q: real, p: real)
    ensures x * q * p == x * (q * p) && q * p == p * q && x * p * q == x * (q * p)
  {}

  lemma Shifts(x: real, k: nat)
    ensures Shift10(x, k) == x * Pow10(k) && (k > 0 ==> Shift10(x, 0 - k) == x / Pow10(k))
  {
    hide Pow10;
  }

  lemma DownFrom(x: real, low: real, p: real, high: real)
    requires p > 0.0 && high == low * p
    ensures x * low == x * high / p
  {
    Associate(x, low, p);
    Cancel(x * low, p);
  }

  lemma DownThrough(x: real, below: real, above: real, p: real)
    requires below > 0.0 && above > 0.0 && p == below * above
    ensures p > 0.0 && x / below == x * above / p
  {
    CancelBelow(x, below, above);
  }

  lemma DownBelow(x: real, above: real, p: real, below: real)
    requires above > 0.0 && p > 0.0 && below == above * p
    ensures below > 0.0 && x / below == x / above / p
  {
    TwoQuotients(x, above, p);
  }

  lemma ShiftDownFrom(x: real, d: nat, m: nat)
    ensures Shift10(x, d) == Shift10(x, d + m) / Pow10(m)
  {
    hide Pow10, Shift10;
    PowSum(d, m);
    DownFrom(x, Pow10(d), Pow10(m), Pow10(d + m));
    Shifts(x, d);
    Shifts(x, d + m);
  }

  lemma ShiftDownThrough(x: real, k: nat, m: nat)
    requires k < m
    ensures Shift10(x, k - m) == Shift10(x, k) / Pow10(m)
  {
    hide Pow10, Shift10;
    Shifts(x, m - k);
    Shifts(x, k);
    PowSum(m - k, k);
    DownThrough(x, Pow10(m - k), Pow10(k), Pow10(m));
  }

  lemma ShiftDownBelow(x: real, k: nat, m: nat)
    requires k > 0
    ensures Shift10(x, 0 - k - m) == Shift10(x, 0 - k) / Pow10(m)
  {
    hide Pow10, Shift10;
    Shifts(x, k + m);
    Shifts(x, k);
    PowSum(k, m);
    DownBelow(x, Pow10(k), Pow10(m), Pow10(k + m));
    assert 0 - (k + m) == 0 - k - m;
  }

  /** Moving the point m places is dividing by 10^m. */
  lemma ShiftDown(x: real, k: int, m: nat)
    ensures Shift10(x, k - m) == Shift10(x, k) / Pow10(m)
  {
    hide Pow10, Shift10;
    if k >= m {
      ShiftDownFrom(x, k - m, m);
    } else if k >= 0 {
      ShiftDownThrough(x, k, m);
    } else {
      ShiftDownBelow(x, 0 - k, m);
    }
  }

  lemma ShiftQuotient(x: real, k: int, p: real)
    requires p > 0.0
    ensures Shift10(x, k) / p == Shift10(x / p, k)
  {
    hide Pow10;
    var y := x / p;
    assert y * p == x;
    if k >= 0 {
      Associate(y, Pow10(k), p);
      Cancel(y * Pow10(k), p);
    } else {
      TwoQuotients(x, Pow10(-k), p);
      TwoQuotients(x, p, Pow10(-k));
      Associate(1.0, Pow10(-k), p);
    }
  }

  lemma SumQuotient(x: real, y: real, p: real)
    requires p > 0.0
    ensures (x * p + y) / p == x + y / p
  {
    Cancel(x + y / p, p);
    assert y / p * p == y;
    assert (x + y / p) * p == x * p + y;
  }

  /** Digits before and after the point, as one number and as two. */
  lemma PointBetween(whole: Digits, decimals: Digits, k: int)
    ensures Shift10(DigitsValue(whole + decimals) as real, k - |decimals|) ==
            Shift10(DigitsValue(whole) as real + DigitsValue(decimals) as real / Pow10(|decimals|), k)
  {
    hide Pow10, DigitsValue, Shift10;
    var p, x := Pow10(|decimals|), DigitsValue(whole + decimals) as real;
    DigitsSum(whole, decimals);
    ShiftDown(x, k, |decimals|);
    ShiftQuotient(x, k, p);
    SumQuotient(DigitsValue(whole) as real, DigitsValue(decimals) as real, p);
    assert x / p == DigitsValue(whole) as real + DigitsValue(decimals) as real / p;
  }

  lemma ShiftBy(x: real, k: nat)
    ensures Shift10(x, k) == x * Pow10(k) && Shift10(x, 0 - k) == x / Pow10(k)
  {
    hide Pow10, Shift10;
    Shifts(x, k);
    PowStep(0);
  }

  /** A numeral's value in plain terms: whole part plus fraction, times ten to the exponent, negated
      by a minus sign. */
  lemma ValueMeaning(n: Numeral)
    ensures var decimals := if n.fraction.Some? then n.fraction.value else "";
            var mantissa := DigitsValue(n.whole) as real + DigitsValue(decimals) as real / Pow10(|decimals|);
            var power: nat := if n.exponent.Some? then DigitsValue(n.exponent.value.digits) else 0;
            var size := if n.exponent.Some? && n.exponent.value.sign == "-"
                        then mantissa / Pow10(power) else mantissa * Pow10(power);
            n.Value() == if n.sign == "-" then -size else size
  {
    hide Pow10, DigitsValue, Shift10;
    var decimals := if n.fraction.Some? then n.fraction.value else "";
    var mantissa := DigitsValue(n.whole) as real + DigitsValue(decimals) as real / Pow10(|decimals|);
    PointBetween(n.whole, decimals, if n.exponent.Some? then n.exponent.value.Value() else 0);
    ShiftBy(mantissa, if n.exponent.Some? then DigitsValue(n.exponent.value.digits) else 0);
  }

  /** The multipliers: thousands, powers of 1024, and the one that divides. */
  lemma SuffixMeaning()
    ensures SUFFIXES.Keys == {"", "m", "k", "M", "G", "T", "P", "E", "Ki", "Mi", "Gi", "Ti", "Pi", "Ei"}
    ensures SUFFIXES[""] == 1.0 && SUFFIXES["m"] * 1_000.0 == 1.0 && SUFFIXES["k"] == 1_000.0
    ensures SUFFIXES["M"] == 1_000.0 * SUFFIXES["k"] && SUFFIXES["G"] == 1_000.0 * SUFFIXES["M"]
    ensures SUFFIXES["T"] == 1_000.0 * SUFFIXES["G"] && SUFFIXES["P"] == 1_000.0 * SUFFIXES["T"]
    ensures SUFFIXES["E"] == 1_000.0 * SUFFIXES["P"]
    ensures SUFFIXES["Ki"] == 1_024.0 && SUFFIXES["Mi"] == 1_024.0 * SUFFIXES["Ki"]
    ensures SUFFIXES["Gi"] == 1_024.0 * SUFFIXES["Mi"] && SUFFIXES["Ti"] == 1_024.0 * SUFFIXES["Gi"]
    ensures SUFFIXES["Pi"] == 1_024.0 * SUFFIXES["Ti"] && SUFFIXES["Ei"] == 1_024.0 * SUFFIXES["Pi"]
  {}

  // ----- quantities -----

  predicate IsDigitOrDot(c: char) { '0' <= c <= '9' || c == '.' }

  ghost predicate EndsInNumber(s: string) { s != "" && IsDigitOrDot(s[|s| - 1]) }

  lemma NumeralEnds(n: Numeral)
    requires n.Valid()
    ensures EndsInNumber(n.Print())
  {
    hide EndsInNumber, Exponent.Print;
    var Numeral(sign, whole, fraction, exponent) := n;
    if exponent.Some? {
      ExponentEnds(exponent.value);
      Ends(FractionText(fraction), exponent.value.Print());
      Ends(whole, FractionText(fraction) + exponent.value.Print());
    } else {
      assert FractionText(fraction) + ExponentText(exponent) == FractionText(fraction);
      if fraction.Some? {
        PointEnds(fraction.value);
        Ends(whole, FractionText(fraction));
      } else {
        DigitsEnd(whole);
        assert whole + FractionText(fraction) == whole;
      }
    }
    Ends(sign, whole + (FractionText(fraction) + ExponentText(exponent)));
  }

  lemma Ends(a: string, b: string)
    requires EndsInNumber(b)
    ensures EndsInNumber(a + b)
  {
    assert (a + b)[|a + b| - 1] == b[|b| - 1];
  }

  lemma DigitsEnd(d: Digits)
    requires d != ""
    ensures EndsInNumber(d)
  {
    assert IsDigit(d[|d| - 1]);
  }

  lemma PointEnds(d: Digits)
    ensures EndsInNumber("." + d)
  {
    if d == "" {
      assert "." + d == ".";
    } else {
      DigitsEnd(d);
      Ends(".", d);
    }
  }

  lemma ExponentEnds(e: Exponent)
    requires e.Valid()
    ensures EndsInNumber(e.Print())
  {
    DigitsEnd(e.digits);
    Ends(e.sign, e.digits);
    Ends([e.mark], e.sign + e.digits);
  }

  lemma SuffixLetters(suffix: string)
    requires suffix in SUFFIXES
    ensures |suffix| <= 2 && forall i :: 0 <= i < |suffix| ==> !IsDigitOrDot(suffix[i])
  {}

  lemma CutNotLater(num: string, suffix: string, num': string, suffix': string)
    requires num + suffix == num' + suffix'
    requires EndsInNumber(num') && suffix in SUFFIXES
    ensures |num'| <= |num|
  {
    SuffixLetters(suffix);
    hide SUFFIXES, IsDigitOrDot;
    var s, k := num + suffix, |num'| - 1;
    assert s[k] == num'[k];
    assert forall i :: |num| <= i < |s| ==> s[i] == suffix[i - |num|];
  }

  /** The cut between number and suffix is forced. */
  lemma CutIsUnique(s: string, num: string, suffix: string, num': string, suffix': string)
    requires s == num + suffix == num' + suffix'
    requires EndsInNumber(num) && suffix in SUFFIXES && EndsInNumber(num') && suffix' in SUFFIXES
    ensures num == num' && suffix == suffix'
  {
    hide *;
    CutNotLater(num, suffix, num', suffix');
    CutNotLater(num', suffix', num, suffix);
    assert num == s[..|num|] == num';
    assert suffix == s[|num|..] == suffix';
  }

  /** No text is two quantities: "Mi" is never "M", and no exponent digit starts a suffix. */
  lemma QuantityIsUnambiguous(n: Numeral, suffix: string, n': Numeral, suffix': string)
    requires n.Valid() && suffix in SUFFIXES && n'.Valid() && suffix' in SUFFIXES
    requires n.Print() + suffix == n'.Print() + suffix'
    ensures n == n' && suffix == suffix'
  {
    hide *;
    NumeralEnds(n);
    NumeralEnds(n');
    CutIsUnique(n.Print() + suffix, n.Print(), suffix, n'.Print(), suffix');
    ReadIff(n.Print(), n);
    ReadIff(n.Print(), n');
  }

  ghost predicate Spells(s: string, n: Numeral, suffix: string) {
    n.Valid() && suffix in SUFFIXES && s == n.Print() + suffix
  }

  /** s is a numeral followed by a known suffix, worth v. */
  ghost predicate IsQuantity(s: string, v: real) {
    exists n: Numeral, suffix :: Spells(s, n, suffix) && v == n.Value() * SUFFIXES[suffix]
  }

  /** A cut of s the suffix search would accept, at a suffix of this length. */
  ghost predicate CutAt(s: string, n: nat) {
    0 < n < |s| && s[|s| - n..] in SUFFIXES && IsDigitOrDot(s[|s| - n - 1])
  }

  method ParseQuantity(s: string) returns (r: Option<real>)
    ensures forall v :: r == Some(v) <==> IsQuantity(s, v)
  {
    hide IsQuantity, SUFFIXES, ParseFloat, IsDigitOrDot;
    if s == "" {
      EmptyIsNoQuantity();
      return None;
    }
    var num, suffix := s, "";
    var lengths := [2, 1];
    for i := 0 to |lengths|
      invariant num == s && suffix == ""
      invariant i > 0 ==> !CutAt(s, 2)
      invariant i > 1 ==> !CutAt(s, 1)
    {
      var n := lengths[i];
      if |s| <= n {
        continue;
      }
      var cand := s[|s| - n..];
      if cand in SUFFIXES {
        var head := s[..|s| - n];
        if head != "" && IsDigitOrDot(head[|head| - 1]) {
          num, suffix := head, cand;
          break;
        }
      }
    }
    if suffix == "" {
      PlainQuantity(s);
    } else {
      assert s == num + suffix;
      SuffixedQuantity(s, num, suffix);
    }
    var v := ParseFloat(num);
    if v.None? {
      return None;
    }
    var product := v.value * SUFFIXES[suffix];
    assert forall x :: IsQuantity(s, x) <==> x == product;
    r := Some(product);
    assert r.value == product;
  }

  lemma EmptySuffix()
    ensures "" in SUFFIXES
  {}

  lemma EmptyIsNoQuantity()
    ensures forall v :: !IsQuantity("", v)
  {
    hide Numeral.Value;
  }

  /** With the cut fixed, all that is left is reading the number. */
  lemma SuffixedQuantity(s: string, num: string, suffix: string)
    requires s == num + suffix && EndsInNumber(num) && suffix in SUFFIXES
    ensures forall v :: IsQuantity(s, v) <==> ParseFloat(num).Some? && v == ParseFloat(num).value * SUFFIXES[suffix]
  {
    hide SUFFIXES, Read, Numeral.Valid, Numeral.Print, Numeral.Value, EndsInNumber;
    forall v ensures IsQuantity(s, v) <==> ParseFloat(num).Some? && v == ParseFloat(num).value * SUFFIXES[suffix] {
      if IsQuantity(s, v) {
        var n: Numeral, suffix' :| Spells(s, n, suffix') && v == n.Value() * SUFFIXES[suffix'];
        NumeralEnds(n);
        CutIsUnique(s, num, suffix, n.Print(), suffix');
        ReadIff(num, n);
      }
      if Read(num).Some? {
        ReadIff(num, Read(num).value);
        assert Spells(s, Read(num).value, suffix);
      }
    }
  }

  lemma PlainQuantity(s: string)
    requires s != "" && !CutAt(s, 2) && !CutAt(s, 1)
    ensures "" in SUFFIXES
    ensures forall v :: IsQuantity(s, v) <==> ParseFloat(s).Some? && v == ParseFloat(s).value * SUFFIXES[""]
  {
    EmptySuffix();
    hide SUFFIXES, IsQuantity, ParseFloat;
    if EndsInNumber(s) {
      assert s + "" == s;
      SuffixedQuantity(s, s, "");
    } else {
      NoNumberNoQuantity(s);
    }
  }

  lemma NoNumberNoQuantity(s: string)
    requires s != "" && !CutAt(s, 2) && !CutAt(s, 1) && !EndsInNumber(s)
    ensures ParseFloat(s).None? && forall v :: !IsQuantity(s, v)
  {
    hide SUFFIXES, Read, Numeral.Valid, Numeral.Print, Numeral.Value, IsDigitOrDot;
    forall v ensures !IsQuantity(s, v) {
      if IsQuantity(s, v) {
        var n: Numeral, suffix :| Spells(s, n, suffix) && v == n.Value() * SUFFIXES[suffix];
        CutFound(n, suffix);
      }
    }
    if Read(s).Some? {
      ReadIff(s, Read(s).value);
      NumeralEnds(Read(s).value);
    }
  }

  lemma CutFound(n: Numeral, suffix: string)
    requires n.Valid() && suffix in SUFFIXES
    ensures var s := n.Print() + suffix; EndsInNumber(s) || CutAt(s, 1) || CutAt(s, 2)
  {
    NumeralEnds(n);
    SuffixLetters(suffix);
    hide SUFFIXES, Numeral.Valid, Numeral.Print, IsDigitOrDot;
    var s := n.Print() + suffix;
    assert s[|s| - |suffix|..] == suffix;
    if suffix == "" {
      assert s == n.Print();
    } else {
      assert CutAt(s, |suffix|);
    }
  }
}
