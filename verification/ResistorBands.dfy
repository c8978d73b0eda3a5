/** Resistor colour bands by the colour code of IEC 60062, over the reals. */
module ResistorBands {
  import opened Common

  const EPSILON := 0.000000001
  const LOWEST := -2
  const HIGHEST := 9
  /** Up to this many significant figures the tolerance cannot blur two exponents. */
  const MOST_FIGURES := 8

  function Pow10(n: nat): (p: nat)
    ensures p >= 1
  {
    if n == 0 then 1 else 10 * Pow10(n - 1)
  }

  /** `x` times ten to the `exp`. */
  function Shift(x: real, exp: int): real
    decreases if exp < 0 then -exp else exp
  {
    if exp == 0 then x
    else if exp > 0 then 10.0 * Shift(x, exp - 1)
    else Shift(x, exp + 1) / 10.0
  }

  function Abs(x: real): real { if x < 0.0 then -x else x }

  function Max(x: real, y: real): real { if x < y then y else x }

  /** The nearest integer, halves away from zero. */
  function Round(x: real): int {
    if x >= 0.0 then (x + 0.5).Floor else -(-x + 0.5).Floor
  }

  /** How far from `y` is close enough: the tolerance of the encoder, or none at all when `exact`. */
  function Slack(exact: bool, y: real): real { if exact then 0.0 else EPSILON * Max(1.0, Abs(y)) }

  predicate Close(x: real, y: real, exact: bool) { Abs(x - y) <= Slack(exact, y) }

  predicate InRange(n: int, figures: nat)
    requires figures > 0
  {
    Pow10(figures - 1) <= n <= Pow10(figures) - 1
  }

  /** `n` times ten to the `exp` stands for `ohms`, within the tolerance. */
  predicate Represents(ohms: real, figures: nat, exp: int, n: int, exact: bool)
    requires figures > 0
  {
    && LOWEST <= exp <= HIGHEST
    && InRange(n, figures)
    && Close(n as real, Shift(ohms, -exp), exact)
    && Close(Shift(n as real, exp), ohms, exact)
  }

  ghost predicate Representable(ohms: real, figures: nat, exact: bool)
    requires figures > 0
  {
    exists exp: int, n: int :: Represents(ohms, figures, exp, n, exact)
  }

  // Digits

  function DigitsOf(n: nat, figures: nat): (ds: seq<int>)
    ensures |ds| == figures
  {
    if figures == 0 then [] else DigitsOf(n / 10, figures - 1) + [n % 10]
  }

  function Value(ds: seq<int>): int {
    if ds == [] then 0 else 10 * Value(ds[..|ds| - 1]) + ds[|ds| - 1]
  }

  predicate Digits(ds: seq<int>) { forall i :: 0 <= i < |ds| ==> 0 <= ds[i] <= 9 }

  lemma {:induction false} DigitsRead(n: nat, figures: nat)
    requires n < Pow10(figures)
    ensures Digits(DigitsOf(n, figures)) && Value(DigitsOf(n, figures)) == n
    ensures figures > 0 && n >= Pow10(figures - 1) ==> DigitsOf(n, figures)[0] != 0
  {
    if figures > 0 {
      TenthFits(n, figures);
      DigitsRead(n / 10, figures - 1);
      DigitAppended(DigitsOf(n / 10, figures - 1), n % 10);
    }
  }

  lemma TenthFits(n: nat, figures: nat)
    requires figures > 0
    ensures n / 10 < Pow10(figures - 1) <==> n < Pow10(figures)
    ensures figures > 1 && n >= Pow10(figures - 1) ==> n / 10 >= Pow10(figures - 2)
  {
  }

  lemma DigitAppended(front: seq<int>, digit: int)
    requires Digits(front) && 0 <= digit <= 9
    ensures Digits(front + [digit]) && Value(front + [digit]) == 10 * Value(front) + digit
  {
    assert (front + [digit])[..|front|] == front;
  }

  lemma {:induction false} DigitsWritten(ds: seq<int>)
    requires Digits(ds)
    ensures 0 <= Value(ds) < Pow10(|ds|) && DigitsOf(Value(ds), |ds|) == ds
    ensures ds != [] && ds[0] != 0 ==> InRange(Value(ds), |ds|)
  {
    if ds != [] {
      var front, last := ds[..|ds| - 1], ds[|ds| - 1];
      DigitsWritten(front);
      assert Value(ds) / 10 == Value(front) && Value(ds) % 10 == last;
      assert ds == front + [last];
    }
  }

  // Shifting

  lemma {:induction false} ShiftIsProduct(x: real, exp: int)
    ensures Shift(x, exp) == x * Shift(1.0, exp)
    decreases if exp < 0 then -exp else exp
  {
    if exp > 0 {
      ShiftIsProduct(x, exp - 1);
      assert 10.0 * (x * Shift(1.0, exp - 1)) == x * (10.0 * Shift(1.0, exp - 1));
    } else if exp < 0 {
      ShiftIsProduct(x, exp + 1);
      assert x * Shift(1.0, exp + 1) / 10.0 == x * (Shift(1.0, exp + 1) / 10.0);
    }
  }

  lemma {:induction false} ShiftStep(x: real, exp: int)
    ensures Shift(x, exp + 1) == 10.0 * Shift(x, exp) == Shift(10.0 * x, exp)
    decreases if exp < 0 then -exp else exp
  {
    if exp > 0 {
      ShiftStep(x, exp - 1);
    } else if exp < 0 {
      ShiftStep(x, exp + 1);
    }
  }

  lemma {:induction false} ShiftBack(x: real, exp: int)
    ensures Shift(Shift(x, exp), -exp) == x
    decreases if exp < 0 then -exp else exp
  {
    if exp > 0 {
      ShiftBack(x, exp - 1);
      ShiftStep(Shift(x, exp - 1), -exp);
    } else if exp < 0 {
      ShiftBack(x, exp + 1);
      ShiftStep(Shift(x, exp), -exp - 1);
    }
  }

  lemma {:induction false} ShiftKeepsOrder(x: real, y: real, exp: int)
    requires x <= y
    ensures Shift(x, exp) <= Shift(y, exp) && Shift(y, exp) - Shift(x, exp) == Shift(y - x, exp)
    decreases if exp < 0 then -exp else exp
  {
    if exp > 0 {
      ShiftKeepsOrder(x, y, exp - 1);
    } else if exp < 0 {
      ShiftKeepsOrder(x, y, exp + 1);
    }
  }

  lemma {:induction false} ShiftGrows(x: real, low: int, high: int)
    requires x > 0.0 && low <= high
    ensures 0.0 < Shift(x, low) <= Shift(x, high)
    decreases high - low, if low < 0 then -low else low
  {
    if low < high {
      ShiftGrows(x, low, high - 1);
      ShiftStep(x, high - 1);
    } else if low > 0 {
      ShiftGrows(x, low - 1, low - 1);
    } else if low < 0 {
      ShiftGrows(x, low + 1, low + 1);
    }
  }

  lemma {:induction false} ShiftOfMost(exp: int)
    ensures Shift(100_000_000.0, exp) == 100_000_000.0 * Shift(1.0, exp)
    decreases if exp < 0 then -exp else exp
  {
    if exp > 0 {
      ShiftOfMost(exp - 1);
    } else if exp < 0 {
      ShiftOfMost(exp + 1);
    }
  }

  lemma UnitIsNotTiny(exp: int)
    requires LOWEST <= exp
    ensures Shift(1.0, exp) >= 0.01
  {
    assert Shift(1.0, -1) == Shift(1.0, 0) / 10.0;
    ShiftGrows(1.0, LOWEST, exp);
  }

  lemma {:induction false} FiguresAreFew(figures: nat)
    requires figures <= MOST_FIGURES
    ensures Pow10(figures) <= 100_000_000
    decreases MOST_FIGURES - figures
  {
    if figures < MOST_FIGURES {
      FiguresAreFew(figures + 1);
    } else {
      assert Pow10(4) == 10_000;
      assert Pow10(8) == 10_000 * Pow10(4);
    }
  }

  // At most one exponent

  /** The core: `low` and `high` are the two decoded values, `p` the unit of the lower exponent. */
  lemma TooFarApart(ohms: real, p: real, low: real, high: real, top: real, exact: bool)
    requires p >= 0.01 && top <= 100_000_000.0 * p && 0.0 < low <= top - p && high >= top
    requires Close(low, ohms, exact)
    ensures !Close(high, ohms, exact)
  {}

  lemma ExponentsDiffer(ohms: real, figures: nat, low: int, n: int, high: int, m: int, exact: bool)
    requires 0 < figures <= MOST_FIGURES && low < high && LOWEST <= low && InRange(n, figures) && InRange(m, figures)
    requires Close(Shift(n as real, low), ohms, exact)
    ensures !Close(Shift(m as real, high), ohms, exact)
  {
    var p, lead, full := Shift(1.0, low), Pow10(figures - 1) as real, Pow10(figures) as real;
    UnitIsNotTiny(low);
    FiguresAreFew(figures);
    ShiftOfMost(low);
    ShiftKeepsOrder(full, 100_000_000.0, low);
    ShiftKeepsOrder(full - 1.0, full, low);
    ShiftKeepsOrder(n as real, full - 1.0, low);
    ShiftGrows(n as real, low, low);
    ShiftStep(lead, low);
    ShiftGrows(lead, low + 1, high);
    ShiftKeepsOrder(lead, m as real, high);
    TooFarApart(ohms, p, Shift(n as real, low), Shift(m as real, high), Shift(full, low), exact);
  }

  /** A whole number up to 10^8 that is close to `m` is the nearest one. */
  lemma CloseIsNearest(n: int, m: real, exact: bool)
    requires 1 <= n <= 100_000_000 && Close(n as real, m, exact)
    ensures n == Round(m)
  {
    assert Abs(n as real - m) < 0.5;
  }

  lemma OneMantissa(ohms: real, figures: nat, exp: int, n: int, exact: bool)
    requires 0 < figures <= MOST_FIGURES && Represents(ohms, figures, exp, n, exact)
    ensures n == Round(Shift(ohms, -exp))
  {
    FiguresAreFew(figures);
    CloseIsNearest(n, Shift(ohms, -exp), exact);
  }

  /** A resistance has at most one representation, so the order in which exponents are tried is irrelevant. */
  lemma RepresentationIsUnique(ohms: real, figures: nat, exp: int, n: int, exp': int, n': int, exact: bool)
    requires 0 < figures <= MOST_FIGURES
    requires Represents(ohms, figures, exp, n, exact) && Represents(ohms, figures, exp', n', exact)
    ensures exp == exp' && n == n'
  {
    if exp < exp' {
      ExponentsDiffer(ohms, figures, exp, n, exp', n', exact);
    } else if exp' < exp {
      ExponentsDiffer(ohms, figures, exp', n', exp, n, exact);
    } else {
      OneMantissa(ohms, figures, exp, n, exact);
      OneMantissa(ohms, figures, exp, n', exact);
    }
  }

  /** A value on the grid is represented by itself, with tolerance or without. */
  lemma GridIsRepresented(figures: nat, exp: int, n: int, exact: bool)
    requires figures > 0 && -2 <= exp <= 9 && InRange(n, figures)
    ensures Represents(Shift(n as real, exp), figures, exp, n, exact)
  {
    ShiftBack(n as real, exp);
  }

  ghost predicate OnGrid(ohms: real, figures: nat)
    requires figures > 0
  {
    exists exp: int, n: int :: GridPoint(ohms, figures, exp, n)
  }

  predicate GridPoint(ohms: real, figures: nat, exp: int, n: int)
    requires figures > 0
  {
    -2 <= exp <= 9 && Pow10(figures - 1) <= n < Pow10(figures) && ohms == Shift(n as real, exp)
  }

  /** With no tolerance exactly the values on the grid have a representation. */
  lemma OnlyGridIsExact(ohms: real, figures: nat)
    requires figures > 0
    ensures Representable(ohms, figures, true) <==> OnGrid(ohms, figures)
  {
    if exp: int, n: int :| Represents(ohms, figures, exp, n, true) {
      assert GridPoint(ohms, figures, exp, n);
    }
    if exp: int, n: int :| GridPoint(ohms, figures, exp, n) {
      GridIsRepresented(figures, exp, n, true);
    }
  }

  /** Shifting is multiplying by a power of ten. */
  lemma {:induction false} UnitIsPower(n: nat)
    ensures Shift(1.0, n) == Pow10(n) as real && Shift(1.0, 0 - (n as int)) == 1.0 / Pow10(n) as real
  {
    if n > 0 {
      UnitIsPower(n - 1);
    }
  }

  /** A representation is a whole number of the right number of digits and an exponent from -2 to 9 whose value
      lies within a billionth of the resistance, or of an ohm if that is more. */
  lemma RepresentationIsNear(ohms: real, figures: nat, exp: int, n: int)
    requires figures > 0 && Represents(ohms, figures, exp, n, false)
    ensures -2 <= exp <= 9 && Pow10(figures - 1) <= n < Pow10(figures)
    ensures var value := n as real * Shift(1.0, exp);
            && value - ohms <= 0.000000001 * (if ohms > 1.0 then ohms else if -ohms > 1.0 then -ohms else 1.0)
            && ohms - value <= 0.000000001 * (if ohms > 1.0 then ohms else if -ohms > 1.0 then -ohms else 1.0)
  {
    ShiftIsProduct(n as real, exp);
  }

  /** Rounding is never more than a half away, and where it is, it goes away from zero. */
  lemma RoundIsNearest(x: real)
    ensures Abs(x - Round(x) as real) <= 0.5
    ensures Abs(x - Round(x) as real) == 0.5 ==> Abs(Round(x) as real) > Abs(x)
  {
  }

  // The encoder

  datatype Encoding = Encoding(digits: seq<int>, exp: int)

  method FillDigits(rounded: nat, figures: nat) returns (digits: array<int>)
    ensures fresh(digits) && digits[..] == DigitsOf(rounded, figures)
  {
    digits := new int[figures];
    var remaining := rounded;
    var i := figures;
    assert DigitsOf(remaining, i) + digits[i..] == DigitsOf(rounded, figures);
    while i > 0
      invariant 0 <= i <= figures && remaining >= 0
      invariant DigitsOf(remaining, i) + digits[i..] == DigitsOf(rounded, figures)
    {
      i := i - 1;
      ghost var written := digits[i + 1..];
      digits[i] := remaining % 10;
      assert digits[i..] == [remaining % 10] + written;
      remaining := remaining / 10;
    }
    assert digits[..] == digits[0..];
  }

  predicate Passes(ohms: real, figures: nat, exp: int, exact: bool)
    requires figures > 0
  {
    Represents(ohms, figures, exp, Round(Shift(ohms, -exp)), exact)
  }

  /** The digits, of which the first is not zero, and the exponent stand for `ohms`. */
  predicate Encodes(e: Encoding, ohms: real, figures: nat, exact: bool)
    requires figures > 0
  {
    && Digits(e.digits) && |e.digits| == figures && e.digits[0] != 0
    && Represents(ohms, figures, e.exp, Value(e.digits), exact)
  }

  lemma RoundedEncodes(ohms: real, figures: nat, exp: int, exact: bool)
    requires figures > 0 && Passes(ohms, figures, exp, exact)
    ensures Encodes(Encoding(DigitsOf(Round(Shift(ohms, -exp)), figures), exp), ohms, figures, exact)
    ensures Representable(ohms, figures, exact)
  {
    DigitsRead(Round(Shift(ohms, -exp)), figures);
  }

  method EncodeResistorBands(ohms: real, bandCount: nat, exact: bool) returns (r: Option<Encoding>)
    requires 2 < bandCount <= MOST_FIGURES + 2
    ensures r.Some? ==> Encodes(r.value, ohms, bandCount - 2, exact)
    ensures r.Some? <==> Representable(ohms, bandCount - 2, exact)
  {
    var sigFigs := bandCount - 2;
    for exp := LOWEST to HIGHEST + 1
      invariant forall e: int :: LOWEST <= e < exp ==> !Passes(ohms, sigFigs, e, exact)
    {
      var mantissa := Shift(ohms, -exp);
      var rounded := Round(mantissa);
      ThreeTests(ohms, sigFigs, exp, mantissa, rounded, exact);
      if !Close(rounded as real, mantissa, exact) {
        continue;
      }
      var lower := Pow10(sigFigs - 1);
      var upper := Pow10(sigFigs) - 1;
      if rounded < lower || rounded > upper {
        continue;
      }
      var reconstructed := Shift(rounded as real, exp);
      if !Close(reconstructed, ohms, exact) {
        continue;
      }
      RoundedEncodes(ohms, sigFigs, exp, exact);
      assert rounded >= 1;
      var digits := FillDigits(rounded, sigFigs);
      return Some(Encoding(digits[..], exp));
    }
    NothingPasses(ohms, sigFigs, exact);
    return None;
  }

  lemma ThreeTests(ohms: real, figures: nat, exp: int, mantissa: real, rounded: int, exact: bool)
    requires figures > 0 && LOWEST <= exp <= HIGHEST && mantissa == Shift(ohms, -exp) && rounded == Round(mantissa)
    ensures Passes(ohms, figures, exp, exact)
            <==> && Close(rounded as real, mantissa, exact)
                 && InRange(rounded, figures)
                 && Close(Shift(rounded as real, exp), ohms, exact)
  {
  }

  lemma NothingPasses(ohms: real, figures: nat, exact: bool)
    requires 0 < figures <= MOST_FIGURES
    requires forall e: int :: LOWEST <= e <= HIGHEST ==> !Passes(ohms, figures, e, exact)
    ensures !Representable(ohms, figures, exact)
  {
    if exp: int, n: int :| Represents(ohms, figures, exp, n, exact) {
      OneMantissa(ohms, figures, exp, n, exact);
      assert Passes(ohms, figures, exp, exact);
    }
  }

  // Colours

  datatype Color = Black | Brown | Red | Orange | Yellow | Green | Blue | Violet | Grey | White | Gold | Silver

  const DIGIT_COLORS := [Black, Brown, Red, Orange, Yellow, Green, Blue, Violet, Grey, White]

  const TOLERANCE_COLORS: seq<(string, Color)> :=
    [("0.05%", Grey), ("0.1%", Violet), ("0.25%", Blue), ("0.5%", Green), ("1%", Brown), ("2%", Red), ("5%", Gold), ("10%", Silver)]

  function MultiplierColor(exp: int): Color {
    if exp == -1 then Gold
    else if exp == -2 then Silver
    else if 0 <= exp <= 9 then DIGIT_COLORS[exp]
    else DIGIT_COLORS[0]
  }

  /** The colour of a tolerance label: the first entry that has it. */
  method ToleranceColorByLabel(mark: string) returns (r: Option<Color>)
    ensures r.Some? <==> Labelled(mark)
    ensures r.Some? ==> (mark, r.value) in TOLERANCE_COLORS
  {
    for i := 0 to |TOLERANCE_COLORS|
      invariant forall j :: 0 <= j < i ==> TOLERANCE_COLORS[j].0 != mark
    {
      if TOLERANCE_COLORS[i].0 == mark {
        assert TOLERANCE_COLORS[i] == (mark, TOLERANCE_COLORS[i].1);
        return Some(TOLERANCE_COLORS[i].1);
      }
    }
    return None;
  }

  function DigitColors(ds: seq<int>): seq<Color>
    requires Digits(ds)
  {
    seq(|ds|, i requires 0 <= i < |ds| => DIGIT_COLORS[ds[i]])
  }

  /** The bands as they are drawn: the digits, the multiplier, the tolerance. */
  function Bands(e: Encoding, tolerance: Color): seq<Color>
    requires Digits(e.digits)
  {
    DigitColors(e.digits) + [MultiplierColor(e.exp), tolerance]
  }

  predicate Labelled(mark: string) { exists entry <- TOLERANCE_COLORS :: entry.0 == mark }

  /** The bands drawn for `e` and the tolerance label. */
  ghost predicate Drawn(bands: seq<Color>, e: Encoding, mark: string) {
    exists tolerance: Color :: Digits(e.digits) && (mark, tolerance) in TOLERANCE_COLORS && bands == Bands(e, tolerance)
  }

  method AppendColors(e: Encoding, tolerance: Color) returns (bands: seq<Color>)
    requires Digits(e.digits)
    ensures bands == Bands(e, tolerance)
  {
    bands := [];
    for i := 0 to |e.digits|
      invariant |bands| == i && forall j :: 0 <= j < i ==> bands[j] == DIGIT_COLORS[e.digits[j]]
    {
      bands := bands + [DIGIT_COLORS[e.digits[i]]];
    }
    assert bands == DigitColors(e.digits);
    bands := bands + [MultiplierColor(e.exp)] + [tolerance];
  }

  /** The bands of a resistor, when its parameters are supported and its value is representable.  `restOk` says
      that the parameters of the drawing (power rating, size, aspect, type and body colour) are supported. */
  method RenderedBands(ohms: real, bandCount: int, mark: string, restOk: bool) returns (r: Option<seq<Color>>)
    ensures r.Some? <==> bandCount in {0, 4, 5} && ohms > 0.0 && Labelled(mark)
                         && Representable(ohms, if bandCount == 5 then 3 else 2, false) && restOk
    ensures r.Some? ==> exists e: Encoding ::
                          Encodes(e, ohms, if bandCount == 5 then 3 else 2, false) && Drawn(r.value, e, mark)
  {
    var count := if bandCount == 0 then 4 else bandCount;
    if count != 4 && count != 5 {
      return None;
    }
    if !(ohms > 0.0) {
      return None;
    }
    var tolerance := ToleranceColorByLabel(mark);
    if tolerance.None? {
      return None;
    }
    var encoding := EncodeResistorBands(ohms, count, false);
    if encoding.None? {
      return None;
    }
    if !restOk {
      return None;
    }
    var bands := AppendColors(encoding.value, tolerance.value);
    assert Encodes(encoding.value, ohms, if bandCount == 5 then 3 else 2, false) && Drawn(bands, encoding.value, mark);
    return Some(bands);
  }

  // Reading the bands back

  function DigitOf(c: Color): int {
    match c
    case Black => 0 case Brown => 1 case Red => 2 case Orange => 3 case Yellow => 4
    case Green => 5 case Blue => 6 case Violet => 7 case Grey => 8 case White => 9
    case Gold => -1 case Silver => -2
  }

  function ReadBands(bands: seq<Color>): Encoding
    requires |bands| >= 2
  {
    var front := bands[..|bands| - 2];
    Encoding(seq(|front|, i requires 0 <= i < |front| => DigitOf(front[i])), DigitOf(bands[|bands| - 2]))
  }

  /** Different digits or exponents give different bands: the bands can be read back. */
  lemma BandsAreReadBack(e: Encoding, tolerance: Color)
    requires Digits(e.digits) && LOWEST <= e.exp <= HIGHEST
    ensures ReadBands(Bands(e, tolerance)) == e
    ensures Bands(e, tolerance)[|e.digits| + 1] == tolerance
  {
    var bands := Bands(e, tolerance);
    assert bands[..|bands| - 2] == DigitColors(e.digits);
    assert DigitOf(MultiplierColor(e.exp)) == e.exp;
    forall i | 0 <= i < |e.digits| ensures DigitOf(DigitColors(e.digits)[i]) == e.digits[i] {
      var d := e.digits[i];
      assert DigitOf(DIGIT_COLORS[d]) == d;
    }
  }

  /** The tolerance that a colour stands for, in hundredths of a percent. */
  function HundredthsOf(c: Color): nat {
    match c
    case Grey => 5 case Violet => 10 case Blue => 25 case Green => 50
    case Brown => 100 case Red => 200 case Gold => 500 case Silver => 1000
    case _ => 0
  }

  /** Every supported tolerance is drawn in the colour that stands for it. */
  lemma TolerancesAreDrawn()
    ensures forall entry <- TOLERANCE_COLORS ::
              entry.0 == match HundredthsOf(entry.1)
                         case 5 => "0.05%" case 10 => "0.1%" case 25 => "0.25%" case 50 => "0.5%"
                         case 100 => "1%" case 200 => "2%" case 500 => "5%" case _ => "10%"
    ensures |TOLERANCE_COLORS| == 8
  {
  }

  /** A tolerance label has one colour, and a colour one label. */
  lemma ToleranceIsReadBack(a: (string, Color), b: (string, Color))
    requires a in TOLERANCE_COLORS && b in TOLERANCE_COLORS
    ensures a.0 == b.0 <==> a.1 == b.1
  {
    assert |"0.05%"| == 5 && |"0.25%"| == 5 && |"0.1%"| == 4 && |"0.5%"| == 4 && |"10%"| == 3;
  }
}
