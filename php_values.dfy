/** The PHP value semantics the item store depends on: empty(), the (int) and
    (float) casts, number_format(..., 2, '.', ''), conversion to string and
    loose == between an int and another value (PHP 8 rules). */
module PhpValues {
  import opened PhpStrings

  /** An exact decimal number, units / 10^scale.  Floats are modelled by the
      decimal they were written as; binary rounding is not modelled. */
  datatype Decimal = Decimal(units: int, scale: nat)

  function Pow10(n: nat): (p: nat)
    ensures p >= 1
  {
    if n == 0 then 1 else 10 * Pow10(n - 1)
  }

  /** A scalar as json_decode($body, true) or $_GET delivers it; Absent is a
      key that is not there at all. */
  datatype Raw =
    | Absent
    | Null
    | Bool(b: bool)
    | Int(i: int)
    | Float(d: Decimal)
    | Str(s: string)

  /** empty($v): the key is missing, or the value is null, false, 0, 0.0, "" or "0".
      It is also the meaning of !$v. */
  predicate IsEmpty(v: Raw) {
    match v
    case Absent => true
    case Null => true
    case Bool(b) => !b
    case Int(i) => i == 0
    case Float(d) => d.units == 0
    case Str(s) => s == "" || s == "0"
  }

  /** The leading numeric part of a string: its value, how many digits it has
      and how many characters it takes up. */
  datatype Scan = Scan(value: Decimal, digits: nat, used: nat)

  /** Reads an optional sign, then an unsigned number. */
  function ScanNumber(s: string): (r: Scan)
    ensures r.used <= |s|
    ensures r.digits == 0 ==> r.value.units == 0 && r.used == 0
  {
    var signLen := if |s| > 0 && (s[0] == '-' || s[0] == '+') then 1 else 0;
    var u := ScanUnsigned(s[signLen..]);
    Scan(Decimal(if signLen == 1 && s[0] == '-' then -u.value.units else u.value.units, u.value.scale),
         u.digits, if u.digits == 0 then 0 else signLen + u.used)
  }

  /** Reads digits, and an optional '.' followed by digits. */
  function ScanUnsigned(t: string): (r: Scan)
    ensures r.used <= |t| && r.value.units >= 0
    ensures r.digits == 0 ==> r.value.units == 0
  {
    var n := DigitRun(t);
    var whole := DigitsValue(t[..n]);
    if n < |t| && t[n] == '.' then ScanFraction(whole, n, t[n + 1..]) else Scan(Decimal(whole, 0), n, n)
  }

  /** Reads the digits after the point, given the value and length of those before it. */
  function ScanFraction(whole: nat, n: nat, f: string): (r: Scan)
    ensures r.used == n + 1 + DigitRun(f) && r.digits == n + DigitRun(f) && r.value.units >= 0
    ensures whole == 0 && r.digits == 0 ==> r.value.units == 0
  {
    var m := DigitRun(f);
    Scan(Decimal(whole * Pow10(m) + DigitsValue(f[..m]), m), n + m, n + 1 + m)
  }

  /** A numeric string: one that is a number and nothing else. */
  predicate IsNumeric(s: string) {
    var sc := ScanNumber(s);
    sc.digits > 0 && sc.used == |s|
  }

  /** (float)$v. */
  function ToFloat(v: Raw): Decimal {
    match v
    case Absent => Decimal(0, 0)
    case Null => Decimal(0, 0)
    case Bool(b) => Decimal(if b then 1 else 0, 0)
    case Int(i) => Decimal(i, 0)
    case Float(d) => d
    case Str(s) => ScanNumber(s).value
  }

  /** m / 10^k, by dropping k decimal digits. */
  function DropDigits(m: nat, k: nat): nat {
    if k == 0 then m else DropDigits(m / 10, k - 1)
  }

  /** A decimal cut towards zero to an integer. */
  function Truncate(d: Decimal): (r: int)
    ensures d.scale == 0 ==> r == d.units
  {
    if d.units >= 0 then DropDigits(d.units, d.scale) else -(DropDigits(-d.units, d.scale) as int)
  }

  /** (int)$v. */
  function ToInt(v: Raw): int {
    match v
    case Absent => 0
    case Null => 0
    case Bool(b) => if b then 1 else 0
    case Int(i) => i
    case Float(d) => Truncate(d)
    case Str(s) => Truncate(ScanNumber(s).value)
  }

  /** A decimal rounded to hundredths, halves away from zero, in cents: the
      digit after the hundredths decides. */
  function RoundCents(d: Decimal): (c: int)
    ensures d.scale == 2 ==> c == d.units
    ensures d.scale == 0 ==> c == 100 * d.units
  {
    if d.scale <= 2 then
      d.units * Pow10(2 - d.scale)
    else
      var magnitude := if d.units < 0 then -d.units else d.units;
      var thousandths := DropDigits(magnitude, d.scale - 3);
      var q := thousandths / 10 + (if thousandths % 10 >= 5 then 1 else 0);
      if d.units < 0 then -q else q
  }

  /** Text of the form [-]digits.dd, the shape number_format($x, 2, '.', '') produces. */
  predicate IsTwoDecimalText(s: string) {
    var body := if |s| > 0 && s[0] == '-' then s[1..] else s;
    |body| >= 4 && AllDigits(body[..|body| - 3]) && body[|body| - 3] == '.' &&
    IsDigit(body[|body| - 2]) && IsDigit(body[|body| - 1])
  }

  /** The two-digit text of a number below 100, with a leading zero if needed. */
  function TwoDigits(r: nat): (s: string)
    requires r < 100
    ensures |s| == 2 && AllDigits(s) && DigitsValue(s) == r
  {
    var s := [DigitChar(r / 10), DigitChar(r % 10)];
    assert s[..1] == [s[0]] && [s[0]][..0] == [];
    assert DigitsValue(s[..1]) == r / 10;
    s
  }

  /** number_format of an amount of cents with two decimals, '.' and no
      thousands separator; no negative zero is produced. */
  function FormatCents(c: int): (s: string)
    ensures IsTwoDecimalText(s)
    ensures (|s| > 0 && s[0] == '-') <==> c < 0
  {
    var magnitude := if c < 0 then -c else c;
    var whole := NatToDec(magnitude / 100);
    var fraction := TwoDigits(magnitude % 100);
    var body := whole + "." + fraction;
    assert body[..|body| - 3] == whole;
    if c < 0 then "-" + body else body
  }

  /** number_format((float)$v, 2, '.', ''): the text a price is stored as. */
  function NormalizePrice(v: Raw): string {
    FormatCents(RoundCents(ToFloat(v)))
  }

  /** Scanning a block of digits with nothing after it. */
  lemma ScanDigits(w: string)
    requires w != [] && AllDigits(w)
    ensures ScanUnsigned(w) == Scan(Decimal(DigitsValue(w), 0), |w|, |w|)
  {
    DigitRunOfBlock(w, "");
    assert w + "" == w;
  }

  /** Scanning digits, '.', digits. */
  lemma ScanDigitsPointDigits(w: string, f: string)
    requires w != [] && AllDigits(w) && AllDigits(f)
    ensures ScanUnsigned(w + "." + f) ==
      Scan(Decimal(DigitsValue(w) * Pow10(|f|) + DigitsValue(f), |f|), |w| + |f|, |w| + 1 + |f|)
  {
    var t := w + "." + f;
    assert t == w + ("." + f);
    DigitRunOfBlock(w, "." + f);
    assert t[..DigitRun(t)] == w;
    assert t[|w|] == '.';
    assert t[|w| + 1..] == f;
    assert ScanUnsigned(t) == ScanFraction(DigitsValue(w), |w|, f);
    ScanAllFraction(DigitsValue(w), |w|, f);
  }

  lemma ScanAllFraction(whole: nat, n: nat, f: string)
    requires AllDigits(f)
    ensures ScanFraction(whole, n, f) == Scan(Decimal(whole * Pow10(|f|) + DigitsValue(f), |f|), n + |f|, n + 1 + |f|)
  {
    DigitRunOfBlock(f, "");
    assert f + "" == f;
    assert f[..DigitRun(f)] == f;
  }

  /** A leading minus sign negates what follows; no sign leaves it as it is. */
  lemma ScanSigned(sign: string, t: string)
    requires sign == "" || sign == "-"
    requires t != [] && IsDigit(t[0])
    ensures var u := ScanUnsigned(t);
      ScanNumber(sign + t) ==
      Scan(Decimal(if sign == "-" then -u.value.units else u.value.units, u.value.scale),
           u.digits, if u.digits == 0 then 0 else |sign| + u.used)
  {
    if sign == "-" {
      assert (sign + t)[1..] == t;
    } else {
      assert sign + t == t;
    }
  }

  /** Reading a formatted price back as a number gives the same cents. */
  lemma FormattedCentsScan(c: int)
    ensures IsNumeric(FormatCents(c))
    ensures ScanNumber(FormatCents(c)).value == Decimal(c, 2)
  {
    var magnitude := if c < 0 then -c else c;
    var q, r := magnitude / 100, magnitude % 100;
    var whole := NatToDec(q);
    var fraction := TwoDigits(r);
    var sign := if c < 0 then "-" else "";
    var t := whole + "." + fraction;
    assert FormatCents(c) == sign + t;
    NatToDecValue(q);
    assert Pow10(2) == 100;
    ScanDigitsPointDigits(whole, fraction);
    assert ScanUnsigned(t).value == Decimal(q * 100 + r, 2);
    assert q * 100 + r == magnitude;
    ScanSigned(sign, t);
  }

  /** Normalising a price that is already normalised changes nothing, so a
      stored price sent back unchanged by a client is kept as it was. */
  lemma NormalizePriceIdempotent(v: Raw)
    ensures NormalizePrice(Str(NormalizePrice(v))) == NormalizePrice(v)
  {
    var c := RoundCents(ToFloat(v));
    FormattedCentsScan(c);
    assert RoundCents(Decimal(c, 2)) == c;
  }

  /** Reading the decimal text of an int back as a number gives the int. */
  lemma IntTextScan(i: int)
    ensures IsNumeric(IntToDec(i))
    ensures ScanNumber(IntToDec(i)).value == Decimal(i, 0)
  {
    var magnitude := if i < 0 then -i else i;
    ScanDigits(NatToDec(magnitude));
    ScanSigned(if i < 0 then "-" else "", NatToDec(magnitude));
    NatToDecValue(magnitude);
  }

  /** (int) undoes the decimal text of an int. */
  lemma IntTextToInt(i: int)
    ensures ToInt(Str(IntToDec(i))) == i
  {
    IntTextScan(i);
  }

  /** Removes trailing fractional zeros: 2.50 becomes 2.5, 3.00 becomes 3. */
  function TrimZeros(d: Decimal): (r: Decimal)
    ensures r.scale <= d.scale
    decreases d.scale
  {
    if d.scale > 0 && d.units % 10 == 0 then
      var r := TrimZeros(Decimal(d.units / 10, d.scale - 1));
      r
    else d
  }

  /** Left-pads a digit string with zeros to the given width. */
  function PadZeros(s: string, width: nat): (r: string)
    ensures |r| == if |s| < width then width else |s|
    decreases width - |s|
  {
    if |s| < width then PadZeros("0" + s, width) else s
  }

  /** (string)$f for a float, in plain (not exponent) notation: the digits of
      the trimmed decimal with the point put back, at least one digit before it. */
  function FloatToStr(d: Decimal): string {
    var t := TrimZeros(d);
    if t.scale == 0 then IntToDec(t.units)
    else
      var digits := PadZeros(NatToDec(if t.units < 0 then -t.units else t.units), t.scale + 1);
      var point := |digits| - t.scale;
      (if t.units < 0 then "-" else "") + digits[..point] + "." + digits[point..]
  }

  /** (string)$v, which strcmp applies to its operands. */
  function ToStr(v: Raw): string {
    match v
    case Absent => ""
    case Null => ""
    case Bool(b) => if b then "1" else ""
    case Int(i) => IntToDec(i)
    case Float(d) => FloatToStr(d)
    case Str(s) => s
  }

  /** $id == $v for an int $id (PHP 8): null and bools compare as booleans, a
      numeric string compares as a number, any other string never equals an int. */
  predicate LooseEqInt(id: int, v: Raw) {
    match v
    case Absent => id == 0
    case Null => id == 0
    case Bool(b) => b == (id != 0)
    case Int(i) => i == id
    case Float(d) => TrimZeros(d) == Decimal(id, 0)
    case Str(s) => IsNumeric(s) && TrimZeros(ScanNumber(s).value) == Decimal(id, 0)
  }

  /** A value that names a single id: anything except null and booleans. */
  predicate SingleId(v: Raw) {
    v.Int? || v.Float? || v.Str?
  }

  /** A value that is not null or a boolean loosely equals at most one int. */
  lemma LooseEqIntFunctional(v: Raw, a: int, b: int)
    requires SingleId(v)
    requires LooseEqInt(a, v) && LooseEqInt(b, v)
    ensures a == b
  {
  }

  /** The decimal text of an id, as a query string carries it, equals exactly that id. */
  lemma IdTextMatches(id: int, other: int)
    ensures LooseEqInt(other, Str(IntToDec(id))) <==> other == id
  {
    IntTextScan(id);
  }
}
