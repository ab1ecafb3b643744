/** The two coordinate classes of the legacy ephemeris code: `Degrees`, a
    pair of decimal degrees checked against its ranges, and `Hmsdms`, right
    ascension in hours, minutes and seconds and declination in degrees,
    minutes and seconds, parsed from text such as "12:30:05.2 -00:30:00".
    Both convert to decimal degrees with `CalcInternal`. Arithmetic is on
    exact reals; the source's floating point rounding is not modelled. */
module Coords {
  import opened Wrappers
  import opened PyStr

  // ---------------------------------------------------------------------------
  // Degrees
  // ---------------------------------------------------------------------------

  /** A `Degrees` object: longitude `a1` and latitude `a2`. */
  datatype Degrees = Degrees(a1: real, a2: real)

  predicate LongitudeInRange(a1: real) { -180.0 <= a1 <= 360.0 }

  predicate LatitudeInRange(a2: real) { -90.0 <= a2 <= 90.0 }

  /** `Degrees((a1, a2))`: accepted exactly when the longitude lies in
      [-180, 360] and the latitude in [-90, 90]; the values are kept as given. */
  function MakeDegrees(a1: real, a2: real): (r: Result<Degrees>)
    ensures r.Ok? <==> LongitudeInRange(a1) && LatitudeInRange(a2)
    ensures r.Ok? ==> r.value.a1 == a1 && r.value.a2 == a2
    ensures !LongitudeInRange(a1) ==> r.Err? && r.error.ValueError?
    ensures LongitudeInRange(a1) && !LatitudeInRange(a2) ==> r.Err? && r.error.ValueError?
  {
    if !LongitudeInRange(a1) then Err(ValueError("Longitude out of range [-180,360]"))
    else if !LatitudeInRange(a2) then Err(ValueError("Latitude out of range [-90,90]"))
    else Ok(Degrees(a1, a2))
  }

  /** `Degrees._calcinternal`: the pair itself. */
  function DegreesInternal(d: Degrees): (r: (real, real))
    ensures r.0 == d.a1 && r.1 == d.a2
  {
    (d.a1, d.a2)
  }

  /** Converting an accepted pair gives it back unchanged. */
  lemma DegreesRoundTrip(a1: real, a2: real)
    requires LongitudeInRange(a1) && LatitudeInRange(a2)
    ensures MakeDegrees(a1, a2).Ok?
    ensures DegreesInternal(MakeDegrees(a1, a2).value) == (a1, a2)
  {
  }

  // ---------------------------------------------------------------------------
  // Hmsdms
  // ---------------------------------------------------------------------------

  /** One sexagesimal triple as the source stores it: whole units, minutes and
      seconds (a numpy array of floats whose first two entries are integral). */
  datatype Sexagesimal = Sexagesimal(whole: int, minutes: int, seconds: real)

  /** An `Hmsdms` object: `a1` the right ascension in hours, `a2` the
      declination in degrees, and the sign character read from the text. */
  datatype Hmsdms = Hmsdms(a1: Sexagesimal, a2: Sexagesimal, a2sign: char)

  function Abs(x: real): real { if x < 0.0 then -x else x }

  function AbsInt(x: int): int { if x < 0 then -x else x }

  /** Parse "w:mm:ss" with the whole part in [lo, hi], the minutes in [0, 60]
      and the seconds in [0, 60]; wrong field counts and text that is not a
      number raise `ValueError`, like the source's tuple unpacking, `int()`
      and `float()`. The stored whole part and minutes are `int(float(t))`,
      which equals `int(t)` for text `int` accepts (`PyStr.ParseIntAsFloat`). */
  function ParseSexagesimal(text: string, lo: int, hi: int): (r: Result<Sexagesimal>)
    ensures r.Err? ==> r.error.ValueError?
    ensures r.Ok? <==>
      var f := Split(text, ':');
      && |f| == 3
      && ParseInt(f[0]).Some? && lo <= ParseInt(f[0]).value <= hi
      && ParseInt(f[1]).Some? && 0 <= ParseInt(f[1]).value <= 60
      && ParseFloat(f[2]).Some? && 0.0 <= ParseFloat(f[2]).value <= 60.0
    ensures r.Ok? ==>
      var f := Split(text, ':');
      r.value == Sexagesimal(ParseInt(f[0]).value, ParseInt(f[1]).value, ParseFloat(f[2]).value)
  {
    var f := Split(text, ':');
    if |f| != 3 then Err(ValueError("wrong number of values to unpack"))
    else
      match ParseInt(f[0])
      case None => Err(ValueError("invalid literal for int()"))
      case Some(w) =>
        if !(lo <= w <= hi) then Err(ValueError("out of range"))
        else
          match ParseInt(f[1])
          case None => Err(ValueError("invalid literal for int()"))
          case Some(m) =>
            if !(0 <= m <= 60) then Err(ValueError("Minutes out of range [0,60]"))
            else
              match ParseFloat(f[2])
              case None => Err(ValueError("invalid literal for float()"))
              case Some(s) =>
                if !(0.0 <= s <= 60.0) then Err(ValueError("Seconds out of range [0,60]"))
                else Ok(Sexagesimal(w, m, s))
  }

  /** `a2 *= -1`: every entry of the triple negated. */
  function Negate(x: Sexagesimal): (r: Sexagesimal)
    ensures AbsInt(r.whole) == AbsInt(x.whole) && AbsInt(r.minutes) == AbsInt(x.minutes)
    ensures Abs(r.seconds) == Abs(x.seconds)
  {
    Sexagesimal(-x.whole, -x.minutes, -x.seconds)
  }

  /** `Hmsdms(input)`: exactly two whitespace-separated fields, the right
      ascension with hours in [0, 24] and the declination with degrees in
      [-90, 90]; a declination written with a leading '-' is stored negated
      with sign '-', any other with sign '+'. */
  function ParseHmsdms(input: string): (r: Result<Hmsdms>)
    ensures r.Err? ==> r.error.ValueError?
    ensures r.Ok? <==>
      |Tokens(input)| == 2
      && ParseSexagesimal(Tokens(input)[0], 0, 24).Ok?
      && ParseSexagesimal(Tokens(input)[1], -90, 90).Ok?
    ensures r.Ok? ==>
      && r.value.a1 == ParseSexagesimal(Tokens(input)[0], 0, 24).value
      && (r.value.a2sign == '-' <==> StartsWith(Tokens(input)[1], "-"))
      && (r.value.a2sign == '-' || r.value.a2sign == '+')
      && var d := ParseSexagesimal(Tokens(input)[1], -90, 90).value;
         r.value.a2 == (if r.value.a2sign == '-' then Negate(d) else d)
  {
    var toks := Tokens(input);
    if |toks| != 2 then Err(ValueError("need exactly two fields"))
    else
      var a1 :- ParseSexagesimal(toks[0], 0, 24);
      var a2 :- ParseSexagesimal(toks[1], -90, 90);
      if StartsWith(toks[1], "-") then Ok(Hmsdms(a1, Negate(a2), '-'))
      else Ok(Hmsdms(a1, a2, '+'))
  }

  /** `Hmsdms._calcinternal`: right ascension at 15 degrees an hour, and the
      declination's magnitude with the stored sign applied. */
  function CalcInternal(c: Hmsdms): (r: (real, real))
    ensures c.a2sign == '-' ==> r.1 <= 0.0
    ensures c.a2sign != '-' ==> r.1 >= 0.0
  {
    var a1 := 15.0 * c.a1.whole as real + 15.0 * c.a1.minutes as real / 60.0
              + 15.0 * c.a1.seconds / 3600.0;
    var a2 := Abs(c.a2.whole as real) + Abs(c.a2.minutes as real) / 60.0
              + Abs(c.a2.seconds) / 3600.0;
    (a1, if c.a2sign == '-' then -a2 else a2)
  }

  /** The decimal value of a parsed coordinate: the right ascension is
      15 (hours + minutes/60 + seconds/3600) degrees and lies in
      [0, 375.25], and the declination has the sign of its text, even when
      the degrees field is "-00", and magnitude
      |degrees| + minutes/60 + seconds/3600 of the numbers written. */
  lemma CalcInternalOfParsed(input: string)
    requires ParseHmsdms(input).Ok?
    ensures var v := CalcInternal(ParseHmsdms(input).value);
      var h := ParseSexagesimal(Tokens(input)[0], 0, 24).value;
      var d := ParseSexagesimal(Tokens(input)[1], -90, 90).value;
      var mag := AbsInt(d.whole) as real + d.minutes as real / 60.0 + d.seconds / 3600.0;
      && v.0 == 15.0 * (h.whole as real + h.minutes as real / 60.0 + h.seconds / 3600.0)
      && 0.0 <= v.0 <= 375.25
      && (if StartsWith(Tokens(input)[1], "-") then v.1 == -mag else v.1 == mag)
      && -91.0 - 1.0 / 60.0 <= v.1 <= 91.0 + 1.0 / 60.0
  {
    var c := ParseHmsdms(input).value;
    var d := ParseSexagesimal(Tokens(input)[1], -90, 90).value;
    assert Abs(c.a2.whole as real) == AbsInt(d.whole) as real;
    assert Abs(c.a2.minutes as real) == d.minutes as real;
    assert Abs(c.a2.seconds) == d.seconds;
  }

  /** The text "h:m:s [-]d:m:s" for whole numbers, as `str` writes them. */
  function FormatHmsdms(h: nat, m: nat, s: nat, negative: bool, d: nat, dm: nat, ds: nat): string
  {
    NatToString(h) + ":" + NatToString(m) + ":" + NatToString(s) + " "
    + (if negative then "-" else "") + NatToString(d) + ":" + NatToString(dm) + ":" + NatToString(ds)
  }

  /** Fields in range survive writing out and parsing back, and convert to
      15 (h + m/60 + s/3600) degrees of right ascension and
      ±(d + dm/60 + ds/3600) degrees of declination. */
  lemma FormatParseRoundTrip(h: nat, m: nat, s: nat, negative: bool, d: nat, dm: nat, ds: nat)
    requires h <= 24 && m <= 60 && s <= 60 && d <= 90 && dm <= 60 && ds <= 60
    ensures var r := ParseHmsdms(FormatHmsdms(h, m, s, negative, d, dm, ds));
      && r.Ok?
      && r.value.a1 == Sexagesimal(h, m, s as real)
      && r.value.a2sign == (if negative then '-' else '+')
      && CalcInternal(r.value) ==
           (15.0 * (h as real + m as real / 60.0 + s as real / 3600.0),
            (if negative then -1.0 else 1.0) * (d as real + dm as real / 60.0 + ds as real / 3600.0))
  {
    ParseOfFormat(h, m, s, negative, d, dm, ds);
    var r := ParseHmsdms(FormatHmsdms(h, m, s, negative, d, dm, ds));
    CalcOfFields(r.value, h, m, s, negative, d, dm, ds);
  }

  /** Parsing the text of whole-number fields in range gives the fields
      back, with the declination stored as the source stores it. */
  lemma ParseOfFormat(h: nat, m: nat, s: nat, negative: bool, d: nat, dm: nat, ds: nat)
    requires h <= 24 && m <= 60 && s <= 60 && d <= 90 && dm <= 60 && ds <= 60
    ensures var r := ParseHmsdms(FormatHmsdms(h, m, s, negative, d, dm, ds));
      var dw: int := if negative then -(d as int) else d;
      var a2 := Sexagesimal(dw, dm, ds as real);
      && r.Ok?
      && r.value.a1 == Sexagesimal(h, m, s as real)
      && r.value.a2sign == (if negative then '-' else '+')
      && r.value.a2 == (if negative then Negate(a2) else a2)
  {
    var sign := if negative then "-" else "";
    var ra := NatToString(h) + ":" + NatToString(m) + ":" + NatToString(s);
    var dec := sign + NatToString(d) + ":" + NatToString(dm) + ":" + NatToString(ds);
    var input := FormatHmsdms(h, m, s, negative, d, dm, ds);
    assert input == ra + " " + dec;
    NatTextParses(h);
    NatTextParses(d);
    assert sign + NatToString(d) == (if negative then "-" + NatToString(d) else NatToString(d));
    assert negative ==> (sign + NatToString(d))[1..] == NatToString(d);
    var dw: int := if negative then -(d as int) else d;
    FieldRoundTrip(NatToString(h), h, m, s, 0, 24);
    FieldRoundTrip(sign + NatToString(d), dw, dm, ds, -90, 90);
    TokensOfPair(ra, dec);
    assert Tokens(input) == [ra, dec];
    assert StartsWith(dec, "-") <==> negative by {
      assert !negative ==> dec[0] == NatToString(d)[0];
    }
  }

  /** The conversion of whole-number fields, with the declination stored as
      the source stores it. */
  lemma CalcOfFields(c: Hmsdms, h: nat, m: nat, s: nat, negative: bool, d: nat, dm: nat, ds: nat)
    requires c.a1 == Sexagesimal(h, m, s as real)
    requires c.a2sign == (if negative then '-' else '+')
    requires var dw: int := if negative then -(d as int) else d;
      var a2 := Sexagesimal(dw, dm, ds as real);
      c.a2 == (if negative then Negate(a2) else a2)
    ensures CalcInternal(c) ==
      (15.0 * (h as real + m as real / 60.0 + s as real / 3600.0),
       (if negative then -1.0 else 1.0) * (d as real + dm as real / 60.0 + ds as real / 3600.0))
  {
    assert Abs(c.a2.whole as real) == d as real;
    assert Abs(c.a2.minutes as real) == dm as real;
    assert Abs(c.a2.seconds) == ds as real;
  }

  /** One field written from its numbers parses back to them. */
  lemma FieldRoundTrip(wtext: string, w: int, m: nat, s: nat, lo: int, hi: int)
    requires wtext != [] && (AllDigits(wtext) || (wtext[0] == '-' && AllDigits(wtext[1..])))
    requires ParseInt(wtext) == Some(w) && lo <= w <= hi && m <= 60 && s <= 60
    ensures var t := wtext + ":" + NatToString(m) + ":" + NatToString(s);
      && ParseSexagesimal(t, lo, hi) == Ok(Sexagesimal(w, m, s as real))
      && t != [] && NoSpace(t)
  {
    var t := wtext + ":" + NatToString(m) + ":" + NatToString(s);
    assert t == wtext + [':'] + NatToString(m) + [':'] + NatToString(s);
    FieldsOfTriple(wtext, NatToString(m), NatToString(s));
    NatTextParses(m);
    NatTextParses(s);
    ParseIntAsFloat(NatToString(s));
  }

  /** Three digit runs joined by colons form a blank-free field that splits
      back into them. */
  lemma FieldsOfTriple(x: string, y: string, z: string)
    requires x != [] && (AllDigits(x) || (x[0] == '-' && AllDigits(x[1..])))
    requires y != [] && AllDigits(y) && z != [] && AllDigits(z)
    ensures Split(x + [':'] + y + [':'] + z, ':') == [x, y, z]
    ensures NoSpace(x + [':'] + y + [':'] + z)
  {
    forall k | 0 <= k < |x| ensures x[k] != ':' && !IsSpace(x[k]) {
      if k > 0 { assert x[k] == x[1..][k - 1]; }
    }
    SplitAfterField(x, ':', y + [':'] + z);
    SplitAfterField(y, ':', z);
    SplitWithoutSeparator(z, ':');
    assert x + [':'] + y + [':'] + z == x + [':'] + (y + [':'] + z);
    NoSpaceConcat(x, [':']);
    NoSpaceConcat(x + [':'], y);
    NoSpaceConcat(x + [':'] + y, [':']);
    NoSpaceConcat(x + [':'] + y + [':'], z);
  }

  /** A declination of minus zero degrees and thirty minutes converts to -0.5:
      the sign is taken from the text, not from the degrees field. */
  lemma NegativeZeroDeclination()
    ensures var r := ParseHmsdms("12:30:0 -0:30:0");
      r.Ok? && CalcInternal(r.value) == (187.5, -0.5)
  {
    NegativeZeroText();
    FormatParseRoundTrip(12, 30, 0, true, 0, 30, 0);
    var v := CalcInternal(ParseHmsdms(FormatHmsdms(12, 30, 0, true, 0, 30, 0)).value);
    assert v.0 == 15.0 * (12.0 + 30.0 / 60.0 + 0.0 / 3600.0) == 187.5;
    assert v.1 == -1.0 * (0.0 + 30.0 / 60.0 + 0.0 / 3600.0) == -0.5;
  }

  /** The fields of `NegativeZeroDeclination` as `FormatHmsdms` writes them. */
  lemma NegativeZeroText()
    ensures FormatHmsdms(12, 30, 0, true, 0, 30, 0) == "12:30:0 -0:30:0"
  {
    assert NatToString(1) == "1" && NatToString(12) == NatToString(1) + "2";
    assert NatToString(3) == "3" && NatToString(30) == NatToString(3) + "0";
    assert NatToString(0) == "0";
  }
}
