// src/duration.rs: durations written `<n><unit>`, in whole seconds held in an i64.
module Duration {
  import opened Integers
  import opened Text
  import opened Wrappers

  /** Seconds in one unit, for the five letters that name one. */
  function UnitSeconds(unit: char): (secs: Option<int>)
    ensures secs.Some? ==> secs.value > 0
  {
    match unit
    case 's' => Some(1)
    case 'm' => Some(60)
    case 'h' => Some(3600)
    case 'd' => Some(86_400)
    case 'w' => Some(7 * 86_400)
    case _ => None
  }

  /** `parse`: `None` stands for `ParseDurationError`. */
  function Parse(input: string): Option<int> {
    var trimmed := Trim(input);
    if trimmed == "" then None
    else
      var number, unit := trimmed[..|trimmed| - 1], trimmed[|trimmed| - 1];
      if number == "" || !AllDigits(number) then None
      else
        var n := NumeralValue(number);
        if n > I64_MAX then None
        else
          match UnitSeconds(unit)
          case None => None
          case Some(u) => if n * u > I64_MAX then None else Some(n * u)
  }

  /** An optional field of a spec: its duration, if it is given and can be read. */
  function ParseField(field: Option<string>): Option<int> {
    match field
    case Some(v) => Parse(v)
    case None => None
  }

  /** The pattern of the custom resource definition, `^[0-9]+(s|m|h|d|w)$`. */
  predicate MatchesCrdPattern(s: string) {
    && |s| >= 2
    && AllDigits(s[..|s| - 1])
    && s[|s| - 1] in "smhdw"
  }

  /** What a string of that pattern denotes, without any bound. */
  function Denotes(s: string): int
    requires MatchesCrdPattern(s)
  {
    NumeralValue(s[..|s| - 1]) * UnitSeconds(s[|s| - 1]).value
  }

  lemma ProductBound(n: int, u: int)
    requires n >= 0 && u >= 1
    ensures n <= n * u
  {}

  /** `parse` accepts exactly the trimmed strings of the pattern whose value fits an i64,
      and yields that value. */
  lemma ParseExactly(s: string)
    ensures Parse(s).Some? <==> MatchesCrdPattern(Trim(s)) && Denotes(Trim(s)) <= I64_MAX
    ensures Parse(s).Some? ==> Parse(s).value == Denotes(Trim(s)) && 0 <= Parse(s).value
  {
    var t := Trim(s);
    if MatchesCrdPattern(t) {
      ProductBound(NumeralValue(t[..|t| - 1]), UnitSeconds(t[|t| - 1]).value);
    }
  }

  /** On strings the API server admits, `parse` fails only by overflow. */
  lemma ParseAgreesWithCrdPattern(s: string)
    requires MatchesCrdPattern(s)
    ensures Parse(s) == if Denotes(s) <= I64_MAX then Some(Denotes(s)) else None
  {
    assert !IsWhitespace(s[0]) && !IsWhitespace(s[|s| - 1]) by {
      assert s[0] == s[..|s| - 1][0];
    }
    TrimIdentity(s);
    ParseExactly(s);
  }

  /** `i64::abs` without overflow checks: the minimum has no positive counterpart and stays. */
  function WrappingAbs(n: int): int
    requires IsI64(n)
  {
    if n == I64_MIN then I64_MIN else if n < 0 then -n else n
  }

  function HumanizeUnit(secs: int): char {
    if secs >= 86_400 then 'd' else if secs >= 3600 then 'h' else if secs >= 60 then 'm' else 's'
  }

  /** Rust's `{}` for an i64. */
  function Decimal(n: int): string {
    if n < 0 then "-" + Numeral(-n) else Numeral(n)
  }

  function Humanize(secs: int): string
    requires IsI64(secs)
  {
    var abs := WrappingAbs(secs);
    var unit := HumanizeUnit(abs);
    Decimal(TruncDiv(abs, UnitSeconds(unit).value)) + [unit]
  }

  function Abs(n: int): nat {
    if n < 0 then -n else n
  }

  lemma ParseNumeral(v: nat, unit: char)
    requires UnitSeconds(unit).Some? && v * UnitSeconds(unit).value <= I64_MAX
    ensures MatchesCrdPattern(Numeral(v) + [unit])
    ensures Parse(Numeral(v) + [unit]) == Some(v * UnitSeconds(unit).value)
  {
    var h := Numeral(v) + [unit];
    assert h[..|h| - 1] == Numeral(v);
    NumeralRoundTrip(v);
    ParseAgreesWithCrdPattern(h);
  }

  /** Rounding down to a multiple of the chosen unit does not change which unit is chosen. */
  lemma RoundedDown(a: nat)
    ensures var u := UnitSeconds(HumanizeUnit(a)).value;
            var down := a / u * u;
            && down % u == 0 && down / u == a / u
            && down <= a < down + u
            && HumanizeUnit(down) == HumanizeUnit(a)
  {
    var u := UnitSeconds(HumanizeUnit(a)).value;
    assert a == u * (a / u) + a % u;
    if a >= u { assert a / u >= 1; }
  }

  /** The printed duration parses back to the original rounded down to the unit shown:
      `v*u <= |secs| < (v+1)*u`. */
  lemma HumanizeParses(secs: int)
    requires IsI64(secs) && secs != I64_MIN
    ensures var h := Humanize(secs);
            && MatchesCrdPattern(h)
            && var u := UnitSeconds(h[|h| - 1]).value;
            && Parse(h).Some?
            && Parse(h).value == Abs(secs) / u * u
            && Parse(h).value <= Abs(secs) < Parse(h).value + u
  {
    var a := Abs(secs);
    var unit := HumanizeUnit(a);
    RoundedDown(a);
    ParseNumeral(a / UnitSeconds(unit).value, unit);
  }

  /** What the letters stand for: seconds, minutes, hours, days and weeks, up to overflow. */
  lemma UnitsMean(n: nat, unit: char)
    requires unit in "smhdw"
    ensures var secs := match unit
                        case 's' => n
                        case 'm' => n * 60
                        case 'h' => n * (60 * 60)
                        case 'd' => n * (24 * 60 * 60)
                        case _ => n * (7 * 24 * 60 * 60);
            Parse(Numeral(n) + [unit]) == if secs <= I64_MAX then Some(secs) else None
  {
    var h := Numeral(n) + [unit];
    assert h[..|h| - 1] == Numeral(n);
    NumeralRoundTrip(n);
    ParseAgreesWithCrdPattern(h);
  }

  /** The unit shown is the largest one that the duration fills, up to days. */
  lemma HumanizeUnits(secs: int)
    requires IsI64(secs) && secs != I64_MIN
    ensures var h := Humanize(secs);
            && h != ""
            && (h[|h| - 1] == 'd' <==> Abs(secs) >= 24 * 60 * 60)
            && (h[|h| - 1] == 'h' <==> 60 * 60 <= Abs(secs) < 24 * 60 * 60)
            && (h[|h| - 1] == 'm' <==> 60 <= Abs(secs) < 60 * 60)
            && (h[|h| - 1] == 's' <==> Abs(secs) < 60)
  {}

  /** Reading back what was printed and printing it again changes nothing. */
  lemma HumanizeStable(secs: int)
    requires IsI64(secs) && secs != I64_MIN
    ensures var back := Parse(Humanize(secs));
            back.Some? && IsI64(back.value) && Humanize(back.value) == Humanize(secs)
  {
    HumanizeParses(secs);
    RoundedDown(Abs(secs));
  }

  /** The round trip holds for every duration except the one whose absolute value overflows. */
  lemma HumanizeParsesIff(secs: int)
    requires IsI64(secs)
    ensures Parse(Humanize(secs)).Some? <==> secs != I64_MIN
  {
    if secs == I64_MIN {
      var h := Humanize(secs);
      assert h[0] == '-' && h[|h| - 1] == 's';
      TrimIdentity(h);
      assert h[..|h| - 1][0] == '-';
    } else {
      HumanizeParses(secs);
    }
  }
}
