/**
 * Colour handling shared by every result button: parsing `#rrggbb` colours,
 * linear interpolation between two colours, and the choice of the colour band
 * for a score in [0, 1] (shared_functions.py).
 */
module SharedFunctions {
  import opened Wrappers
  import opened Seqs

  const Low := "#90EE90"
  const Medium := "#ffd68b"
  const High := "#f09d9d"
  const Critical := "#e47676"

  datatype Rgb = Rgb(r: int, g: int, b: int)

  predicate InByteRange(c: Rgb)
  {
    0 <= c.r < 256 && 0 <= c.g < 256 && 0 <= c.b < 256
  }

  predicate IsHexDigit(c: char)
  {
    ('0' as int <= c as int <= '9' as int)
    || ('a' as int <= c as int <= 'f' as int)
    || ('A' as int <= c as int <= 'F' as int)
  }

  predicate IsLowerHexDigit(c: char)
  {
    ('0' as int <= c as int <= '9' as int) || ('a' as int <= c as int <= 'f' as int)
  }

  /** The value of one hexadecimal digit, as `int(c, 16)` reads it. */
  function HexDigitValue(c: char): (v: nat)
    requires IsHexDigit(c)
    ensures v < 16
  {
    if c as int <= '9' as int then c as int - '0' as int
    else if c as int <= 'F' as int then c as int - 'A' as int + 10
    else c as int - 'a' as int + 10
  }

  /** The lower-case digit of a value below 16, as the format `x` writes it. */
  function HexChar(d: nat): (c: char)
    requires d < 16
    ensures IsLowerHexDigit(c) && HexDigitValue(c) == d
  {
    if d < 10 then ('0' as int + d) as char else ('a' as int + d - 10) as char
  }

  /** A colour of the form `#` followed by six hexadecimal digits. */
  predicate IsHexColour(s: string)
  {
    |s| == 7 && s[0] == '#' && forall i :: 1 <= i < 7 ==> IsHexDigit(s[i])
  }

  predicate IsLowerHexColour(s: string)
  {
    |s| == 7 && s[0] == '#' && forall i :: 1 <= i < 7 ==> IsLowerHexDigit(s[i])
  }

  function ToLowerChar(c: char): char
  {
    if 'A' as int <= c as int <= 'Z' as int then (c as int + 32) as char else c
  }

  /** Python's `str.lower()` restricted to ASCII letters. */
  function ToLower(s: string): (r: string)
    ensures |r| == |s| && forall i :: 0 <= i < |s| ==> r[i] == ToLowerChar(s[i])
  {
    seq(|s|, i requires 0 <= i < |s| => ToLowerChar(s[i]))
  }

  /** `int(s[i:i+2], 16)`: the byte written by two hexadecimal digits. */
  function HexPairValue(s: string, i: nat): (v: nat)
    requires i + 2 <= |s| && IsHexDigit(s[i]) && IsHexDigit(s[i + 1])
    ensures v < 256
  {
    16 * HexDigitValue(s[i]) + HexDigitValue(s[i + 1])
  }

  /**
   * The components of a colour after `lstrip('#')`: characters 0-1, 2-3 and 4-5
   * of what follows the `#`.
   */
  function ParseColour(s: string): (c: Rgb)
    requires IsHexColour(s)
    ensures InByteRange(c)
  {
    Rgb(HexPairValue(s, 1), HexPairValue(s, 3), HexPairValue(s, 5))
  }

  /** `f'{n:02x}'` for a byte: exactly two lower-case digits. */
  function HexByte(n: int): (r: string)
    requires 0 <= n < 256
    ensures |r| == 2 && IsLowerHexDigit(r[0]) && IsLowerHexDigit(r[1])
    ensures HexPairValue(r, 0) == n
  {
    [HexChar(n / 16), HexChar(n % 16)]
  }

  /** `f'#{r:02x}{g:02x}{b:02x}'`. */
  function FormatColour(c: Rgb): (s: string)
    requires InByteRange(c)
    ensures IsHexColour(s) && IsLowerHexColour(s)
  {
    "#" + HexByte(c.r) + HexByte(c.g) + HexByte(c.b)
  }

  /** Python's `int(x)`: truncation toward zero. */
  function Trunc(x: real): int
  {
    if x >= 0.0 then x.Floor else -((-x).Floor)
  }

  /** One interpolated component, `int(s + (e - s) * factor)`. */
  function Lerp(s: int, e: int, factor: real): int
  {
    Trunc(s as real + (e - s) as real * factor)
  }

  predicate Between(x: int, a: int, b: int)
  {
    (a <= x <= b) || (b <= x <= a)
  }

  lemma LerpBetween(s: int, e: int, factor: real)
    requires 0 <= s && 0 <= e && 0.0 <= factor <= 1.0
    ensures Between(Lerp(s, e, factor), s, e)
    ensures factor == 0.0 ==> Lerp(s, e, factor) == s
    ensures factor == 1.0 ==> Lerp(s, e, factor) == e
  {
    var d := (e - s) as real;
    var x := s as real + d * factor;
    if s <= e {
      MulNonNegative(d, factor);
      MulNonNegative(d, 1.0 - factor);
      assert s as real <= x <= e as real;
    } else {
      MulNonNegative(-d, factor);
      MulNonNegative(-d, 1.0 - factor);
      assert e as real <= x <= s as real;
    }
  }

  /**
   * `interpolate_colour`: each component moves linearly from the start colour
   * toward the end colour by `factor`, truncated, and is written back as
   * lower-case `#rrggbb`.
   */
  function InterpolateColour(startColour: string, endColour: string, factor: real): (r: string)
    requires IsHexColour(startColour) && IsHexColour(endColour)
    requires 0.0 <= factor <= 1.0
    ensures IsLowerHexColour(r) && IsHexColour(r)
    ensures var c, s, e := ParseColour(r), ParseColour(startColour), ParseColour(endColour);
      Between(c.r, s.r, e.r) && Between(c.g, s.g, e.g) && Between(c.b, s.b, e.b)
    ensures factor == 0.0 ==> r == ToLower(startColour)
    ensures factor == 1.0 ==> r == ToLower(endColour)
  {
    var s, e := ParseColour(startColour), ParseColour(endColour);
    LerpBetween(s.r, e.r, factor);
    LerpBetween(s.g, e.g, factor);
    LerpBetween(s.b, e.b, factor);
    var c := Rgb(Lerp(s.r, e.r, factor), Lerp(s.g, e.g, factor), Lerp(s.b, e.b, factor));
    ParseFormat(c);
    FormatParse(startColour);
    FormatParse(endColour);
    FormatColour(c)
  }

  /** Reading back a formatted colour gives its components. */
  lemma ParseFormat(c: Rgb)
    requires InByteRange(c)
    ensures ParseColour(FormatColour(c)) == c
  {
    var s := FormatColour(c);
    assert s[1..3] == HexByte(c.r) && s[3..5] == HexByte(c.g) && s[5..7] == HexByte(c.b);
    assert HexPairValue(s, 1) == HexPairValue(HexByte(c.r), 0);
    assert HexPairValue(s, 3) == HexPairValue(HexByte(c.g), 0);
    assert HexPairValue(s, 5) == HexPairValue(HexByte(c.b), 0);
  }

  lemma HexCharOfDigit(c: char)
    requires IsHexDigit(c)
    ensures HexChar(HexDigitValue(c)) == ToLowerChar(c)
  {
  }

  /** Re-formatting the byte written by two digits gives those digits in lower case. */
  lemma HexBytePair(a: char, b: char)
    requires IsHexDigit(a) && IsHexDigit(b)
    ensures HexByte(16 * HexDigitValue(a) + HexDigitValue(b)) == [ToLowerChar(a), ToLowerChar(b)]
  {
    var v := 16 * HexDigitValue(a) + HexDigitValue(b);
    assert v / 16 == HexDigitValue(a) && v % 16 == HexDigitValue(b);
    HexCharOfDigit(a);
    HexCharOfDigit(b);
  }

  /** The two digits at `i` read as a byte and written back, in lower case. */
  lemma HexPairLower(s: string, i: nat)
    requires i + 2 <= |s| && IsHexDigit(s[i]) && IsHexDigit(s[i + 1])
    ensures HexByte(HexPairValue(s, i)) == [ToLowerChar(s[i]), ToLowerChar(s[i + 1])]
  {
    HexBytePair(s[i], s[i + 1]);
  }

  /** Formatting a parsed colour reproduces it in lower case. */
  lemma FormatParse(s: string)
    requires IsHexColour(s)
    ensures FormatColour(ParseColour(s)) == ToLower(s)
  {
    var p := ParseColour(s);
    var a, b, c := HexByte(p.r), HexByte(p.g), HexByte(p.b);
    HexPairLower(s, 1);
    HexPairLower(s, 3);
    HexPairLower(s, 5);
    var t := FormatColour(p);
    var l := ToLower(s);
    assert t == "#" + a + b + c;
    forall i | 0 <= i < 7
      ensures t[i] == l[i]
    {
      if i == 0 {
      } else if i < 3 {
        assert t[i] == a[i - 1];
      } else if i < 5 {
        assert t[i] == b[i - 3];
      } else {
        assert t[i] == c[i - 5];
      }
    }
  }

  lemma ToLowerUnchanged(s: string)
    requires forall i :: 0 <= i < |s| ==> !('A' as int <= s[i] as int <= 'Z' as int)
    ensures ToLower(s) == s
  {
  }

  // ----- colour bands (update_result_button) -----

  /** The breakpoints of the colour scale: 0 grey, 0.3 green, 0.6 yellow, 1 red. */
  const Breakpoints: seq<(real, string)> := [(0.0, "#bababa"), (0.3, Low), (0.6, Medium), (1.0, High)]

  /** The top colour, used for every value outside [0, 1]. */
  const TopColour := "#f09d9d"

  lemma BreakpointColoursWellFormed()
    ensures forall i :: 0 <= i < |Breakpoints| ==> IsHexColour(Breakpoints[i].1)
  {
    assert IsHexColour("#bababa");
    assert IsHexColour(Low);
    assert IsHexColour(Medium);
    assert IsHexColour(High);
  }

  predicate InSegment(v: real, i: nat)
    requires i + 1 < |Breakpoints|
  {
    Breakpoints[i].0 <= v <= Breakpoints[i + 1].0
  }

  /** The first segment, from `i` on, whose closed interval holds `v`. */
  function FindSegment(v: real, i: nat): (k: Option<nat>)
    requires i < |Breakpoints|
    ensures k.Some? ==> i <= k.value && k.value + 1 < |Breakpoints| && InSegment(v, k.value)
    ensures k.Some? ==> forall j :: i <= j < k.value ==> !InSegment(v, j)
    ensures k.None? <==> forall j :: i <= j && j + 1 < |Breakpoints| ==> !InSegment(v, j)
    decreases |Breakpoints| - i
  {
    if i + 1 >= |Breakpoints| then None
    else if InSegment(v, i) then Some(i)
    else FindSegment(v, i + 1)
  }

  /** Where `v` lies within segment `i`, from 0 at its lower end to 1 at its upper end. */
  function SegmentFactor(v: real, i: nat): (f: real)
    requires i + 1 < |Breakpoints| && InSegment(v, i)
    ensures 0.0 <= f <= 1.0
  {
    (v - Breakpoints[i].0) / (Breakpoints[i + 1].0 - Breakpoints[i].0)
  }

  /** The background colour of a result button showing `v`. */
  function BandColour(v: real): (c: string)
    ensures IsHexColour(c)
    ensures FindSegment(v, 0).None? ==> c == TopColour
  {
    BreakpointColoursWellFormed();
    match FindSegment(v, 0)
    case Some(i) => InterpolateColour(Breakpoints[i].1, Breakpoints[i + 1].1, SegmentFactor(v, i))
    case None => Breakpoints[|Breakpoints| - 1].1
  }

  /** The number a result button shows: `min(value, 1)`. */
  function DisplayedValue(v: real): (d: real)
    ensures d <= 1.0
    ensures v <= 1.0 ==> d == v
    ensures v > 1.0 ==> d == 1.0
  {
    if v < 1.0 then v else 1.0
  }

  datatype ResultDisplay = ResultDisplay(colour: string, value: real)

  /** `update_result_button`, without the text formatting and the Qt widget. */
  function UpdateResultButton(value: real): (d: ResultDisplay)
    ensures IsHexColour(d.colour) && d.value <= 1.0
  {
    ResultDisplay(BandColour(value), DisplayedValue(value))
  }

  /** Every value in [0, 1] falls in some segment, so it is interpolated. */
  lemma UnitValueHasSegment(v: real)
    requires 0.0 <= v <= 1.0
    ensures FindSegment(v, 0).Some?
  {
    if v <= 0.3 { assert InSegment(v, 0); }
    else if v <= 0.6 { assert InSegment(v, 1); }
    else { assert InSegment(v, 2); }
  }

  /** A value outside [0, 1] gets the top colour. */
  lemma OutOfRangeTopColour(v: real)
    requires v < 0.0 || v > 1.0
    ensures BandColour(v) == TopColour
  {
    assert !InSegment(v, 0) && !InSegment(v, 1) && !InSegment(v, 2);
  }

  /** A breakpoint shared by two segments belongs to the lower one. */
  lemma SharedBreakpointsPickLowerSegment()
    ensures FindSegment(0.3, 0) == Some(0)
    ensures FindSegment(0.6, 0) == Some(1)
    ensures FindSegment(1.0, 0) == Some(2)
  {
    assert InSegment(0.3, 0);
    assert !InSegment(0.6, 0) && InSegment(0.6, 1);
    assert !InSegment(1.0, 0) && !InSegment(1.0, 1) && InSegment(1.0, 2);
  }

  /** The lower end of the scale is exactly grey. */
  lemma ScaleBottom()
    ensures BandColour(0.0) == "#bababa"
  {
    assert InSegment(0.0, 0);
    assert SegmentFactor(0.0, 0) == 0.0;
    ToLowerUnchanged("#bababa");
  }

  /** The upper end of the scale is exactly the top colour. */
  lemma ScaleTop()
    ensures BandColour(1.0) == TopColour
  {
    SharedBreakpointsPickLowerSegment();
    assert SegmentFactor(1.0, 2) == 1.0;
    ToLowerUnchanged(High);
  }
}
