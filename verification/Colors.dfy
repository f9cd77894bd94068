/**
 * Colour strings: validating `#rgb` / `#rrggbb` hex codes, turning them into
 * an `rgba(r,g,b,opacity)` string, appending an opacity to an `rgb(...)`
 * string, and choosing between those conversions.
 *
 * Formatting a number as text is a parameter (`real -> string`) except for
 * the integer channels, whose decimal text is defined here. The regular
 * expressions recognising rgb and rgba strings are parameters as well.
 */
module Colors {
  import opened Common

  // ---------------------------------------------------------------------------
  // Hex codes

  /** A character of the class `[0-9a-f]`: lower-case only. */
  predicate IsHexDigit(c: char)
  {
    '0' <= c <= '9' || 'a' <= c <= 'f'
  }

  predicate AllHexDigits(s: string)
  {
    forall i :: 0 <= i < |s| ==> IsHexDigit(s[i])
  }

  /** `isValidHex`: the whole string is "#" and then three or six lower-case hex digits. */
  predicate IsValidHex(s: string)
  {
    (|s| == 4 || |s| == 7) && s[0] == '#' && AllHexDigits(s[1..])
  }

  /** A code holding an upper-case letter is rejected, whatever its length. */
  lemma UppercaseRejected(s: string, i: nat)
    requires i < |s| && 'A' <= s[i] <= 'Z'
    ensures !IsValidHex(s)
  {
  }

  function HexDigitValue(c: char): (v: nat)
    requires IsHexDigit(c)
    ensures v < 16
  {
    if c <= '9' then (c as int - '0' as int) else (c as int - 'a' as int + 10)
  }

  /** The lower-case digit of a value below 16. */
  function HexChar(v: nat): (c: char)
    requires v < 16
    ensures IsHexDigit(c) && HexDigitValue(c) == v
  {
    if v < 10 then ('0' as int + v) as char else ('a' as int + v - 10) as char
  }

  /** `parseInt(hex.substring(i, i + 2), 16)` for two hex digits. */
  function PairValue(s: string, i: nat): (v: nat)
    requires i + 2 <= |s| && IsHexDigit(s[i]) && IsHexDigit(s[i + 1])
    ensures v <= 255
  {
    HexDigitValue(s[i]) * 16 + HexDigitValue(s[i + 1])
  }

  /** A three-digit code with each digit doubled: "abc" becomes "aabbcc". */
  function Expand(hex: string): (full: string)
    requires |hex| == 3
    ensures |full| == 6
    ensures forall i :: 0 <= i < 6 ==> full[i] == hex[i / 2]
  {
    [hex[0], hex[0], hex[1], hex[1], hex[2], hex[2]]
  }

  /** The colour a conversion produces: three channels and the opacity as a number. */
  datatype Rgba = Rgba(r: nat, g: nat, b: nat, a: real)

  /** An opacity in (1, 100] is read as a percentage; any other value is kept. */
  function ScaleOpacity(opacity: real): (a: real)
    ensures 1.0 < opacity <= 100.0 ==> a * 100.0 == opacity && 0.01 < a <= 1.0
    ensures !(1.0 < opacity <= 100.0) ==> a == opacity
  {
    if opacity > 1.0 && opacity <= 100.0 then opacity / 100.0 else opacity
  }

  /**
   * The values `hexToRGBA` formats: an invalid code is an error; otherwise
   * the digits after "#" (a short code doubled) are read two at a time.
   */
  function HexColor(code: string, opacity: real): (res: Result<Rgba>)
    ensures res.Error? <==> !IsValidHex(code)
    ensures res.Ok? ==> res.value.r <= 255 && res.value.g <= 255 && res.value.b <= 255
    ensures res.Ok? ==> res.value.a == ScaleOpacity(opacity)
  {
    if !IsValidHex(code) then Error("Invalid Hex code provided")
    else
      var hex := code[1..];
      var full := if |hex| == 3 then Expand(hex) else hex;
      assert AllHexDigits(full);
      Ok(Rgba(PairValue(full, 0), PairValue(full, 2), PairValue(full, 4), ScaleOpacity(opacity)))
  }

  /** The two lower-case digits of a channel below 256. */
  function HexPair(v: nat): string
    requires v < 256
  {
    [HexChar(v / 16), HexChar(v % 16)]
  }

  /** The six-digit code of a colour. */
  function HexCode(r: nat, g: nat, b: nat): string
    requires r < 256 && g < 256 && b < 256
  {
    "#" + HexPair(r) + HexPair(g) + HexPair(b)
  }

  /** Any colour's six-digit code is valid and reads back as the same three channels. */
  lemma HexRoundTrip(r: nat, g: nat, b: nat, opacity: real)
    requires r < 256 && g < 256 && b < 256
    ensures IsValidHex(HexCode(r, g, b))
    ensures HexColor(HexCode(r, g, b), opacity) == Ok(Rgba(r, g, b, ScaleOpacity(opacity)))
  {
    var s := HexCode(r, g, b);
    assert s == ['#', HexChar(r / 16), HexChar(r % 16), HexChar(g / 16), HexChar(g % 16), HexChar(b / 16), HexChar(b % 16)];
    assert AllHexDigits(s[1..]);
    var c := HexColor(s, opacity).value;
    assert c.r == (r / 16) * 16 + r % 16;
    assert c.g == (g / 16) * 16 + g % 16;
    assert c.b == (b / 16) * 16 + b % 16;
  }

  /** The long code a short one stands for: "#abc" is "#aabbcc". */
  function LongForm(code: string): string
    requires |code| == 4
  {
    "#" + Expand(code[1..])
  }

  /**
   * A valid short code is the valid long code with its digits doubled, and
   * converts to the same colour; each channel is 17 times its digit.
   */
  lemma ShortFormDoubles(code: string, opacity: real)
    requires IsValidHex(code) && |code| == 4
    ensures IsValidHex(LongForm(code))
    ensures HexColor(code, opacity) == HexColor(LongForm(code), opacity)
    ensures HexColor(code, opacity).value.r == 17 * HexDigitValue(code[1])
    ensures HexColor(code, opacity).value.g == 17 * HexDigitValue(code[2])
    ensures HexColor(code, opacity).value.b == 17 * HexDigitValue(code[3])
  {
    var long := LongForm(code);
    assert long[1..] == Expand(code[1..]);
    assert AllHexDigits(long[1..]);
  }

  // ---------------------------------------------------------------------------
  // Decimal text of the channels

  predicate IsDecimalDigit(c: char)
  {
    '0' <= c <= '9'
  }

  /** `${n}` for a natural number: its decimal digits, without leading zeros. */
  function DecimalText(n: nat): (s: string)
    ensures |s| >= 1
    ensures forall i :: 0 <= i < |s| ==> IsDecimalDigit(s[i])
    ensures s[0] == '0' ==> n == 0 && |s| == 1
  {
    if n < 10 then [('0' as int + n) as char]
    else DecimalText(n / 10) + [('0' as int + n % 10) as char]
  }

  /** The number a string of decimal digits denotes. */
  function DecimalValue(s: string): nat
    requires forall i :: 0 <= i < |s| ==> IsDecimalDigit(s[i])
  {
    if s == [] then 0
    else
      assert IsDecimalDigit(s[|s| - 1]);
      DecimalValue(s[..|s| - 1]) * 10 + (s[|s| - 1] as int - '0' as int)
  }

  /** Reading a number's decimal text gives the number back. */
  lemma {:induction false} DecimalRoundTrip(n: nat)
    ensures DecimalValue(DecimalText(n)) == n
  {
    if n >= 10 {
      var s := DecimalText(n);
      assert s[..|s| - 1] == DecimalText(n / 10);
      DecimalRoundTrip(n / 10);
    }
  }

  /** The string `hexToRGBA` returns for a colour, given the opacity's text. */
  function RgbaText(c: Rgba, opacityText: string): string
  {
    RgbaHead(c) + (opacityText + ")")
  }

  /** Everything before the opacity: "rgba(", the three channels, and the commas after them. */
  function RgbaHead(c: Rgba): string
  {
    "rgba(" + DecimalText(c.r) + ("," + DecimalText(c.g) + "," + DecimalText(c.b) + ",")
  }

  /**
   * The text opens with "rgba(" and the red channel's digits, which read back
   * as the channel, and closes with the opacity's text and ")".
   */
  lemma RgbaTextReadsBack(c: Rgba, opacityText: string)
    ensures var s, d := RgbaText(c, opacityText), DecimalText(c.r);
      && |s| > 5 + |d| && s[..5] == "rgba(" && s[5..5 + |d|] == d && s[5 + |d|] == ','
      && DecimalValue(d) == c.r
      && s[|s| - 1 - |opacityText|..] == opacityText + ")"
  {
    DecimalRoundTrip(c.r);
    var d := DecimalText(c.r);
    var head := RgbaHead(c);
    var tail := opacityText + ")";
    SliceOfAppend("rgba(" + d, "," + DecimalText(c.g) + "," + DecimalText(c.b) + ",", 0, 5);
    SliceOfAppend("rgba(" + d, "," + DecimalText(c.g) + "," + DecimalText(c.b) + ",", 5, 5 + |d|);
    SliceOfAppend(head, tail, 0, 5);
    SliceOfAppend(head, tail, 5, 5 + |d|);
    assert head[5 + |d|] == ',';
  }

  /** A slice that lies inside the first part of a concatenation is a slice of that part. */
  lemma SliceOfAppend<T>(a: seq<T>, b: seq<T>, i: nat, j: nat)
    requires i <= j <= |a|
    ensures (a + b)[i..j] == a[i..j]
  {
  }

  /**
   * `hexToRGBA`: throws for an invalid code, otherwise the colour's text with
   * the scaled opacity written by `numberText`.
   */
  function HexToRgba(code: string, opacity: real, numberText: real -> string): (res: Result<string>)
    ensures res.Error? <==> !IsValidHex(code)
    ensures res.Ok? ==> |res.value| > 5 && res.value[..5] == "rgba(" && res.value[|res.value| - 1] == ')'
  {
    match HexColor(code, opacity)
    case Error(e) => Error(e)
    case Ok(c) =>
      RgbaTextReadsBack(c, numberText(c.a));
      Ok(RgbaText(c, numberText(c.a)))
  }

  // ---------------------------------------------------------------------------
  // rgb strings

  /** Where c first occurs in s, if it does. */
  function FirstIndex(s: string, c: char): (r: Option<nat>)
    ensures r.None? <==> c !in s
    ensures r.Some? ==> r.value < |s| && s[r.value] == c && c !in s[..r.value]
  {
    if s == [] then None
    else if s[0] == c then Some(0)
    else match FirstIndex(s[1..], c)
      case None => None
      case Some(i) =>
        assert s[..i + 1] == [s[0]] + s[1..][..i];
        Some(i + 1)
  }

  /**
   * `rgbToRgba` as written: the first ")" becomes "," + the opacity's text +
   * ")". The "rgb" to "rgba" rewrite it computes first is overwritten, so the
   * name before the parenthesis is kept.
   */
  function RgbToRgba(input: string, opacityText: string): (r: string)
    ensures ')' !in input ==> r == input
    ensures ')' in input ==> var i := FirstIndex(input, ')').value;
      && |r| == |input| + |opacityText| + 1
      && r[..i] == input[..i]
      && r[i..i + |opacityText| + 2] == "," + opacityText + ")"
      && r[i + |opacityText| + 2..] == input[i + 1..]
  {
    match FirstIndex(input, ')')
    case None => input
    case Some(i) => ReplaceAt(input, i, "," + opacityText + ")")
  }

  /** s with its element at i replaced by the sequence mid. */
  function ReplaceAt<T>(s: seq<T>, i: nat, mid: seq<T>): seq<T>
    requires i < |s|
  {
    s[..i] + mid + s[i + 1..]
  }

  /** Taking the inserted "," and opacity text back out restores the input. */
  lemma RgbToRgbaUndo(input: string, opacityText: string)
    requires ')' in input
    ensures var i, r := FirstIndex(input, ')').value, RgbToRgba(input, opacityText);
      r[..i] + r[i + |opacityText| + 1..] == input
  {
    var i := FirstIndex(input, ')').value;
    var mid := "," + opacityText + ")";
    assert RgbToRgba(input, opacityText) == ReplaceAt(input, i, mid);
    SpliceUndo(input, i, mid, |opacityText| + 1);
  }

  /**
   * Putting mid in place of s[i] and then cutting all of mid but its last
   * element, which is s[i], gives s back.
   */
  lemma SpliceUndo<T>(s: seq<T>, i: nat, mid: seq<T>, k: nat)
    requires i < |s| && k + 1 == |mid| && mid[k] == s[i]
    ensures var t := ReplaceAt(s, i, mid); t[..i] + t[i + k..] == s
  {
    var t := ReplaceAt(s, i, mid);
    assert t[..i] == s[..i];
    assert t[i + k..] == [s[i]] + s[i + 1..];
    Reassemble(s, i);
  }

  /** A sequence is its part before i, its element at i, and its part after i. */
  lemma Reassemble<T>(s: seq<T>, i: nat)
    requires i < |s|
    ensures s[..i] + [s[i]] + s[i + 1..] == s
  {
  }

  /** An "rgb(" string stays an "rgb(" string: no "a" is inserted after "rgb". */
  lemma RgbToRgbaKeepsName(input: string, opacityText: string)
    requires |input| >= 4 && input[..4] == "rgb("
    ensures RgbToRgba(input, opacityText)[..4] == "rgb("
  {
    if ')' in input {
      var i := FirstIndex(input, ')').value;
      assert i >= 4;
    }
  }

  // ---------------------------------------------------------------------------
  // Choosing a conversion

  /**
   * `ensureRgba`: an rgba string is returned as it is, an rgb string gets the
   * opacity appended, a hex code is converted; anything else gives undefined
   * (None). The hex branch never throws, since the code was checked first.
   */
  function EnsureRgba(input: string, opacity: real, isValidRgba: string -> bool, isValidRgb: string -> bool,
                      numberText: real -> string): (r: Option<string>)
    ensures isValidRgba(input) ==> r == Some(input)
    ensures !isValidRgba(input) && isValidRgb(input) ==> r == Some(RgbToRgba(input, numberText(opacity)))
    ensures !isValidRgba(input) && !isValidRgb(input) && IsValidHex(input) ==>
      r.Some? && Ok(r.value) == HexToRgba(input, opacity, numberText)
    ensures r.None? <==> !isValidRgba(input) && !isValidRgb(input) && !IsValidHex(input)
  {
    if isValidRgba(input) then Some(input)
    else if isValidRgb(input) then Some(RgbToRgba(input, numberText(opacity)))
    else if IsValidHex(input) then Some(HexToRgba(input, opacity, numberText).value)
    else None
  }
}
