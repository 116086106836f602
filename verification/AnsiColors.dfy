/** Numbers and colours as the escape-sequence parser reads and writes them. */
module AnsiColors {
  import opened Decimals

  // ---- numbers ----

  predicate IsDigit(c: char) {
    '0' <= c <= '9'
  }

  function Value(s: string): nat
    requires forall i :: 0 <= i < |s| ==> IsDigit(s[i])
  {
    if s == "" then 0
    else
      assert IsDigit(s[|s| - 1]);
      10 * Value(s[..|s| - 1]) + (s[|s| - 1] as int - '0' as int)
  }

  const MaxInt: nat := 0x7fff_ffff_ffff_ffff

  /** The number a parameter string denotes: 0 if it is none, and the largest
      64-bit integer if it is larger than that. */
  function Atoi(s: string): nat {
    if s != "" && forall i :: 0 <= i < |s| ==> IsDigit(s[i]) then
      if Value(s) > MaxInt then MaxInt else Value(s)
    else 0
  }

  function Repeat(c: char, n: nat): (s: string)
    ensures |s| == n && forall i :: 0 <= i < n ==> s[i] == c
  {
    seq(n, i => c)
  }

  const HexDigits := "0123456789abcdef"

  function Hex(n: nat): string {
    if n < 16 then [HexDigits[n]] else Hex(n / 16) + [HexDigits[n % 16]]
  }

  function TwoDigitHex(n: nat): string {
    if n < 16 then "0" + Hex(n) else Hex(n)
  }

  function RgbColor(red: nat, green: nat, blue: nat): string {
    "#" + TwoDigitHex(red) + TwoDigitHex(green) + TwoDigitHex(blue)
  }

  // ---- colours ----

  /** A colour is handed to the terminal library by its name, which is empty for
      one that is not set. */
  datatype Color = Unset | Default | Named(k: nat) | Rgb(red: nat, green: nat, blue: nat)

  function ColorName(c: Color): string {
    match c
    case Unset => ""
    case Default => "-"
    case Named(k) =>
      if k == 1 then "red" else if k == 2 then "green" else if k == 3 then "yellow" else if k == 4 then "blue"
      else if k == 5 then "darkmagenta" else if k == 6 then "darkcyan" else if k == 7 then "white" else "black"
    case Rgb(red, green, blue) => RgbColor(red, green, blue)
  }

  function BrightColor(k: nat): Color
    requires k < 8
  {
    match k
    case 0 => Rgb(127, 127, 127)
    case 1 => Rgb(255, 0, 0)
    case 2 => Rgb(0, 255, 0)
    case 3 => Rgb(255, 255, 0)
    case 4 => Rgb(92, 92, 255)
    case 5 => Rgb(255, 0, 255)
    case 6 => Rgb(0, 255, 255)
    case _ => Rgb(255, 255, 255)
  }

  function LookupColor(n: int, bright: bool): Color {
    if n < 0 || n > 7 then Named(0)
    else if bright then BrightColor(n) else Named(n)
  }

  function EightBitColor(n: nat): Color {
    if n <= 7 then LookupColor(n, false)
    else if n <= 15 then LookupColor(n, true)
    else if n <= 231 then Rgb(255 * ((n - 16) / 36) / 5, 255 * (((n - 16) / 6) % 6) / 5, 255 * ((n - 16) % 6) / 5)
    else if n <= 255 then
      var grey := 255 * (n - 232) / 23;
      Rgb(grey, grey, grey)
    else Unset
  }

  // ---- numbers are read back ----

  lemma {:induction false} DecimalValue(n: nat)
    ensures (forall i :: 0 <= i < |Decimal(n)| ==> IsDigit(Decimal(n)[i])) && Value(Decimal(n)) == n
  {
    DecimalIsDigits(n);
    if n >= 10 {
      DecimalValue(n / 10);
      assert Decimal(n)[..|Decimal(n)| - 1] == Decimal(n / 10);
    } else {
      assert Decimal(n)[..0] == "";
    }
  }

  /** A printed number is read back, up to the largest 64-bit integer. */
  lemma AtoiReadsDecimal(n: nat)
    ensures Atoi(Decimal(n)) == if n > MaxInt then MaxInt else n
  {
    DecimalValue(n);
    DecimalLength(n);
  }

  function HexValue(c: char): nat {
    if '0' <= c <= '9' then c as nat - '0' as nat else if 'a' <= c <= 'f' then c as nat - 'a' as nat + 10 else 0
  }

  /** The number between positions of a colour string. */
  function Pair(s: string, i: nat): nat
    requires i + 2 <= |s|
  {
    16 * HexValue(s[i]) + HexValue(s[i + 1])
  }

  lemma ByteInHex(n: nat)
    requires n < 256
    ensures |TwoDigitHex(n)| == 2 && Pair(TwoDigitHex(n), 0) == n
  {
    if n >= 16 {
      DigitIsRead(n / 16);
      DigitIsRead(n % 16);
      assert Hex(n / 16) == [HexDigits[n / 16]];
      assert Hex(n) == [HexDigits[n / 16], HexDigits[n % 16]];
    } else {
      DigitIsRead(n);
      assert TwoDigitHex(n) == ['0', HexDigits[n]];
    }
  }

  lemma DigitIsRead(d: nat)
    requires d < 16
    ensures HexValue(HexDigits[d]) == d
  {
  }

  /** A colour of three bytes is written in seven characters, from which the
      bytes can be read back. */
  lemma RgbIsReadBack(red: nat, green: nat, blue: nat)
    requires red < 256 && green < 256 && blue < 256
    ensures var s := RgbColor(red, green, blue);
            |s| == 7 && s[0] == '#' && Pair(s, 1) == red && Pair(s, 3) == green && Pair(s, 5) == blue
  {
    ByteInHex(red);
    ByteInHex(green);
    ByteInHex(blue);
    var s := RgbColor(red, green, blue);
    assert s[1..3] == TwoDigitHex(red) && s[3..5] == TwoDigitHex(green) && s[5..7] == TwoDigitHex(blue);
  }

  // ---- names are too ----

  predicate IsNameable(c: Color) {
    match c
    case Named(k) => k < 8
    case Rgb(red, green, blue) => red < 256 && green < 256 && blue < 256
    case _ => true
  }

  lemma NameOfBasic(k: nat)
    requires k < 8
    ensures var s := ColorName(Named(k)); |s| >= 3 && s[0] != '#'
  {
  }

  lemma BasicNamesDiffer(j: nat, k: nat)
    requires j < k < 8
    ensures ColorName(Named(j)) != ColorName(Named(k))
  {
    var a, b := ColorName(Named(j)), ColorName(Named(k));
    assert |a| != |b| || a[0] != b[0] || a[2] != b[2] || a[4] != b[4];
  }

  /** Colours of three bytes, the basic ones and none at all have names of their
      own. */
  lemma NamesTellColorsApart(c: Color, d: Color)
    requires IsNameable(c) && IsNameable(d) && ColorName(c) == ColorName(d)
    ensures c == d
  {
    NameStarts(c);
    NameStarts(d);
    if c.Rgb? && d.Rgb? {
      RgbIsReadBack(c.red, c.green, c.blue);
      RgbIsReadBack(d.red, d.green, d.blue);
    } else if c.Named? && d.Named? && c.k != d.k {
      BasicNamesDiffer(if c.k < d.k then c.k else d.k, if c.k < d.k then d.k else c.k);
    }
  }

  lemma NameStarts(c: Color)
    requires IsNameable(c)
    ensures var s := ColorName(c);
            match c
            case Unset => |s| == 0
            case Default => |s| == 1
            case Named(_) => |s| >= 3 && s[0] != '#'
            case Rgb(_, _, _) => |s| == 7 && s[0] == '#'
  {
    match c {
      case Named(k) => NameOfBasic(k);
      case Rgb(red, green, blue) => RgbIsReadBack(red, green, blue);
      case _ =>
    }
  }

  // ---- the palette ----

  /** The palette as it is meant: eight basic colours, the same eight bright, a
      cube of six steps of 51, and 24 greys from black to white. */
  function Palette(n: nat): Color
    requires n < 256
  {
    if n < 8 then Named(n)
    else if n < 16 then BrightColor(n - 8)
    else if n < 232 then Rgb(51 * ((n - 16) / 36), 51 * ((n - 16) / 6 % 6), 51 * ((n - 16) % 6))
    else Rgb(255 * (n - 232) / 23, 255 * (n - 232) / 23, 255 * (n - 232) / 23)
  }

  /** The parser gives each colour of the palette but the bright ones, which all
      come out black: it looks them up by their number in the palette. */
  lemma PaletteIsRightExactlyWhen(n: nat)
    requires n < 256
    ensures EightBitColor(n) == Palette(n) <==> !IsBrightNumber(n)
    ensures IsBrightNumber(n) ==> EightBitColor(n) == Named(0)
  {
    if 16 <= n < 232 {
      var r, g, b := ColorCube(n);
    }
  }

  predicate IsBrightNumber(n: nat) {
    8 <= n < 16
  }

  lemma DigitsOfSix(m: nat)
    requires m < 216
    ensures m / 36 < 6 && m / 6 % 6 < 6 && m % 6 < 6 && m == 36 * (m / 36) + 6 * (m / 6 % 6) + m % 6
  {
    assert m / 6 / 6 == m / 36;
  }

  lemma StepOfCube(k: nat)
    requires k < 6
    ensures 255 * k / 5 == 51 * k
  {
  }

  /** The colours 16 to 231 are a cube of six steps of 51 in red, green and blue. */
  lemma ColorCube(n: nat) returns (r: nat, g: nat, b: nat)
    requires 16 <= n <= 231
    ensures r < 6 && g < 6 && b < 6 && n == 16 + 36 * r + 6 * g + b
    ensures EightBitColor(n) == Rgb(51 * r, 51 * g, 51 * b)
  {
    r, g, b := (n - 16) / 36, ((n - 16) / 6) % 6, (n - 16) % 6;
    DigitsOfSix(n - 16);
    StepOfCube(r);
    StepOfCube(g);
    StepOfCube(b);
  }

  /** The colours 232 to 255 are greys, from black to white, each lighter than
      the one before. */
  lemma GreyRamp(n: nat)
    requires 232 <= n <= 255
    ensures var c := EightBitColor(n);
            && c.Rgb? && c.red == c.green == c.blue < 256
            && (n == 232 ==> c.red == 0) && (n == 255 ==> c.red == 255)
            && (n < 255 ==> EightBitColor(n + 1).Rgb? && c.red < EightBitColor(n + 1).red)
  {
  }

  lemma PaletteIsNameable(n: nat)
    requires n < 256
    ensures EightBitColor(n) != Unset && IsNameable(EightBitColor(n))
  {
    if 16 <= n <= 231 {
      var r, g, b := ColorCube(n);
    } else if n > 231 {
      GreyRamp(n);
    }
  }

  /** What is no number counts as 0, and leading zeros do not count. */
  lemma OtherNumbers(s: string)
    ensures (s == "" || exists i :: 0 <= i < |s| && !IsDigit(s[i])) ==> Atoi(s) == 0
    ensures s != "" ==> Atoi("0" + s) == Atoi(s)
  {
    var t := "0" + s;
    assert t[1..] == s;
    assert forall i :: 0 <= i < |s| ==> t[i + 1] == s[i];
    if s != "" && forall i :: 0 <= i < |s| ==> IsDigit(s[i]) {
      LeadingZero(s);
    }
  }

  lemma {:induction false} LeadingZero(s: string)
    requires forall i :: 0 <= i < |s| ==> IsDigit(s[i])
    ensures forall i :: 0 <= i < |"0" + s| ==> IsDigit(("0" + s)[i])
    ensures Value("0" + s) == Value(s)
    decreases |s|
  {
    var t := "0" + s;
    if s == "" {
      assert t == "0" && t[..0] == "";
    } else {
      LeadingZero(s[..|s| - 1]);
      assert t[..|t| - 1] == "0" + s[..|s| - 1];
    }
  }

  /** The number that hexadecimal digits stand for. */
  function HexNumber(s: string): nat {
    if s == "" then 0 else 16 * HexNumber(s[..|s| - 1]) + HexValue(s[|s| - 1])
  }

  /** Larger numbers are written with all their digits, and no zero before them. */
  lemma {:induction false} HexIsReadBack(n: nat)
    ensures HexNumber(Hex(n)) == n && Hex(n) != "" && (n > 0 ==> Hex(n)[0] != '0')
    decreases n
  {
    DigitIsRead(n % 16);
    if n < 16 {
      assert Hex(n)[..0] == "";
    } else {
      HexIsReadBack(n / 16);
      var s := Hex(n / 16);
      assert (s + [HexDigits[n % 16]])[..|s|] == s;
    }
  }
}
