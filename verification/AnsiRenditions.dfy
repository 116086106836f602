/** What the parameters of a graphic rendition ask for. Fields are read by the
    numbers they print; what a rendition sets is stated without the switch over
    strings that the parser makes. */
module AnsiRenditions {
  import opened Shared
  import opened Decimals
  import opened AnsiColors

  // ---- fields ----

  function Fields(s: string): (fs: seq<string>)
    ensures |fs| >= 1
  {
    if s == "" then [""]
    else
      var fs, c := Fields(s[..|s| - 1]), s[|s| - 1];
      if c == ';' then fs + [""] else fs[..|fs| - 1] + [fs[|fs| - 1] + [c]]
  }

  function ExtendedColor(fields: seq<string>, index: nat): Color
    requires index < |fields|
  {
    if |fields| <= index + 1 then Unset
    else if fields[index + 1] == "5" && |fields| > index + 2 then EightBitColor(Atoi(fields[index + 2]))
    else if fields[index + 1] == "2" && |fields| > index + 4 then
      Rgb(Atoi(fields[index + 2]), Atoi(fields[index + 3]), Atoi(fields[index + 4]))
    else Unset
  }

  // ---- renditions ----

  /** The number a field prints; -1 if it is not how any number is printed. */
  function CodeOf(field: string): int {
    if field == Decimal(Atoi(field)) then Atoi(field) else -1
  }

  /** The foreground that a code asks for, if any; extended is the colour that
      the fields after it describe. */
  function ForegroundOf(c: int, extended: Color): Color {
    if 30 <= c <= 37 then LookupColor(c - 30, false)
    else if 90 <= c <= 97 then LookupColor(c - 90, true)
    else if c == 38 then extended
    else Unset
  }

  function BackgroundOf(c: int, extended: Color): Color {
    if 40 <= c <= 47 then LookupColor(c - 40, false)
    else if 100 <= c <= 107 then LookupColor(c - 100, true)
    else if c == 48 then extended
    else Unset
  }

  function Foregrounds(fields: seq<string>): (asked: seq<Color>)
    ensures |asked| == |fields|
    ensures forall i :: 0 <= i < |fields| ==> asked[i] == ForegroundOf(CodeOf(fields[i]), ExtendedColor(fields, i))
  {
    seq(|fields|, i requires 0 <= i < |fields| => ForegroundOf(CodeOf(fields[i]), ExtendedColor(fields, i)))
  }

  function Backgrounds(fields: seq<string>): (asked: seq<Color>)
    ensures |asked| == |fields|
    ensures forall i :: 0 <= i < |fields| ==> asked[i] == BackgroundOf(CodeOf(fields[i]), ExtendedColor(fields, i))
  {
    seq(|fields|, i requires 0 <= i < |fields| => BackgroundOf(CodeOf(fields[i]), ExtendedColor(fields, i)))
  }

  predicate SetsAttribute(c: int) {
    c == 1 || c == 2 || c == 4 || c == 5 || c == 7
  }

  /** The field sets or clears an attribute. One digit may have a leading zero. */
  predicate Restyles(field: string) {
    || SetsAttribute(CodeOf(field))
    || (|field| == 2 && field[0] == '0' && SetsAttribute(CodeOf(field[1..])))
    || CodeOf(field) == 22 || CodeOf(field) == 24 || CodeOf(field) == 25 || CodeOf(field) == 27
  }

  function Restyling(fields: seq<string>): (r: seq<bool>)
    ensures |r| == |fields| && forall i :: 0 <= i < |fields| ==> r[i] == Restyles(fields[i])
  {
    seq(|fields|, i requires 0 <= i < |fields| => Restyles(fields[i]))
  }

  function Foremost(a: Color, b: Color): Color {
    if b != Unset then b else a
  }

  /** The last to ask for a colour counts. */
  function LastAsked(asked: seq<Color>): Color {
    if asked == [] then Unset else Foremost(LastAsked(asked[..|asked| - 1]), asked[|asked| - 1])
  }

  lemma AskedNext(asked: seq<Color>, i: nat)
    requires i < |asked|
    ensures LastAsked(asked[..i + 1]) == Foremost(LastAsked(asked[..i]), asked[i])
  {
    assert asked[..i + 1][..i] == asked[..i];
  }

  /** What the first n fields ask for. */
  ghost predicate AskedSoFar(fields: seq<string>, n: nat, fg: Color, bg: Color, restyled: bool)
    requires n <= |fields|
  {
    && fg == LastAsked(Foregrounds(fields)[..n]) && bg == LastAsked(Backgrounds(fields)[..n])
    && (restyled <==> true in Restyling(fields)[..n])
  }

  lemma AskedOneMore(fields: seq<string>, n: nat, fg: Color, bg: Color, restyled: bool)
    requires n < |fields| && AskedSoFar(fields, n, fg, bg, restyled)
    ensures AskedSoFar(fields, n + 1, Foremost(fg, Foregrounds(fields)[n]), Foremost(bg, Backgrounds(fields)[n]), restyled || Restyles(fields[n]))
  {
    AskedNext(Foregrounds(fields), n);
    AskedNext(Backgrounds(fields), n);
    StylesNext(Restyling(fields), n);
  }

  lemma StylesNext(styles: seq<bool>, n: nat)
    requires n < |styles|
    ensures true in styles[..n + 1] <==> true in styles[..n] || styles[n]
  {
    assert styles[..n + 1] == styles[..n] + [styles[n]];
  }

  lemma AskedAll(fields: seq<string>, fg: Color, bg: Color, restyled: bool)
    requires AskedSoFar(fields, |fields|, fg, bg, restyled)
    ensures fg == LastAsked(Foregrounds(fields)) && bg == LastAsked(Backgrounds(fields))
    ensures restyled <==> true in Restyling(fields)
  {
    assert Foregrounds(fields)[..|fields|] == Foregrounds(fields) && Backgrounds(fields)[..|fields|] == Backgrounds(fields);
    assert Restyling(fields)[..|fields|] == Restyling(fields);
  }

  datatype Rendition = Ignored | Colored(fg: Color, bg: Color)

  function Combined(fgs: seq<Color>, bgs: seq<Color>, styles: seq<bool>): Rendition {
    var fg, bg := LastAsked(fgs), LastAsked(bgs);
    if fg != Unset || bg != Unset || true in styles then Colored(fg, bg) else Ignored
  }

  function RenditionOfFields(fields: seq<string>): Rendition {
    if fields == ["0"] then Colored(Default, Default)
    else Combined(Foregrounds(fields), Backgrounds(fields), Restyling(fields))
  }

  function RenditionOf(parameter: string): Rendition {
    RenditionOfFields(Fields(parameter))
  }

  // ---- what a rendition sets ----

  /** What is asked at i, and not later, is what is set. */
  ghost predicate SetTo(asked: seq<Color>, color: Color) {
    && (color == Unset <==> forall i :: 0 <= i < |asked| ==> asked[i] == Unset)
    && forall i :: 0 <= i < |asked| && asked[i] != Unset && (forall j :: i < j < |asked| ==> asked[j] == Unset) ==> color == asked[i]
  }

  lemma {:induction false} LastAskedIsSet(asked: seq<Color>)
    ensures SetTo(asked, LastAsked(asked))
    decreases |asked|
  {
    if asked != [] {
      LastAskedIsSet(asked[..|asked| - 1]);
      assert asked == asked[..|asked| - 1] + [asked[|asked| - 1]];
      SetToOneMore(asked[..|asked| - 1], LastAsked(asked[..|asked| - 1]), asked[|asked| - 1]);
    }
  }

  lemma SetToOneMore(asked: seq<Color>, color: Color, c: Color)
    requires SetTo(asked, color)
    ensures SetTo(asked + [c], Foremost(color, c))
  {
    var more := asked + [c];
    assert more[|asked|] == c;
    forall i | 0 <= i < |asked|
      ensures more[i] == asked[i]
    {
    }
    forall i | 0 <= i < |more| && more[i] != Unset && (forall j :: i < j < |more| ==> more[j] == Unset)
      ensures Foremost(color, c) == more[i]
    {
      if i < |asked| {
        assert more[|asked|] == Unset;
        assert forall j :: i < j < |asked| ==> more[j] == asked[j];
      }
    }
  }

  lemma CombinedSets(fgs: seq<Color>, bgs: seq<Color>, styles: seq<bool>)
    ensures Combined(fgs, bgs, styles).Colored? ==> SetTo(fgs, Combined(fgs, bgs, styles).fg) && SetTo(bgs, Combined(fgs, bgs, styles).bg)
    ensures Combined(fgs, bgs, styles).Ignored? <==> SetTo(fgs, Unset) && SetTo(bgs, Unset) && true !in styles
  {
    LastAskedIsSet(fgs);
    LastAskedIsSet(bgs);
  }

  /** A rendition sets each colour to what the last field that asks for one asks,
      and an unasked one to nothing; it has no effect exactly when no field asks
      for anything. */
  lemma RenditionSets(fields: seq<string>)
    requires fields != ["0"]
    ensures var r := RenditionOfFields(fields);
            && (r.Colored? ==> SetTo(Foregrounds(fields), r.fg) && SetTo(Backgrounds(fields), r.bg))
            && (r.Ignored? <==> SetTo(Foregrounds(fields), Unset) && SetTo(Backgrounds(fields), Unset) && true !in Restyling(fields))
  {
    CombinedSets(Foregrounds(fields), Backgrounds(fields), Restyling(fields));
  }

  // ---- parameters and their fields ----

  function Joined(fields: seq<string>): string
    requires fields != []
  {
    if |fields| == 1 then fields[0] else Joined(fields[..|fields| - 1]) + ";" + fields[|fields| - 1]
  }

  /** The fields of a parameter string are what its semicolons separate. */
  lemma {:induction false} FieldsAreSeparated(s: string)
    ensures Joined(Fields(s)) == s
    ensures forall i :: 0 <= i < |Fields(s)| ==> ';' !in Fields(s)[i]
    decreases |s|
  {
    if s != "" {
      var init, c := s[..|s| - 1], s[|s| - 1];
      FieldsAreSeparated(init);
      var before, fs := Fields(init), Fields(s);
      assert s == init + [c];
      if c == ';' {
        assert fs[..|fs| - 1] == before;
        assert Joined(before) + ";" + "" == s;
      } else {
        assert fs[..|fs| - 1] == before[..|before| - 1];
        if |fs| > 1 {
          Associative(Joined(before[..|before| - 1]) + ";", before[|before| - 1], [c]);
        }
      }
    }
  }

  lemma FieldGrows(s: string, c: char)
    requires c != ';'
    ensures var fs := Fields(s); Fields(s + [c]) == fs[..|fs| - 1] + [fs[|fs| - 1] + [c]]
  {
    assert (s + [c])[..|s|] == s;
  }

  lemma FieldEnds(s: string)
    ensures Fields(s + ";") == Fields(s) + [""]
  {
    assert (s + ";")[..|s|] == s;
  }

  lemma LastGrows(fs: seq<string>, g: string, c: char)
    ensures var all := fs + [g]; all[..|all| - 1] + [all[|all| - 1] + [c]] == fs + [g + [c]]
  {
    assert (fs + [g])[..|fs|] == fs;
  }

  lemma {:induction false} FieldsSnoc(s: string, f: string)
    requires ';' !in f
    ensures Fields(s + ";" + f) == Fields(s) + [f]
    decreases |f|
  {
    if f == "" {
      FieldEnds(s);
      assert s + ";" + f == s + ";";
    } else {
      var g, c := f[..|f| - 1], f[|f| - 1];
      assert f == g + [c];
      FieldsSnoc(s, g);
      FieldGrows(s + ";" + g, c);
      Associative(s + ";", g, [c]);
      LastGrows(Fields(s), g, c);
    }
  }

  lemma {:induction false} OneField(f: string)
    requires ';' !in f
    ensures Fields(f) == [f]
    decreases |f|
  {
    if f != "" {
      var g, c := f[..|f| - 1], f[|f| - 1];
      OneField(g);
      FieldGrows(g, c);
      assert g + [c] == f;
    }
  }

  lemma NumberHasNoSemicolon(n: nat)
    ensures ';' !in Decimal(n)
  {
    DecimalIsDigits(n);
  }

  lemma CodeOfDecimal(n: nat)
    requires n <= MaxInt
    ensures CodeOf(Decimal(n)) == n && Atoi(Decimal(n)) == n
  {
    AtoiReadsDecimal(n);
  }

  lemma FiveAndTwo()
    ensures Decimal(5) == "5" && Decimal(2) == "2" && CodeOf("5") == 5 && CodeOf("2") == 2
  {
    assert Decimal(5) == "5" && Decimal(2) == "2";
    CodeOfDecimal(5);
    CodeOfDecimal(2);
  }

  // ---- palette and 24-bit colours, and their arguments read again ----

  /** The codes that ask for a basic colour. */
  predicate IsColorCode(n: nat) {
    30 <= n <= 37 || 40 <= n <= 47 || 90 <= n <= 97 || 100 <= n <= 107
  }

  /** A code from 90 on does not occur among the bytes of its colour, and the
      others have no bytes. */
  lemma BasicIsNotItsBytes(n: nat, c: Color)
    requires IsColorCode(n) && c.Rgb? && (c.red == n || c.green == n || c.blue == n)
    ensures ForegroundOf(n, Unset) != c && BackgroundOf(n, Unset) != c
    ensures ForegroundOf(n, Unset) != Unset || BackgroundOf(n, Unset) != Unset
  {
  }

  lemma BasicIsNotPalette(n: nat)
    requires IsColorCode(n)
    ensures ForegroundOf(n, Unset) != EightBitColor(n) && BackgroundOf(n, Unset) != EightBitColor(n)
    ensures ForegroundOf(n, Unset) != Unset || BackgroundOf(n, Unset) != Unset
  {
    var r, g, b := ColorCube(n);
    assert n >= 90 ==> r == 2;
  }

  function PaletteFields(code: nat, n: nat): seq<string> {
    [Decimal(code), "5", Decimal(n)]
  }

  function PaletteParameter(code: nat, n: nat): string {
    Decimal(code) + ";" + "5" + ";" + Decimal(n)
  }

  lemma PaletteParameterFields(code: nat, n: nat)
    ensures Fields(PaletteParameter(code, n)) == PaletteFields(code, n)
  {
    NumberHasNoSemicolon(code);
    NumberHasNoSemicolon(n);
    OneField(Decimal(code));
    FieldsSnoc(Decimal(code), "5");
    FieldsSnoc(Decimal(code) + ";" + "5", Decimal(n));
  }

  /** What a field asks for, by its code and the colour described after it. */
  lemma AskAt(fields: seq<string>, i: nat, c: int, extended: Color)
    requires i < |fields| && CodeOf(fields[i]) == c && (c == 38 || c == 48 ==> ExtendedColor(fields, i) == extended)
    ensures Foregrounds(fields)[i] == ForegroundOf(c, extended) && Backgrounds(fields)[i] == BackgroundOf(c, extended)
  {
  }

  lemma FiveColors(asked: seq<Color>, a: Color, b: Color, c: Color, d: Color, e: Color)
    requires |asked| == 5 && asked[0] == a && asked[1] == b && asked[2] == c && asked[3] == d && asked[4] == e
    ensures asked == [a, b, c, d, e]
  {
  }

  lemma ThreeColors(asked: seq<Color>, a: Color, b: Color, c: Color)
    requires |asked| == 3 && asked[0] == a && asked[1] == b && asked[2] == c
    ensures asked == [a, b, c]
  {
  }

  lemma PaletteAsks(code: nat, n: nat)
    requires (code == 38 || code == 48) && n < 256
    ensures Foregrounds(PaletteFields(code, n)) == [ForegroundOf(code, EightBitColor(n)), Unset, ForegroundOf(n, Unset)]
    ensures Backgrounds(PaletteFields(code, n)) == [BackgroundOf(code, EightBitColor(n)), Unset, BackgroundOf(n, Unset)]
  {
    var fields := PaletteFields(code, n);
    CodeOfDecimal(code);
    CodeOfDecimal(n);
    FiveAndTwo();
    AskAt(fields, 0, code, EightBitColor(n));
    AskAt(fields, 1, 5, Unset);
    AskAt(fields, 2, n, Unset);
    ThreeColors(Foregrounds(fields), ForegroundOf(code, EightBitColor(n)), Unset, ForegroundOf(n, Unset));
    ThreeColors(Backgrounds(fields), BackgroundOf(code, EightBitColor(n)), Unset, BackgroundOf(n, Unset));
  }

  lemma AskedLast(asked: seq<Color>, c: Color)
    ensures LastAsked(asked + [c]) == Foremost(LastAsked(asked), c)
  {
    assert (asked + [c])[..|asked|] == asked;
  }

  lemma LastOfThree(a: Color, b: Color)
    ensures LastAsked([a, Unset, b]) == Foremost(a, b)
  {
    AskedLast([], a);
    AskedLast([a], Unset);
    AskedLast([a, Unset], b);
    assert [] + [a] == [a] && [a] + [Unset] == [a, Unset] && [a, Unset] + [b] == [a, Unset, b];
  }

  lemma PaletteRendition(code: nat, n: nat)
    requires (code == 38 || code == 48) && n < 256
    ensures RenditionOf(PaletteParameter(code, n)) ==
            Colored(Foremost(ForegroundOf(code, EightBitColor(n)), ForegroundOf(n, Unset)),
                    Foremost(BackgroundOf(code, EightBitColor(n)), BackgroundOf(n, Unset)))
  {
    PaletteParameterFields(code, n);
    PaletteAsks(code, n);
    PaletteIsNameable(n);
    LastOfThree(ForegroundOf(code, EightBitColor(n)), ForegroundOf(n, Unset));
    LastOfThree(BackgroundOf(code, EightBitColor(n)), BackgroundOf(n, Unset));
    assert PaletteFields(code, n) != ["0"];
  }

  /** Colour n of the palette is what 38;5;n sets as foreground, or 48;5;n as
      background, if and only if n is neither the number of a bright colour nor
      the code of a basic one: the parser reads the argument again, as a code. */
  lemma PaletteColorIsSetExactlyWhen(n: nat)
    requires n < 256
    ensures RenditionOf(PaletteParameter(38, n)) == Colored(Palette(n), Unset) <==> !IsColorCode(n) && !IsBrightNumber(n)
    ensures RenditionOf(PaletteParameter(48, n)) == Colored(Unset, Palette(n)) <==> !IsColorCode(n) && !IsBrightNumber(n)
  {
    PaletteRendition(38, n);
    PaletteRendition(48, n);
    PaletteIsNameable(n);
    PaletteIsRightExactlyWhen(n);
    if IsColorCode(n) {
      BasicIsNotPalette(n);
    }
  }

  function RgbFields(code: nat, r: nat, g: nat, b: nat): seq<string> {
    [Decimal(code), "2", Decimal(r), Decimal(g), Decimal(b)]
  }

  function RgbParameter(code: nat, r: nat, g: nat, b: nat): string {
    Decimal(code) + ";" + "2" + ";" + Decimal(r) + ";" + Decimal(g) + ";" + Decimal(b)
  }

  lemma TwoMoreFields(s: string, a: string, b: string)
    requires ';' !in a && ';' !in b
    ensures Fields(s + ";" + a + ";" + b) == Fields(s) + [a, b]
  {
    FieldsSnoc(s, a);
    FieldsSnoc(s + ";" + a, b);
    Associative(Fields(s), [a], [b]);
  }

  lemma RgbParameterFields(code: nat, r: nat, g: nat, b: nat)
    ensures Fields(RgbParameter(code, r, g, b)) == RgbFields(code, r, g, b)
  {
    NumberHasNoSemicolon(code);
    NumberHasNoSemicolon(r);
    NumberHasNoSemicolon(g);
    NumberHasNoSemicolon(b);
    var s := Decimal(code);
    OneField(s);
    TwoMoreFields(s, "2", Decimal(r));
    TwoMoreFields(s + ";" + "2" + ";" + Decimal(r), Decimal(g), Decimal(b));
  }

  /** What a red of 38 or 48 with a green of 5 asks for: a palette colour. */
  function Misread(g: nat, b: nat): Color {
    if g == 5 then EightBitColor(b) else Unset
  }

  lemma RgbAsks(code: nat, r: nat, g: nat, b: nat)
    requires (code == 38 || code == 48) && r < 256 && g < 256 && b < 256
    ensures Foregrounds(RgbFields(code, r, g, b)) ==
            [ForegroundOf(code, Rgb(r, g, b)), Unset, ForegroundOf(r, Misread(g, b)), ForegroundOf(g, Unset), ForegroundOf(b, Unset)]
    ensures Backgrounds(RgbFields(code, r, g, b)) ==
            [BackgroundOf(code, Rgb(r, g, b)), Unset, BackgroundOf(r, Misread(g, b)), BackgroundOf(g, Unset), BackgroundOf(b, Unset)]
  {
    RgbCodes(code, r, g, b);
    RgbExtended(code, r, g, b);
    var fields, rgb, misread := RgbFields(code, r, g, b), Rgb(r, g, b), Misread(g, b);
    AskAt(fields, 0, code, rgb);
    AskAt(fields, 1, 2, Unset);
    AskAt(fields, 2, r, misread);
    AskAt(fields, 3, g, Unset);
    AskAt(fields, 4, b, Unset);
    FiveColors(Foregrounds(fields), ForegroundOf(code, rgb), Unset, ForegroundOf(r, misread), ForegroundOf(g, Unset), ForegroundOf(b, Unset));
    FiveColors(Backgrounds(fields), BackgroundOf(code, rgb), Unset, BackgroundOf(r, misread), BackgroundOf(g, Unset), BackgroundOf(b, Unset));
  }

  lemma RgbCodes(code: nat, r: nat, g: nat, b: nat)
    requires code < 256 && r < 256 && g < 256 && b < 256
    ensures var fields := RgbFields(code, r, g, b);
            && CodeOf(fields[0]) == code && CodeOf(fields[1]) == 2
            && CodeOf(fields[2]) == r && CodeOf(fields[3]) == g && CodeOf(fields[4]) == b
  {
    CodeOfDecimal(code);
    CodeOfDecimal(r);
    CodeOfDecimal(g);
    CodeOfDecimal(b);
    FiveAndTwo();
  }

  lemma RgbExtended(code: nat, r: nat, g: nat, b: nat)
    requires r < 256 && g < 256 && b < 256
    ensures var fields := RgbFields(code, r, g, b);
            && ExtendedColor(fields, 0) == Rgb(r, g, b) && ExtendedColor(fields, 2) == Misread(g, b)
            && ExtendedColor(fields, 3) == Unset && ExtendedColor(fields, 4) == Unset
  {
    CodeOfDecimal(r);
    CodeOfDecimal(g);
    CodeOfDecimal(b);
    FiveAndTwo();
    if Decimal(g) == "5" {
      DecimalInjective(g, 5);
    }
    if Decimal(b) == "5" {
      DecimalInjective(b, 5);
    }
    var fields := RgbFields(code, r, g, b);
    assert fields[1] == "2" && fields[2] == Decimal(r) && fields[3] == Decimal(g) && fields[4] == Decimal(b);
  }

  lemma LastOfFive(a: Color, c: Color, d: Color, e: Color)
    ensures LastAsked([a, Unset, c, d, e]) == Foremost(Foremost(Foremost(a, c), d), e)
  {
    LastOfThree(a, c);
    AskedLast([a, Unset, c], d);
    AskedLast([a, Unset, c, d], e);
    assert [a, Unset, c] + [d] == [a, Unset, c, d] && [a, Unset, c, d] + [e] == [a, Unset, c, d, e];
  }

  lemma RgbRendition(code: nat, r: nat, g: nat, b: nat)
    requires (code == 38 || code == 48) && r < 256 && g < 256 && b < 256
    ensures RenditionOf(RgbParameter(code, r, g, b)) ==
            Colored(Foremost(Foremost(Foremost(ForegroundOf(code, Rgb(r, g, b)), ForegroundOf(r, Misread(g, b))), ForegroundOf(g, Unset)), ForegroundOf(b, Unset)),
                    Foremost(Foremost(Foremost(BackgroundOf(code, Rgb(r, g, b)), BackgroundOf(r, Misread(g, b))), BackgroundOf(g, Unset)), BackgroundOf(b, Unset)))
  {
    RgbParameterFields(code, r, g, b);
    RgbAsks(code, r, g, b);
    LastOfFive(ForegroundOf(code, Rgb(r, g, b)), ForegroundOf(r, Misread(g, b)), ForegroundOf(g, Unset), ForegroundOf(b, Unset));
    LastOfFive(BackgroundOf(code, Rgb(r, g, b)), BackgroundOf(r, Misread(g, b)), BackgroundOf(g, Unset), BackgroundOf(b, Unset));
    assert RgbFields(code, r, g, b) != ["0"];
  }

  /** One of the arguments is itself a code that asks for a colour. */
  predicate ArgumentsAsk(r: nat, g: nat, b: nat) {
    IsColorCode(r) || IsColorCode(g) || IsColorCode(b) || ((r == 38 || r == 48) && g == 5)
  }

  lemma MisreadIsNotRgb(r: nat, b: nat)
    requires (r == 38 || r == 48) && b < 256
    ensures EightBitColor(b) != Unset && EightBitColor(b) != Rgb(r, 5, b)
  {
    PaletteIsNameable(b);
    if 16 <= b <= 231 {
      var x, y, z := ColorCube(b);
    }
  }

  /** A 24-bit colour is what 38;2;r;g;b sets as foreground, or 48;2;r;g;b as
      background, if and only if none of its bytes is read again as a code that
      asks for a colour. */
  lemma RgbColorIsSetExactlyWhen(r: nat, g: nat, b: nat)
    requires r < 256 && g < 256 && b < 256
    ensures RenditionOf(RgbParameter(38, r, g, b)) == Colored(Rgb(r, g, b), Unset) <==> !ArgumentsAsk(r, g, b)
    ensures RenditionOf(RgbParameter(48, r, g, b)) == Colored(Unset, Rgb(r, g, b)) <==> !ArgumentsAsk(r, g, b)
  {
    RgbRendition(38, r, g, b);
    RgbRendition(48, r, g, b);
    var c := Rgb(r, g, b);
    if IsColorCode(r) {
      BasicIsNotItsBytes(r, c);
    }
    if IsColorCode(g) {
      BasicIsNotItsBytes(g, c);
    }
    if IsColorCode(b) {
      BasicIsNotItsBytes(b, c);
    }
    if (r == 38 || r == 48) && g == 5 {
      MisreadIsNotRgb(r, b);
    }
  }

  // ---- codes as the parser writes them ----

  lemma CodeIs(field: string, c: nat)
    requires c <= MaxInt
    ensures field == Decimal(c) <==> CodeOf(field) == c
  {
    AtoiReadsDecimal(c);
  }

  lemma Printed(c: nat)
    requires c < 200
    ensures Decimal(c) ==
            if c < 10 then [Digit(c)]
            else if c < 100 then [Digit(c / 10), Digit(c % 10)]
            else ['1', Digit((c - 100) / 10), Digit(c % 10)]
  {
    if c >= 100 {
      assert Decimal(c / 10) == ['1', Digit((c - 100) / 10)];
    }
  }

  lemma TensPrinted(tens: nat, k: nat)
    requires 1 <= tens < 20 && k < 10
    ensures Decimal(10 * tens + k) == Decimal(tens) + [Digit(k)]
  {
    assert (10 * tens + k) / 10 == tens && (10 * tens + k) % 10 == k;
  }

  lemma TensAreWritten(field: string, tens: nat)
    requires 1 <= tens < 20 && 10 * tens <= CodeOf(field) <= 10 * tens + 7
    ensures |field| == |Decimal(tens)| + 1 && field[..|field| - 1] == Decimal(tens) && '0' <= field[|field| - 1] <= '7'
  {
    var c := CodeOf(field);
    CodeIs(field, c);
    TensPrinted(tens, c - 10 * tens);
    assert (Decimal(tens) + [Digit(c - 10 * tens)])[..|Decimal(tens)|] == Decimal(tens);
  }

  lemma TensAreCoded(tens: nat, k: nat)
    requires 1 <= tens < 20 && k < 10
    ensures CodeOf(Decimal(tens) + [Digit(k)]) == 10 * tens + k
  {
    TensPrinted(tens, k);
    CodeOfDecimal(10 * tens + k);
  }

  lemma EndsInDigit(field: string) returns (k: nat)
    requires field != "" && '0' <= field[|field| - 1] <= '7'
    ensures k <= 7 && field == field[..|field| - 1] + [Digit(k)]
  {
    k := field[|field| - 1] as int - '0' as int;
  }

  lemma WrittenAreTens(field: string, tens: nat)
    requires 1 <= tens < 20
    requires |field| == |Decimal(tens)| + 1 && field[..|field| - 1] == Decimal(tens) && '0' <= field[|field| - 1] <= '7'
    ensures 10 * tens <= CodeOf(field) <= 10 * tens + 7
  {
    var k := EndsInDigit(field);
    TensAreCoded(tens, k);
  }

  lemma TensAsWritten(field: string, tens: nat, d: char)
    requires 1 <= tens < 20 && Decimal(tens) == (if tens < 10 then [d] else ['1', d])
    ensures 10 * tens <= CodeOf(field) <= 10 * tens + 7 <==>
            |field| == |Decimal(tens)| + 1 && field[..|field| - 1] == Decimal(tens) && '0' <= field[|field| - 1] <= '7'
  {
    if 10 * tens <= CodeOf(field) <= 10 * tens + 7 {
      TensAreWritten(field, tens);
    }
    if |field| == |Decimal(tens)| + 1 && field[..|field| - 1] == Decimal(tens) && '0' <= field[|field| - 1] <= '7' {
      WrittenAreTens(field, tens);
    }
  }

  lemma TwoDigits(field: string, d: char)
    ensures field in {[d, '0'], [d, '1'], [d, '2'], [d, '3'], [d, '4'], [d, '5'], [d, '6'], [d, '7']} <==>
            |field| == 2 && field[..1] == [d] && '0' <= field[1] <= '7'
  {
    if |field| == 2 && field[..1] == [d] && '0' <= field[1] <= '7' {
      assert field == [field[..1][0], field[1]];
    }
  }

  lemma ThreeDigits(field: string)
    ensures field in {"100", "101", "102", "103", "104", "105", "106", "107"} <==>
            |field| == 3 && field[..2] == "10" && '0' <= field[2] <= '7'
  {
    if |field| == 3 && field[..2] == "10" && '0' <= field[2] <= '7' {
      assert field == [field[..2][0], field[..2][1], field[2]];
    }
  }

  lemma DecadeAsWritten(field: string, tens: nat, d: char)
    requires 1 <= tens < 10 && d == Digit(tens)
    ensures field in {[d, '0'], [d, '1'], [d, '2'], [d, '3'], [d, '4'], [d, '5'], [d, '6'], [d, '7']} <==>
            10 * tens <= CodeOf(field) <= 10 * tens + 7
  {
    TensAsWritten(field, tens, d);
    TwoDigits(field, d);
  }

  lemma HundredsAsWritten(field: string)
    ensures field in {"100", "101", "102", "103", "104", "105", "106", "107"} <==> 100 <= CodeOf(field) <= 107
  {
    Printed(10);
    TensAsWritten(field, 10, '0');
    ThreeDigits(field);
  }

  lemma CodeAsWritten(field: string, c: nat, text: string)
    requires c < 100 && text == if c < 10 then [Digit(c)] else [Digit(c / 10), Digit(c % 10)]
    ensures field == text <==> CodeOf(field) == c
  {
    Printed(c);
    CodeIs(field, c);
  }

  lemma AttributeAsWritten(field: string, c: nat)
    requires c < 10
    ensures field == [Digit(c)] <==> CodeOf(field) == c
    ensures field == ['0', Digit(c)] <==> |field| == 2 && field[0] == '0' && CodeOf(field[1..]) == c
  {
    CodeAsWritten(field, c, [Digit(c)]);
    LeadingZeroAsWritten(field, c);
  }

  lemma LeadingZeroAsWritten(field: string, c: nat)
    requires c < 10
    ensures field == ['0', Digit(c)] <==> |field| == 2 && field[0] == '0' && CodeOf(field[1..]) == c
  {
    if |field| == 2 {
      CodeAsWritten(field[1..], c, [Digit(c)]);
      assert field == [field[0]] + field[1..];
    }
  }

  /** The strings of the switch, by the numbers they print. */
  lemma ColorsAsWritten(field: string)
    ensures field in {"30", "31", "32", "33", "34", "35", "36", "37"} <==> 30 <= CodeOf(field) <= 37
    ensures field in {"40", "41", "42", "43", "44", "45", "46", "47"} <==> 40 <= CodeOf(field) <= 47
    ensures field in {"90", "91", "92", "93", "94", "95", "96", "97"} <==> 90 <= CodeOf(field) <= 97
    ensures field in {"100", "101", "102", "103", "104", "105", "106", "107"} <==> 100 <= CodeOf(field) <= 107
    ensures (field == "38" <==> CodeOf(field) == 38) && (field == "48" <==> CodeOf(field) == 48)
    ensures CodeOf(field) >= 0 ==> CodeOf(field) == Atoi(field)
  {
    DecadeAsWritten(field, 3, '3');
    DecadeAsWritten(field, 4, '4');
    DecadeAsWritten(field, 9, '9');
    HundredsAsWritten(field);
    CodeAsWritten(field, 38, "38");
    CodeAsWritten(field, 48, "48");
  }

  predicate IsAttribute(field: string) {
    field in {"1", "01", "2", "02", "4", "04", "5", "05", "7", "07"}
  }

  lemma AttributesAsWritten(field: string)
    ensures IsAttribute(field) || field in {"22", "24", "25", "27"} <==> Restyles(field)
  {
    AttributeAsWritten(field, 1);
    AttributeAsWritten(field, 2);
    AttributeAsWritten(field, 4);
    AttributeAsWritten(field, 5);
    AttributeAsWritten(field, 7);
    CodeAsWritten(field, 22, "22");
    CodeAsWritten(field, 24, "24");
    CodeAsWritten(field, 25, "25");
    CodeAsWritten(field, 27, "27");
  }

  // ---- the switch ----

  datatype Case = Attribute(letter: string) | ClearAttributes | Plain(foreground: bool) | Bright(foreground: bool) | Extended(foreground: bool) | Other

  function CaseOfCode(c: int): Case
    requires !SetsAttribute(c)
  {
    if c == 22 || c == 24 || c == 25 || c == 27 then ClearAttributes
    else if 30 <= c <= 37 then Plain(true)
    else if 40 <= c <= 47 then Plain(false)
    else if 90 <= c <= 97 then Bright(true)
    else if 100 <= c <= 107 then Bright(false)
    else if c == 38 then Extended(true)
    else if c == 48 then Extended(false)
    else Other
  }

  method AttributeLetter(field: string) returns (letter: string)
    ensures letter != "" <==> IsAttribute(field)
  {
    letter :=
      if field == "1" || field == "01" then "b"
      else if field == "2" || field == "02" then "d"
      else if field == "4" || field == "04" then "u"
      else if field == "5" || field == "05" then "l"
      else if field == "7" || field == "07" then "7"
      else "";
  }

  method CaseOfColor(field: string) returns (c: Case)
    ensures c == if 30 <= CodeOf(field) <= 37 then Plain(true)
                 else if 40 <= CodeOf(field) <= 47 then Plain(false)
                 else if 90 <= CodeOf(field) <= 97 then Bright(true)
                 else if 100 <= CodeOf(field) <= 107 then Bright(false)
                 else if CodeOf(field) == 38 then Extended(true)
                 else if CodeOf(field) == 48 then Extended(false)
                 else Other
  {
    ColorsAsWritten(field);
    c :=
      if field in {"30", "31", "32", "33", "34", "35", "36", "37"} then Plain(true)
      else if field in {"40", "41", "42", "43", "44", "45", "46", "47"} then Plain(false)
      else if field in {"90", "91", "92", "93", "94", "95", "96", "97"} then Bright(true)
      else if field in {"100", "101", "102", "103", "104", "105", "106", "107"} then Bright(false)
      else if field == "38" then Extended(true)
      else if field == "48" then Extended(false)
      else Other;
  }

  /** Which case of the switch a field is, by the string it is. */
  method CaseOf(field: string) returns (c: Case)
    ensures c.Attribute? || c.ClearAttributes? <==> Restyles(field)
    ensures c.Attribute? ==> c.letter != ""
    ensures !Restyles(field) ==> !SetsAttribute(CodeOf(field)) && c == CaseOfCode(CodeOf(field))
    ensures Restyles(field) ==> NoColor(CodeOf(field))
  {
    AttributesAsWritten(field);
    RestylesNoColor(field);
    var letter := AttributeLetter(field);
    if letter != "" {
      return Attribute(letter);
    } else if field in {"22", "24", "25", "27"} {
      return ClearAttributes;
    }
    c := CaseOfColor(field);
  }

  predicate NoColor(c: int) {
    !(30 <= c <= 38) && !(40 <= c <= 48) && !(90 <= c <= 97) && !(100 <= c <= 107)
  }

  /** A number printed with a leading zero is not how a number is printed. */
  lemma RestylesNoColor(field: string)
    ensures Restyles(field) ==> NoColor(CodeOf(field))
  {
    if |field| == 2 && field[0] == '0' && CodeOf(field) >= 10 {
      var n := CodeOf(field);
      DecimalLength(n / 10);
      DecimalLength(n / 10 / 10);
      assert field[..1] == Decimal(n / 10);
      assert field[..1][0] == '0';
    }
  }
}
