/** What single escape sequences show, said about the runes that are read: resets,
    basic colours by their names, attributes, and next lines. */
module AnsiSequences {
  import opened Shared
  import opened Decimals
  import opened AnsiColors
  import opened AnsiRenditions
  import opened AnsiParsing
  import opened AnsiMeaning

  /** The classes of bytes in a control sequence, of section 5.4 of ECMA-48. */
  lemma ByteClasses(r: char)
    ensures IsParameter(r) <==> IsDigit(r) || r in ":;<=>?"
    ensures IsIntermediate(r) <==> r in " !\"#$%&'()*+,-./"
    ensures IsFinal(r) <==> '@' <= r <= '~'
  {
  }

  predicate IsParameters(s: string) {
    forall i :: 0 <= i < |s| ==> IsParameter(s[i])
  }

  lemma {:induction false} ParametersOf(s: string)
    requires IsParameters(s)
    ensures Parameters(s) == s
    decreases |s|
  {
    if s != "" {
      ParametersOf(s[..|s| - 1]);
      assert IsParameter(s[|s| - 1]);
    }
  }

  /** Reading ESC [ parameter last adds atoms to what is shown, and ends in text. */
  ghost predicate SequenceAdds(p: Parser, parameter: string, last: char, atoms: seq<Atom>) {
    var q := StepAll(p, [ESC] + ("[" + parameter + [last]));
    q.control.mode == Text && Shown(q) == Shown(p) + atoms
  }

  lemma SequenceDoes(p: Parser, parameter: string, last: char)
    requires p.control.mode == Text && IsParameters(parameter) && IsFinal(last)
    ensures SequenceAdds(p, parameter, last, ControlShows(parameter, last))
  {
    StepAllPlus(p, [ESC], "[" + parameter + [last]);
    StepOne(p, ESC);
    StepShows(p, ESC);
    ParametersOf(parameter);
    CsiRead(Step(p, ESC), parameter, last);
  }

  lemma AddsJustThat(p: Parser, parameter: string, last: char, atoms: seq<Atom>, others: seq<Atom>)
    requires SequenceAdds(p, parameter, last, atoms) && SequenceAdds(p, parameter, last, others)
    ensures atoms == others
  {
    assert atoms == (Shown(p) + atoms)[|Shown(p)|..];
    assert others == (Shown(p) + others)[|Shown(p)|..];
  }

  // ---- resets ----

  lemma {:induction false} LastIsNotDefault(asked: seq<Color>)
    requires forall i :: 0 <= i < |asked| ==> asked[i] != Default
    ensures LastAsked(asked) != Default
    decreases |asked|
  {
    if asked != [] {
      LastIsNotDefault(asked[..|asked| - 1]);
    }
  }

  lemma EightBitIsNotDefault(n: nat)
    ensures EightBitColor(n) != Default
  {
  }

  lemma ExtendedIsNotDefault(fields: seq<string>, i: nat)
    requires i < |fields|
    ensures ExtendedColor(fields, i) != Default
  {
    if i + 2 < |fields| {
      EightBitIsNotDefault(Atoi(fields[i + 2]));
    }
  }

  lemma AskedIsNotDefault(c: int, extended: Color)
    requires extended != Default
    ensures ForegroundOf(c, extended) != Default && BackgroundOf(c, extended) != Default
  {
  }

  lemma NoFieldResets(fields: seq<string>)
    ensures LastAsked(Foregrounds(fields)) != Default && LastAsked(Backgrounds(fields)) != Default
  {
    forall i | 0 <= i < |fields|
      ensures Foregrounds(fields)[i] != Default && Backgrounds(fields)[i] != Default
    {
      ExtendedIsNotDefault(fields, i);
      AskedIsNotDefault(CodeOf(fields[i]), ExtendedColor(fields, i));
    }
    LastIsNotDefault(Foregrounds(fields));
    LastIsNotDefault(Backgrounds(fields));
  }

  /** A rendition resets both colours if and only if its parameter is 0. */
  lemma ResetsExactlyWhen(p: Parser, parameter: string)
    requires p.control.mode == Text && IsParameters(parameter)
    ensures SequenceAdds(p, parameter, 'm', [Colour(Foreground(Default)), Colour(Background(Default))]) <==> parameter == "0"
  {
    SequenceDoes(p, parameter, 'm');
    NoFieldResets(Fields(parameter));
    if SequenceAdds(p, parameter, 'm', [Colour(Foreground(Default)), Colour(Background(Default))]) {
      AddsJustThat(p, parameter, 'm', RenditionShows(parameter), [Colour(Foreground(Default)), Colour(Background(Default))]);
    }
  }

  /** A rendition without a parameter, which stands for 0 in ECMA-48, does nothing here. */
  lemma NoParameterDoesNothing(p: Parser)
    requires p.control.mode == Text
    ensures SequenceAdds(p, "", 'm', [])
  {
    SequenceDoes(p, "", 'm');
    OneAsks("");
  }

  // ---- one field ----

  lemma OneAsks(f: string)
    requires ';' !in f
    ensures Fields(f) == [f]
    ensures LastAsked(Foregrounds([f])) == ForegroundOf(CodeOf(f), Unset)
    ensures LastAsked(Backgrounds([f])) == BackgroundOf(CodeOf(f), Unset)
    ensures true in Restyling([f]) <==> Restyles(f)
  {
    OneField(f);
    AskAt([f], 0, CodeOf(f), Unset);
    AskedLast([], Foregrounds([f])[0]);
    AskedLast([], Backgrounds([f])[0]);
    assert Foregrounds([f]) == [] + [Foregrounds([f])[0]] && Backgrounds([f]) == [] + [Backgrounds([f])[0]];
    assert Restyling([f])[0] == Restyles(f);
  }

  const BasicNames := ["black", "red", "green", "yellow", "blue", "darkmagenta", "darkcyan", "white"]

  const BrightNames := ["#7f7f7f", "#ff0000", "#00ff00", "#ffff00", "#5c5cff", "#ff00ff", "#00ffff", "#ffffff"]

  lemma NamesOfColors(k: nat)
    requires k < 8
    ensures ColorName(Named(k)) == BasicNames[k] && ColorName(BrightColor(k)) == BrightNames[k]
  {
    NameOfBright(k);
  }

  lemma NameOfBright(k: nat)
    requires k < 8
    ensures ColorName(BrightColor(k)) == BrightNames[k]
  {
    HexOfPair(127, "7f");
    HexOfPair(255, "ff");
    HexOfPair(92, "5c");
    HexOfPair(0, "00");
  }

  lemma HexOfPair(n: nat, s: string)
    requires n < 256 && |s| == 2 && HexDigits[n / 16] == s[0] && HexDigits[n % 16] == s[1]
    ensures TwoDigitHex(n) == s
  {
    assert Hex(n / 16) == [HexDigits[n / 16]];
    if n < 16 {
      assert HexDigits[n / 16] == '0';
    }
  }

  /** The field asks for these colours. */
  ghost predicate Sets(p: Parser, f: string, fg: Color, bg: Color) {
    SequenceAdds(p, f, 'm', [Colour(Foreground(fg)), Colour(Background(bg))])
  }

  lemma FieldDoes(p: Parser, f: string)
    requires p.control.mode == Text && IsParameters(f) && ';' !in f && f != "0"
    ensures var fg, bg := ForegroundOf(CodeOf(f), Unset), BackgroundOf(CodeOf(f), Unset);
            if fg == Unset && bg == Unset && !Restyles(f) then SequenceAdds(p, f, 'm', []) else Sets(p, f, fg, bg)
  {
    SequenceDoes(p, f, 'm');
    OneAsks(f);
  }

  lemma CodeDoes(p: Parser, text: string, tens: nat, k: nat)
    requires p.control.mode == Text && 1 <= tens < 20 && k < 8 && text == Decimal(tens)
    requires var c := 10 * tens + k; ForegroundOf(c, Unset) != Unset || BackgroundOf(c, Unset) != Unset
    ensures var c := 10 * tens + k; Sets(p, text + [Digit(k)], ForegroundOf(c, Unset), BackgroundOf(c, Unset))
  {
    var f := text + [Digit(k)];
    TensAreCoded(tens, k);
    TensPrinted(tens, k);
    DecimalIsDigits(10 * tens + k);
    assert |f| >= 2 by {
      DecimalLength(tens);
    }
    FieldDoes(p, f);
  }

  lemma BasicDecades()
    ensures Decimal(3) == "3" && Decimal(4) == "4" && Decimal(9) == "9" && Decimal(10) == "10"
  {
    Printed(10);
  }

  /** The codes 30 to 37 and 90 to 97 set a foreground of the two tables of names,
      40 to 47 and 100 to 107 a background, and each leaves the other unset. */
  lemma BasicCodesSet(p: Parser, k: nat) returns (basic: Color, bright: Color)
    requires p.control.mode == Text && k < 8
    ensures ColorName(basic) == BasicNames[k] && ColorName(bright) == BrightNames[k]
    ensures Sets(p, "3" + [Digit(k)], basic, Unset) && Sets(p, "4" + [Digit(k)], Unset, basic)
    ensures Sets(p, "9" + [Digit(k)], bright, Unset) && Sets(p, "10" + [Digit(k)], Unset, bright)
  {
    NamesOfColors(k);
    BasicDecades();
    basic, bright := Named(k), BrightColor(k);
    CodeDoes(p, "3", 3, k);
    CodeDoes(p, "4", 4, k);
    CodeDoes(p, "9", 9, k);
    CodeDoes(p, "10", 10, k);
  }

  predicate IsStyle(f: string) {
    f in {"1", "01", "2", "02", "4", "04", "5", "05", "7", "07", "22", "24", "25", "27"}
  }

  predicate IsColorField(f: string) {
    || f in {"30", "31", "32", "33", "34", "35", "36", "37"}
    || f in {"40", "41", "42", "43", "44", "45", "46", "47"}
    || f in {"90", "91", "92", "93", "94", "95", "96", "97"}
    || f in {"100", "101", "102", "103", "104", "105", "106", "107"}
  }

  /** A parameter that is one field unsets both colours if and only if it is that
      of an attribute, and does nothing if and only if it is no code at all. */
  lemma OneFieldShows(p: Parser, f: string)
    requires p.control.mode == Text && IsParameters(f) && ';' !in f
    ensures Sets(p, f, Unset, Unset) <==> IsStyle(f)
    ensures SequenceAdds(p, f, 'm', []) <==> f != "0" && !IsStyle(f) && !IsColorField(f)
  {
    OnlyOne(p, f);
    if f == "0" {
      ResetsExactlyWhen(p, f);
      assert Sets(p, f, Default, Default);
    } else {
      FieldDoes(p, f);
      FieldAsks(f);
    }
  }

  lemma FieldAsks(f: string)
    ensures Restyles(f) <==> IsStyle(f)
    ensures IsColorField(f) <==> ForegroundOf(CodeOf(f), Unset) != Unset || BackgroundOf(CodeOf(f), Unset) != Unset
    ensures IsStyle(f) ==> !IsColorField(f)
  {
    StyleAsks(f);
    ColorAsks(f);
    RestylesNoColor(f);
  }

  lemma StyleAsks(f: string)
    ensures Restyles(f) <==> IsStyle(f)
  {
    AttributesAsWritten(f);
  }

  lemma ColorAsks(f: string)
    ensures IsColorField(f) <==> ForegroundOf(CodeOf(f), Unset) != Unset || BackgroundOf(CodeOf(f), Unset) != Unset
    ensures IsColorField(f) ==> !NoColor(CodeOf(f))
  {
    ColorsAsWritten(f);
    if CodeOf(f) >= 0 {
      CodesAsk(CodeOf(f));
    }
  }

  lemma CodesAsk(c: nat)
    ensures IsColorCode(c) <==> ForegroundOf(c, Unset) != Unset || BackgroundOf(c, Unset) != Unset
  {
  }

  lemma OnlyOne(p: Parser, f: string)
    ensures forall fg, bg, fg', bg' :: Sets(p, f, fg, bg) && Sets(p, f, fg', bg') ==> fg == fg' && bg == bg'
    ensures forall fg, bg :: Sets(p, f, fg, bg) ==> !SequenceAdds(p, f, 'm', [])
  {
    forall fg, bg, fg', bg' | Sets(p, f, fg, bg) && Sets(p, f, fg', bg')
      ensures fg == fg' && bg == bg'
    {
      var a, b := [Colour(Foreground(fg)), Colour(Background(bg))], [Colour(Foreground(fg')), Colour(Background(bg'))];
      AddsJustThat(p, f, 'm', a, b);
      assert a[0] == b[0] && a[1] == b[1];
    }
    forall fg, bg | Sets(p, f, fg, bg)
      ensures !SequenceAdds(p, f, 'm', [])
    {
      if SequenceAdds(p, f, 'm', []) {
        AddsJustThat(p, f, 'm', [Colour(Foreground(fg)), Colour(Background(bg))], []);
      }
    }
  }

  // ---- other final bytes ----

  /** Next line goes as many lines on as its parameter prints, and one for none. */
  lemma NextLineShows(p: Parser, n: nat)
    requires p.control.mode == Text && 1 <= n <= MaxInt
    ensures SequenceAdds(p, Decimal(n), 'E', NewLines(n))
    ensures SequenceAdds(p, "", 'E', [Rune('\n')]) && SequenceAdds(p, "0", 'E', [Rune('\n')])
  {
    DecimalIsDigits(n);
    AtoiReadsDecimal(n);
    AtoiReadsDecimal(0);
    assert Decimal(0) == "0" && NewLines(1) == [Rune('\n')];
    SequenceDoes(p, Decimal(n), 'E');
    SequenceDoes(p, "", 'E');
    SequenceDoes(p, "0", 'E');
  }

  /** No other control sequence shows anything. */
  lemma OthersShowNothing(p: Parser, parameter: string, last: char)
    requires p.control.mode == Text && IsParameters(parameter) && '@' <= last <= '~' && last != 'm' && last != 'E'
    ensures SequenceAdds(p, parameter, last, [])
  {
    SequenceDoes(p, parameter, last);
  }

  // ---- extended colours without their arguments ----

  lemma TwoAsk(code: nat, g: string)
    requires (code == 38 || code == 48) && ';' !in g
    ensures Fields(Decimal(code) + ";" + g) == [Decimal(code), g]
    ensures var fields := [Decimal(code), g];
            && LastAsked(Foregrounds(fields)) == ForegroundOf(CodeOf(g), Unset)
            && LastAsked(Backgrounds(fields)) == BackgroundOf(CodeOf(g), Unset)
            && (true in Restyling(fields) <==> Restyles(g))
  {
    var f := Decimal(code);
    var fields := [f, g];
    NumberHasNoSemicolon(code);
    OneField(f);
    FieldsSnoc(f, g);
    assert [f] + [g] == fields;
    CodeOfDecimal(code);
    AskAt(fields, 0, code, Unset);
    AskAt(fields, 1, CodeOf(g), Unset);
    LastOfTwo(Foregrounds(fields));
    LastOfTwo(Backgrounds(fields));
    ExtendedIsNoStyle(code);
    assert Restyling(fields)[0] == Restyles(f) && Restyling(fields)[1] == Restyles(g);
  }

  lemma LastOfTwo(asked: seq<Color>)
    requires |asked| == 2
    ensures LastAsked(asked) == Foremost(asked[0], asked[1])
  {
    AskedLast([], asked[0]);
    AskedLast([asked[0]], asked[1]);
    assert [] + [asked[0]] == [asked[0]] && [asked[0]] + [asked[1]] == asked;
  }

  lemma ExtendedIsNoStyle(code: nat)
    requires code == 38 || code == 48
    ensures !Restyles(Decimal(code))
  {
    CodeOfDecimal(code);
    Printed(code);
  }

  lemma TwoParameters(code: nat, g: string)
    requires code < 100 && IsParameters(g)
    ensures IsParameters(Decimal(code) + ";" + g) && Decimal(code) + ";" + g != "0"
  {
    DecimalIsDigits(code);
    var s := Decimal(code) + ";" + g;
    assert s[|Decimal(code)|] == ';';
  }

  /** 38 or 48 with only one field after it does nothing itself: what is shown is
      what that field shows alone. */
  lemma ExtendedNeedsArguments(p: Parser, code: nat, g: string)
    requires p.control.mode == Text && (code == 38 || code == 48) && IsParameters(g) && ';' !in g && g != "0"
    ensures SequenceAdds(p, Decimal(code) + ";" + g, 'm', RenditionShows(g)) && SequenceAdds(p, g, 'm', RenditionShows(g))
  {
    TwoAsk(code, g);
    TwoParameters(code, g);
    OneAsks(g);
    SequenceDoes(p, Decimal(code) + ";" + g, 'm');
    SequenceDoes(p, g, 'm');
  }
}
