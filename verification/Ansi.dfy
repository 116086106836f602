/** Translating text with ANSI escape sequences into directives, one rune at a
    time. The byte classes of a control sequence are those of section 5.4 of
    ECMA-48. */
module AnsiParsing {
  import opened AnsiColors
  import opened AnsiRenditions

  const ESC: char := 27 as char

  datatype Mode = Text | Escape | Substring | ControlSequence

  /** Where the parser is, and the control sequence read so far. */
  datatype Control = Control(mode: Mode, parameter: string, intermediate: string)

  datatype Directive = TextOf(text: string) | Foreground(color: Color) | Background(color: Color)

  datatype Parser = Parser(control: Control, buffer: string, directives: seq<Directive>)

  datatype Action = Nothing | Append(text: string) | SetColors(fg: Color, bg: Color)

  predicate IsParameter(r: char) {
    0x30 <= r as int <= 0x3f
  }

  predicate IsIntermediate(r: char) {
    0x20 <= r as int <= 0x2f
  }

  predicate IsFinal(r: char) {
    0x40 <= r as int <= 0x7e
  }

  // ---- one rune ----

  function GraphicRendition(parameter: string): Action {
    match RenditionOf(parameter)
    case Ignored => Nothing
    case Colored(fg, bg) => SetColors(fg, bg)
  }

  lemma RenditionPerforms(parameter: string, fields: seq<string>, fg: Color, bg: Color, restyled: bool)
    requires fields == Fields(parameter) && !(|fields| == 1 && fields[0] == "0")
    requires fg == LastAsked(Foregrounds(fields)) && bg == LastAsked(Backgrounds(fields))
    requires restyled <==> true in Restyling(fields)
    ensures GraphicRendition(parameter) == if fg != Unset || bg != Unset || restyled then SetColors(fg, bg) else Nothing
  {
    assert fields != ["0"];
  }

  function FinalAction(parameter: string, r: char): Action {
    if r == 'E' then Append(Repeat('\n', if Atoi(parameter) == 0 then 1 else Atoi(parameter)))
    else if r == 'm' then GraphicRendition(parameter)
    else Nothing
  }

  function ActionOf(c: Control, r: char): Action {
    match c.mode
    case Text => if r == ESC then Nothing else Append([r])
    case Escape => if r == 'c' then SetColors(Default, Default) else Nothing
    case Substring => Nothing
    case ControlSequence => if IsFinal(r) then FinalAction(c.parameter, r) else Nothing
  }

  function NextControl(c: Control, r: char): Control {
    match c.mode
    case Text => if r == ESC then c.(mode := Escape) else c
    case Escape =>
      if r == '[' then Control(ControlSequence, "", "")
      else if r in {'P', ']', 'X', '^', '_'} then c.(mode := Substring)
      else c.(mode := Text)
    case Substring => if r == ESC then c.(mode := Escape) else c
    case ControlSequence =>
      if IsParameter(r) then c.(parameter := c.parameter + [r])
      else if IsIntermediate(r) then c.(intermediate := c.intermediate + [r])
      else c.(mode := Text)
  }

  function Flushed(p: Parser): Parser {
    if p.buffer == "" then p else p.(buffer := "", directives := p.directives + [TextOf(p.buffer)])
  }

  function Recolored(p: Parser, fg: Color, bg: Color): Parser {
    var f := Flushed(p);
    f.(directives := f.directives + [Foreground(fg), Background(bg)])
  }

  function Performed(p: Parser, a: Action): Parser {
    match a
    case Nothing => p
    case Append(text) => p.(buffer := p.buffer + text)
    case SetColors(fg, bg) => Recolored(p, fg, bg)
  }

  function Step(p: Parser, r: char): Parser {
    Performed(p, ActionOf(p.control, r)).(control := NextControl(p.control, r))
  }

  function StepAll(p: Parser, text: string): Parser {
    if text == "" then p else Step(StepAll(p, text[..|text| - 1]), text[|text| - 1])
  }

  function Written(p: Parser, text: string): Parser {
    Flushed(StepAll(p, text))
  }

  function Fresh(): Parser {
    Parser(Control(Text, "", ""), "", [])
  }

  // ---- the writer ----

  class Ansi {
    var buffer: string
    var directives: seq<Directive>
    var csiParameter: string
    var csiIntermediate: string
    var state: Mode

    ghost function View(): Parser
      reads this
    {
      Parser(Control(state, csiParameter, csiIntermediate), buffer, directives)
    }

    constructor ()
      ensures View() == Fresh()
    {
      buffer, directives := "", [];
      csiParameter, csiIntermediate := "", "";
      state := Text;
    }

    method Flush()
      modifies this`buffer, this`directives
      ensures View() == Flushed(old(View()))
    {
      if |buffer| == 0 {
        return;
      }
      directives := directives + [TextOf(buffer)];
      buffer := "";
    }

    method SetColors(fg: Color, bg: Color)
      modifies this`buffer, this`directives
      ensures View() == Recolored(old(View()), fg, bg)
    {
      Flush();
      directives := directives + [Foreground(fg)];
      directives := directives + [Background(bg)];
    }

    method SelectGraphicRendition()
      modifies this`buffer, this`directives
      ensures View() == Performed(old(View()), GraphicRendition(csiParameter))
    {
      var fields := Fields(csiParameter);
      if |fields| == 1 && fields[0] == "0" {
        SetColors(Default, Default);
        return;
      }
      var foreground, background, attributes := ReadFields(fields);
      RenditionPerforms(csiParameter, fields, foreground, background, attributes != "");
      if foreground != Unset || background != Unset || |attributes| > 0 {
        SetColors(foreground, background);
      }
    }

    method ReadFields(fields: seq<string>) returns (foreground: Color, background: Color, attributes: string)
      ensures foreground == LastAsked(Foregrounds(fields)) && background == LastAsked(Backgrounds(fields))
      ensures attributes != "" <==> true in Restyling(fields)
    {
      var clearAttributes;
      foreground, background, attributes, clearAttributes := Unset, Unset, "", false;
      for index := 0 to |fields|
        invariant AskedSoFar(fields, index, foreground, background, attributes != "" || clearAttributes)
      {
        AskedOneMore(fields, index, foreground, background, attributes != "" || clearAttributes);
        var letter, clear;
        foreground, background, letter, clear := ReadField(fields, index, foreground, background);
        attributes := attributes + letter;
        clearAttributes := clearAttributes || clear;
      }
      AskedAll(fields, foreground, background, attributes != "" || clearAttributes);
      if |attributes| > 0 || clearAttributes {
        attributes := ":" + attributes;
      }
    }

    method ReadField(fields: seq<string>, index: nat, fg: Color, bg: Color)
      returns (foreground: Color, background: Color, letter: string, clear: bool)
      requires index < |fields|
      ensures foreground == Foremost(fg, Foregrounds(fields)[index])
      ensures background == Foremost(bg, Backgrounds(fields)[index])
      ensures letter != "" || clear <==> Restyles(fields[index])
    {
      foreground, background, letter, clear := fg, bg, "", false;
      var c := CaseOf(fields[index]);
      if c.Attribute? {
        letter := c.letter;
      } else if c.ClearAttributes? {
        clear := true;
      } else {
        foreground, background := ReadColors(fields, index, c, CodeOf(fields[index]), fg, bg);
      }
    }

    method ReadColors(fields: seq<string>, index: nat, c: Case, ghost code: int, fg: Color, bg: Color)
      returns (foreground: Color, background: Color)
      requires index < |fields| && !SetsAttribute(code) && c == CaseOfCode(code) && !c.ClearAttributes?
      requires code >= 0 ==> Atoi(fields[index]) == code
      ensures foreground == Foremost(fg, ForegroundOf(code, ExtendedColor(fields, index)))
      ensures background == Foremost(bg, BackgroundOf(code, ExtendedColor(fields, index)))
    {
      foreground, background := fg, bg;
      var colorNumber := Atoi(fields[index]);
      match c {
        case Plain(true) => foreground := LookupColor(colorNumber - 30, false);
        case Plain(false) => background := LookupColor(colorNumber - 40, false);
        case Bright(true) => foreground := LookupColor(colorNumber - 90, true);
        case Bright(false) => background := LookupColor(colorNumber - 100, true);
        case Extended(isForeground) =>
          var color := ReadExtendedColor(fields, index);
          if color != Unset {
            if isForeground {
              foreground := color;
            } else {
              background := color;
            }
          }
        case Other =>
      }
    }

    method ReadExtendedColor(fields: seq<string>, index: nat) returns (color: Color)
      requires index < |fields|
      ensures color == ExtendedColor(fields, index)
    {
      color := Unset;
      if |fields| > index + 1 {
        if fields[index + 1] == "5" && |fields| > index + 2 {
          var colorNumber := Atoi(fields[index + 2]);
          if colorNumber <= 7 {
            color := LookupColor(colorNumber, false);
          } else if colorNumber <= 15 {
            color := LookupColor(colorNumber, true);
          } else if colorNumber <= 231 {
            var red := (colorNumber - 16) / 36;
            var green := ((colorNumber - 16) / 6) % 6;
            var blue := (colorNumber - 16) % 6;
            color := Rgb(255 * red / 5, 255 * green / 5, 255 * blue / 5);
          } else if colorNumber <= 255 {
            var grey := 255 * (colorNumber - 232) / 23;
            color := Rgb(grey, grey, grey);
          }
        } else if fields[index + 1] == "2" && |fields| > index + 4 {
          color := Rgb(Atoi(fields[index + 2]), Atoi(fields[index + 3]), Atoi(fields[index + 4]));
        }
      }
    }

    method ReadRune(r: char)
      modifies this
      ensures View() == Step(old(View()), r)
    {
      match state {
        case Escape =>
          if r == '[' {
            csiParameter, csiIntermediate := "", "";
            state := ControlSequence;
          } else if r == 'c' {
            SetColors(Default, Default);
            state := Text;
          } else if r in {'P', ']', 'X', '^', '_'} {
            state := Substring;
          } else {
            state := Text;
          }
        case ControlSequence =>
          if IsParameter(r) {
            csiParameter := csiParameter + [r];
          } else if IsIntermediate(r) {
            csiIntermediate := csiIntermediate + [r];
          } else {
            if r == 'E' {
              var count := Atoi(csiParameter);
              if count == 0 {
                count := 1;
              }
              buffer := buffer + Repeat('\n', count);
            } else if r == 'm' {
              SelectGraphicRendition();
            }
            state := Text;
          }
        case Substring =>
          if r == ESC {
            state := Escape;
          }
        case Text =>
          if r == ESC {
            state := Escape;
          } else {
            buffer := buffer + [r];
          }
      }
    }

    method Write(text: string) returns (n: nat)
      modifies this
      ensures View() == Written(old(View()), text) && n == |text|
    {
      for i := 0 to |text|
        invariant View() == StepAll(old(View()), text[..i])
      {
        assert text[..i + 1][..i] == text[..i];
        ReadRune(text[i]);
      }
      assert text[..|text|] == text;
      Flush();
      return |text|;
    }
  }
}
