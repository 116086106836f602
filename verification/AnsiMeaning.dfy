/** That the parser of AnsiParsing does not depend on where its input was cut,
    and what it makes of every input. */
module AnsiMeaning {
  import opened Shared
  import opened AnsiColors
  import opened AnsiRenditions
  import opened AnsiParsing

  /** What a list of directives shows, rune by rune. */
  datatype Atom = Rune(c: char) | Colour(directive: Directive)

  function Runes(text: string): (a: seq<Atom>)
    ensures |a| == |text| && forall i :: 0 <= i < |text| ==> a[i] == Rune(text[i])
  {
    seq(|text|, i requires 0 <= i < |text| => Rune(text[i]))
  }

  function AtomsOf(d: Directive): seq<Atom> {
    if d.TextOf? then Runes(d.text) else [Colour(d)]
  }

  function Atoms(ds: seq<Directive>): seq<Atom> {
    if ds == [] then [] else Atoms(ds[..|ds| - 1]) + AtomsOf(ds[|ds| - 1])
  }

  /** What the parser has shown so far, flushed or not. */
  function Shown(p: Parser): seq<Atom> {
    Atoms(p.directives) + Runes(p.buffer)
  }

  function Shows(a: Action): seq<Atom> {
    match a
    case Nothing => []
    case Append(text) => Runes(text)
    case SetColors(fg, bg) => [Colour(Foreground(fg)), Colour(Background(bg))]
  }

  lemma RunesPlus(a: string, b: string)
    ensures Runes(a + b) == Runes(a) + Runes(b)
  {
  }

  lemma AtomsSnoc(ds: seq<Directive>, d: Directive)
    ensures Atoms(ds + [d]) == Atoms(ds) + AtomsOf(d)
  {
    assert (ds + [d])[..|ds|] == ds;
  }

  lemma FlushShowsTheSame(p: Parser)
    ensures Shown(Flushed(p)) == Shown(p)
  {
    AtomsSnoc(p.directives, TextOf(p.buffer));
    assert Runes("") == [];
  }

  lemma AtomsTwo(ds: seq<Directive>, d: Directive, e: Directive)
    requires !d.TextOf? && !e.TextOf?
    ensures Atoms(ds + [d, e]) == Atoms(ds) + [Colour(d), Colour(e)]
  {
    AtomsSnoc(ds, d);
    AtomsSnoc(ds + [d], e);
    assert ds + [d] + [e] == ds + [d, e];
    Associative(Atoms(ds), [Colour(d)], [Colour(e)]);
  }

  lemma NothingBuffered(p: Parser)
    requires p.buffer == ""
    ensures Shown(p) == Atoms(p.directives)
  {
    assert Runes("") == [];
  }

  lemma ColoredShows(p: Parser, fg: Color, bg: Color)
    ensures Shown(Recolored(p, fg, bg)) == Shown(p) + [Colour(Foreground(fg)), Colour(Background(bg))]
  {
    FlushShowsTheSame(p);
    NothingBuffered(Flushed(p));
    NothingBuffered(Recolored(p, fg, bg));
    AtomsTwo(Flushed(p).directives, Foreground(fg), Background(bg));
  }

  lemma PerformedShows(p: Parser, a: Action)
    ensures Shown(Performed(p, a)) == Shown(p) + Shows(a)
  {
    match a {
      case Nothing =>
      case Append(text) => RunesPlus(p.buffer, text);
      case SetColors(fg, bg) => ColoredShows(p, fg, bg);
    }
  }

  lemma StepShows(p: Parser, r: char)
    ensures Shown(Step(p, r)) == Shown(p) + Shows(ActionOf(p.control, r))
  {
    PerformedShows(p, ActionOf(p.control, r));
  }

  // ---- chunks ----

  predicate Alike(p: Parser, q: Parser) {
    p.control == q.control && Shown(p) == Shown(q)
  }

  lemma {:induction false} StepAllAlike(p: Parser, q: Parser, text: string)
    requires Alike(p, q)
    ensures Alike(StepAll(p, text), StepAll(q, text))
    decreases |text|
  {
    if text != "" {
      var init, r := text[..|text| - 1], text[|text| - 1];
      StepAllAlike(p, q, init);
      StepShows(StepAll(p, init), r);
      StepShows(StepAll(q, init), r);
    }
  }

  lemma {:induction false} StepAllPlus(p: Parser, a: string, b: string)
    ensures StepAll(p, a + b) == StepAll(StepAll(p, a), b)
    decreases |b|
  {
    if b == "" {
      assert a + b == a;
    } else {
      StepAllPlus(p, a, b[..|b| - 1]);
      assert (a + b)[..|a + b| - 1] == a + b[..|b| - 1];
    }
  }

  function WriteAll(p: Parser, chunks: seq<string>): Parser {
    if chunks == [] then p else Written(WriteAll(p, chunks[..|chunks| - 1]), chunks[|chunks| - 1])
  }

  lemma {:induction false} ChunksAlike(p: Parser, chunks: seq<string>)
    ensures Alike(WriteAll(p, chunks), StepAll(p, Flatten(chunks)))
    decreases |chunks|
  {
    if chunks != [] {
      var before, chunk := chunks[..|chunks| - 1], chunks[|chunks| - 1];
      ChunksAlike(p, before);
      var now := WriteAll(p, before);
      StepAllAlike(now, StepAll(p, Flatten(before)), chunk);
      StepAllPlus(p, Flatten(before), chunk);
      FlushShowsTheSame(StepAll(now, chunk));
    }
  }

  // ---- merging ----

  function Appended(ds: seq<Directive>, d: Directive): seq<Directive> {
    if d.TextOf? && ds != [] && ds[|ds| - 1].TextOf? then
      ds[..|ds| - 1] + [TextOf(ds[|ds| - 1].text + d.text)]
    else ds + [d]
  }

  /** Adjacent texts made one. */
  function Merged(ds: seq<Directive>): seq<Directive> {
    if ds == [] then [] else Appended(Merged(ds[..|ds| - 1]), ds[|ds| - 1])
  }

  function FromAtoms(atoms: seq<Atom>): seq<Directive> {
    if atoms == [] then []
    else
      var a := atoms[|atoms| - 1];
      Appended(FromAtoms(atoms[..|atoms| - 1]), if a.Rune? then TextOf([a.c]) else a.directive)
  }

  /** No text is empty or holds the escape rune. */
  predicate Clean(ds: seq<Directive>) {
    forall i :: 0 <= i < |ds| && ds[i].TextOf? ==> ds[i].text != "" && ESC !in ds[i].text
  }

  predicate Apart(ds: seq<Directive>) {
    forall i :: 0 <= i < |ds| - 1 && ds[i].TextOf? ==> !ds[i + 1].TextOf?
  }

  lemma AppendedTwice(ds: seq<Directive>, a: string, b: string)
    ensures Appended(Appended(ds, TextOf(a)), TextOf(b)) == Appended(ds, TextOf(a + b))
  {
    if ds != [] && ds[|ds| - 1].TextOf? {
      Associative(ds[|ds| - 1].text, a, b);
    }
  }

  lemma FromAtomsSnoc(atoms: seq<Atom>, c: char)
    ensures FromAtoms(atoms + [Rune(c)]) == Appended(FromAtoms(atoms), TextOf([c]))
  {
    assert (atoms + [Rune(c)])[..|atoms|] == atoms;
  }

  lemma {:induction false} FromAtomsRunes(atoms: seq<Atom>, text: string)
    requires text != ""
    ensures FromAtoms(atoms + Runes(text)) == Appended(FromAtoms(atoms), TextOf(text))
    decreases |text|
  {
    var init, c := text[..|text| - 1], text[|text| - 1];
    FromAtomsSnoc(atoms + Runes(init), c);
    assert atoms + Runes(text) == atoms + Runes(init) + [Rune(c)];
    assert text == init + [c];
    if init == "" {
      assert atoms + Runes(init) == atoms;
    } else {
      FromAtomsRunes(atoms, init);
      AppendedTwice(FromAtoms(atoms), init, [c]);
    }
  }

  lemma {:induction false} MergedIsFromAtoms(ds: seq<Directive>)
    requires Clean(ds)
    ensures Merged(ds) == FromAtoms(Atoms(ds))
    decreases |ds|
  {
    if ds != [] {
      var init, d := ds[..|ds| - 1], ds[|ds| - 1];
      MergedIsFromAtoms(init);
      if d.TextOf? {
        FromAtomsRunes(Atoms(init), d.text);
      } else {
        assert Atoms(ds)[..|Atoms(ds)| - 1] == Atoms(init);
      }
    }
  }

  lemma {:induction false} MergedApart(ds: seq<Directive>)
    requires Apart(ds)
    ensures Merged(ds) == ds
    decreases |ds|
  {
    if ds != [] {
      MergedApart(ds[..|ds| - 1]);
    }
  }

  /** A parser as it is in the middle of one write to a fresh one. */
  predicate Neat(p: Parser) {
    && Clean(p.directives) && ESC !in p.buffer
    && Apart(p.directives)
    && (p.directives != [] ==> !p.directives[|p.directives| - 1].TextOf?)
  }

  lemma StepNeat(p: Parser, r: char)
    requires Clean(p.directives) && ESC !in p.buffer
    ensures Clean(Step(p, r).directives) && ESC !in Step(p, r).buffer
    ensures Neat(p) ==> Neat(Step(p, r))
  {
  }

  lemma {:induction false} StepAllNeat(p: Parser, text: string)
    requires Clean(p.directives) && ESC !in p.buffer
    ensures Clean(StepAll(p, text).directives) && ESC !in StepAll(p, text).buffer
    ensures Neat(p) ==> Neat(StepAll(p, text))
    decreases |text|
  {
    if text != "" {
      StepAllNeat(p, text[..|text| - 1]);
      StepNeat(StepAll(p, text[..|text| - 1]), text[|text| - 1]);
    }
  }

  /** No text directive ever holds the escape rune, or nothing. */
  lemma {:induction false} TextIsClean(chunks: seq<string>)
    ensures Clean(WriteAll(Fresh(), chunks).directives) && WriteAll(Fresh(), chunks).buffer == ""
    decreases |chunks|
  {
    if chunks != [] {
      TextIsClean(chunks[..|chunks| - 1]);
      StepAllNeat(WriteAll(Fresh(), chunks[..|chunks| - 1]), chunks[|chunks| - 1]);
    }
  }

  lemma MergedAlike(ds: seq<Directive>, es: seq<Directive>)
    requires Clean(ds) && Clean(es) && Apart(es) && Atoms(ds) == Atoms(es)
    ensures Merged(ds) == es
  {
    MergedIsFromAtoms(ds);
    MergedIsFromAtoms(es);
    MergedApart(es);
  }

  lemma OneWriteIsApart(text: string)
    ensures var q := Written(Fresh(), text); Clean(q.directives) && Apart(q.directives) && q.buffer == ""
  {
    StepAllNeat(Fresh(), text);
  }

  /** Wherever the text was cut into chunks, the parser ends in the same state,
      and the directives, adjacent texts made one, are those of a single write. */
  lemma ChunksDoNotShow(chunks: seq<string>)
    ensures var p, q := WriteAll(Fresh(), chunks), Written(Fresh(), Flatten(chunks));
            p.control == q.control && p.buffer == q.buffer == "" && Merged(p.directives) == q.directives
  {
    var p, q := WriteAll(Fresh(), chunks), Written(Fresh(), Flatten(chunks));
    ChunksAlike(Fresh(), chunks);
    FlushShowsTheSame(StepAll(Fresh(), Flatten(chunks)));
    TextIsClean(chunks);
    OneWriteIsApart(Flatten(chunks));
    assert Runes("") == [];
    assert Shown(p) == Atoms(p.directives) && Shown(q) == Atoms(q.directives);
    MergedAlike(p.directives, q.directives);
  }

  // ---- the language ----

  /** What can follow an escape rune. A command runs to the next escape rune. */
  datatype Sequence =
    | Csi(body: string, last: char)
    | Aborted(body: string, bad: char)
    | Reset
    | Command(introducer: char, body: string, next: Sequence)
    | Other(c: char)

  datatype Token = Plain(c: char) | Escaped(s: Sequence)

  predicate InBody(r: char) {
    IsParameter(r) || IsIntermediate(r)
  }

  predicate WellFormed(s: Sequence) {
    match s
    case Csi(body, last) => (forall i :: 0 <= i < |body| ==> InBody(body[i])) && IsFinal(last)
    case Aborted(body, bad) => (forall i :: 0 <= i < |body| ==> InBody(body[i])) && !InBody(bad) && !IsFinal(bad)
    case Reset => true
    case Command(introducer, body, next) => introducer in {'P', ']', 'X', '^', '_'} && ESC !in body && WellFormed(next)
    case Other(c) => c !in {'[', 'c', 'P', ']', 'X', '^', '_'}
  }

  predicate GoodToken(t: Token) {
    match t
    case Plain(c) => c != ESC
    case Escaped(s) => WellFormed(s)
  }

  function Spelled(s: Sequence): string {
    match s
    case Csi(body, last) => "[" + body + [last]
    case Aborted(body, bad) => "[" + body + [bad]
    case Reset => "c"
    case Command(introducer, body, next) => [introducer] + body + [ESC] + Spelled(next)
    case Other(c) => [c]
  }

  function Spelling(ts: seq<Token>): string {
    if ts == [] then ""
    else
      var t := ts[|ts| - 1];
      Spelling(ts[..|ts| - 1]) + if t.Plain? then [t.c] else [ESC] + Spelled(t.s)
  }

  function Parameters(body: string): string {
    if body == "" then ""
    else
      var before, r := Parameters(body[..|body| - 1]), body[|body| - 1];
      if IsParameter(r) then before + [r] else before
  }

  /** The colours are reset to the terminal's own, or set to what the fields ask
      for last; with nothing asked for, a rendition shows nothing. */
  function RenditionShows(parameter: string): seq<Atom> {
    if parameter == "0" then [Colour(Foreground(Default)), Colour(Background(Default))]
    else
      var fields := Fields(parameter);
      var fg, bg := LastAsked(Foregrounds(fields)), LastAsked(Backgrounds(fields));
      if fg == Unset && bg == Unset && true !in Restyling(fields) then []
      else [Colour(Foreground(fg)), Colour(Background(bg))]
  }

  function NewLines(count: nat): (a: seq<Atom>)
    ensures |a| == count && forall i :: 0 <= i < count ==> a[i] == Rune('\n')
  {
    seq(count, i => Rune('\n'))
  }

  /** What a control sequence shows: 'm' sets colours, 'E' goes to the next line,
      or so many lines on, and nothing else shows anything. */
  function ControlShows(parameter: string, last: char): seq<Atom> {
    match last
    case 'm' => RenditionShows(parameter)
    case 'E' => NewLines(if Atoi(parameter) >= 1 then Atoi(parameter) else 1)
    case _ => []
  }

  lemma ResetField(parameter: string)
    ensures Fields(parameter) == ["0"] <==> parameter == "0"
  {
    FieldsAreSeparated(parameter);
    OneField("0");
  }

  /** The parser does what a control sequence is to show. */
  lemma ControlActs(parameter: string, last: char)
    ensures Shows(FinalAction(parameter, last)) == ControlShows(parameter, last)
  {
    ResetField(parameter);
  }

  function SequenceShows(s: Sequence): seq<Atom> {
    match s
    case Csi(body, last) => ControlShows(Parameters(body), last)
    case Aborted(_, _) => []
    case Reset => [Colour(Foreground(Default)), Colour(Background(Default))]
    case Command(_, _, next) => SequenceShows(next)
    case Other(_) => []
  }

  function Meaning(ts: seq<Token>): seq<Atom> {
    if ts == [] then []
    else
      var t := ts[|ts| - 1];
      Meaning(ts[..|ts| - 1]) + if t.Plain? then [Rune(t.c)] else SequenceShows(t.s)
  }

  lemma {:induction false} BodyRead(p: Parser, body: string)
    requires p.control == Control(ControlSequence, "", "")
    requires forall i :: 0 <= i < |body| ==> InBody(body[i])
    ensures StepAll(p, body).control.mode == ControlSequence && StepAll(p, body).control.parameter == Parameters(body)
    ensures Shown(StepAll(p, body)) == Shown(p)
    decreases |body|
  {
    if body != "" {
      var init, r := body[..|body| - 1], body[|body| - 1];
      assert forall i :: 0 <= i < |init| ==> init[i] == body[i];
      BodyRead(p, init);
      assert InBody(r);
      StepShows(StepAll(p, init), r);
    }
  }

  lemma {:induction false} CommandRead(p: Parser, body: string)
    requires p.control.mode == Substring && ESC !in body
    ensures StepAll(p, body) == p
    decreases |body|
  {
    if body != "" {
      CommandRead(p, body[..|body| - 1]);
    }
  }

  lemma StepOne(p: Parser, r: char)
    ensures StepAll(p, [r]) == Step(p, r)
  {
    assert [r][..0] == "";
  }

  lemma {:induction false} SequenceRead(p: Parser, s: Sequence)
    requires p.control.mode == Escape && WellFormed(s)
    ensures StepAll(p, Spelled(s)).control.mode == Text
    ensures Shown(StepAll(p, Spelled(s))) == Shown(p) + SequenceShows(s)
    decreases s
  {
    match s {
      case Csi(body, last) => CsiRead(p, body, last);
      case Aborted(body, bad) => CsiRead(p, body, bad);
      case Reset =>
        StepOne(p, 'c');
        StepShows(p, 'c');
      case Other(c) =>
        StepOne(p, c);
        StepShows(p, c);
      case Command(introducer, body, next) =>
        StepOne(p, introducer);
        StepShows(p, introducer);
        var p1 := Step(p, introducer);
        CommandRead(p1, body);
        StepOne(p1, ESC);
        StepShows(p1, ESC);
        var p2 := Step(p1, ESC);
        SequenceRead(p2, next);
        StepAllPlus(p, [introducer], body);
        StepAllPlus(p, [introducer] + body, [ESC]);
        StepAllPlus(p, [introducer] + body + [ESC], Spelled(next));
    }
  }

  lemma CsiRead(p: Parser, body: string, last: char)
    requires p.control.mode == Escape && !InBody(last)
    requires forall i :: 0 <= i < |body| ==> InBody(body[i])
    ensures var q := StepAll(p, "[" + body + [last]);
            && q.control.mode == Text
            && Shown(q) == Shown(p) + if IsFinal(last) then ControlShows(Parameters(body), last) else []
  {
    ControlActs(Parameters(body), last);
    StepOne(p, '[');
    StepShows(p, '[');
    var p1 := Step(p, '[');
    BodyRead(p1, body);
    var p2 := StepAll(p1, body);
    StepOne(p2, last);
    StepShows(p2, last);
    StepAllPlus(p, "[", body);
    StepAllPlus(p, "[" + body, [last]);
  }

  /** After reading s the parser is in text and has shown the atoms. */
  ghost predicate Understood(s: string, shown: seq<Atom>) {
    StepAll(Fresh(), s).control.mode == Text && Shown(StepAll(Fresh(), s)) == shown
  }

  lemma RuneUnderstood(s: string, shown: seq<Atom>, c: char)
    requires Understood(s, shown) && c != ESC
    ensures Understood(s + [c], shown + [Rune(c)])
  {
    var p := StepAll(Fresh(), s);
    StepAllPlus(Fresh(), s, [c]);
    StepOne(p, c);
    StepShows(p, c);
  }

  lemma SequenceUnderstood(s: string, shown: seq<Atom>, t: Sequence)
    requires Understood(s, shown) && WellFormed(t)
    ensures Understood(s + ([ESC] + Spelled(t)), shown + SequenceShows(t))
  {
    var p := StepAll(Fresh(), s);
    StepAllPlus(Fresh(), s, [ESC] + Spelled(t));
    StepAllPlus(p, [ESC], Spelled(t));
    StepOne(p, ESC);
    StepShows(p, ESC);
    SequenceRead(Step(p, ESC), t);
  }

  /** Every spelling of a token list shows exactly what the tokens mean. */
  lemma {:induction false} SpellingIsUnderstood(ts: seq<Token>)
    requires forall i :: 0 <= i < |ts| ==> GoodToken(ts[i])
    ensures Understood(Spelling(ts), Meaning(ts))
    decreases |ts|
  {
    if ts == [] {
      assert Runes("") == [];
    } else {
      var before, t := ts[..|ts| - 1], ts[|ts| - 1];
      SpellingIsUnderstood(before);
      if t.Plain? {
        RuneUnderstood(Spelling(before), Meaning(before), t.c);
      } else {
        SequenceUnderstood(Spelling(before), Meaning(before), t.s);
      }
    }
  }

  // ---- every input ----

  /** How far an unfinished sequence has come. */
  datatype Stage = AtEscape | InCsi(body: string) | InCommand(introducer: char, body: string)

  datatype Open = Closed | Started(commands: seq<(char, string)>, stage: Stage)

  function Nested(commands: seq<(char, string)>, s: Sequence): Sequence {
    if commands == [] then s
    else
      var c := commands[|commands| - 1];
      Nested(commands[..|commands| - 1], Command(c.0, c.1, s))
  }

  function CommandsSpelled(commands: seq<(char, string)>): string {
    if commands == [] then [ESC]
    else
      var c := commands[|commands| - 1];
      CommandsSpelled(commands[..|commands| - 1]) + [c.0] + c.1 + [ESC]
  }

  function StageSpelled(s: Stage): string {
    match s
    case AtEscape => ""
    case InCsi(body) => "[" + body
    case InCommand(introducer, body) => [introducer] + body
  }

  function Unfinished(o: Open): string {
    if o.Closed? then "" else CommandsSpelled(o.commands) + StageSpelled(o.stage)
  }

  predicate GoodCommands(commands: seq<(char, string)>) {
    forall i :: 0 <= i < |commands| ==> commands[i].0 in {'P', ']', 'X', '^', '_'} && ESC !in commands[i].1
  }

  predicate GoodOpen(o: Open) {
    o.Closed? ||
    (GoodCommands(o.commands) &&
     match o.stage
     case AtEscape => true
     case InCsi(body) => forall i :: 0 <= i < |body| ==> InBody(body[i])
     case InCommand(introducer, body) => introducer in {'P', ']', 'X', '^', '_'} && ESC !in body)
  }

  lemma {:induction false} NestedSpelled(commands: seq<(char, string)>, s: Sequence)
    requires GoodCommands(commands) && WellFormed(s)
    ensures WellFormed(Nested(commands, s))
    ensures [ESC] + Spelled(Nested(commands, s)) == CommandsSpelled(commands) + Spelled(s)
    decreases |commands|
  {
    if commands != [] {
      var c := commands[|commands| - 1];
      NestedSpelled(commands[..|commands| - 1], Command(c.0, c.1, s));
    }
  }

  ghost predicate TakenAs(text: string, ts: seq<Token>, o: Open) {
    && (forall i :: 0 <= i < |ts| ==> GoodToken(ts[i]))
    && GoodOpen(o)
    && text == Spelling(ts) + Unfinished(o)
  }

  /** One more rune leaves the sequence unfinished. */
  lemma Continued(text: string, ts: seq<Token>, o: Open, o': Open, r: char)
    requires TakenAs(text, ts, o) && GoodOpen(o')
    requires Unfinished(o') == Unfinished(o) + [r]
    ensures TakenAs(text + [r], ts, o')
  {
    Associative(Spelling(ts), Unfinished(o), [r]);
  }

  /** One more rune ends the sequence: it is a token like any other. */
  lemma Ended(text: string, ts: seq<Token>, commands: seq<(char, string)>, stage: Stage, r: char, s: Sequence)
    returns (more: seq<Token>)
    requires TakenAs(text, ts, Started(commands, stage)) && WellFormed(s)
    requires Spelled(s) == StageSpelled(stage) + [r]
    ensures TakenAs(text + [r], more, Closed)
  {
    NestedSpelled(commands, s);
    var t := Escaped(Nested(commands, s));
    more := ts + [t];
    assert more[..|more| - 1] == ts;
    assert Spelling(more) == Spelling(ts) + ([ESC] + Spelled(t.s));
    Associative(CommandsSpelled(commands), StageSpelled(stage), [r]);
    Associative(Spelling(ts), CommandsSpelled(commands) + StageSpelled(stage), [r]);
    assert Spelling(more) + "" == text + [r];
  }

  lemma EscapeOn(text: string, ts: seq<Token>, commands: seq<(char, string)>, r: char) returns (ts': seq<Token>, o': Open)
    requires TakenAs(text, ts, Started(commands, AtEscape))
    ensures TakenAs(text + [r], ts', o')
  {
    ts' := ts;
    var before := Started(commands, AtEscape);
    if r == '[' {
      o' := Started(commands, InCsi(""));
      Continued(text, ts, before, o', r);
    } else if r in {'P', ']', 'X', '^', '_'} {
      o' := Started(commands, InCommand(r, ""));
      Continued(text, ts, before, o', r);
    } else {
      o' := Closed;
      ts' := Ended(text, ts, commands, AtEscape, r, if r == 'c' then Reset else Sequence.Other(r));
    }
  }

  lemma CsiOn(text: string, ts: seq<Token>, commands: seq<(char, string)>, body: string, r: char) returns (ts': seq<Token>, o': Open)
    requires TakenAs(text, ts, Started(commands, InCsi(body)))
    ensures TakenAs(text + [r], ts', o')
  {
    if InBody(r) {
      ts', o' := ts, Started(commands, InCsi(body + [r]));
      Associative("[", body, [r]);
      Associative(CommandsSpelled(commands), "[" + body, [r]);
      Continued(text, ts, Started(commands, InCsi(body)), o', r);
    } else {
      o' := Closed;
      ts' := Ended(text, ts, commands, InCsi(body), r, if IsFinal(r) then Csi(body, r) else Aborted(body, r));
    }
  }

  lemma CommandOn(text: string, ts: seq<Token>, commands: seq<(char, string)>, c: (char, string), r: char) returns (ts': seq<Token>, o': Open)
    requires TakenAs(text, ts, Started(commands, InCommand(c.0, c.1)))
    ensures TakenAs(text + [r], ts', o')
  {
    ts' := ts;
    var spelled := CommandsSpelled(commands);
    if r == ESC {
      var more := commands + [c];
      assert more[..|commands|] == commands;
      o' := Started(more, AtEscape);
      Associative(spelled, [c.0], c.1);
    } else {
      o' := Started(commands, InCommand(c.0, c.1 + [r]));
      Associative([c.0], c.1, [r]);
      Associative(spelled, [c.0] + c.1, [r]);
    }
    Continued(text, ts, Started(commands, InCommand(c.0, c.1)), o', r);
  }

  lemma TextOn(text: string, ts: seq<Token>, r: char) returns (ts': seq<Token>, o': Open)
    requires TakenAs(text, ts, Closed)
    ensures TakenAs(text + [r], ts', o')
  {
    ts', o' := ts, Closed;
    if r == ESC {
      o' := Started([], AtEscape);
    } else {
      ts' := ts + [Token.Plain(r)];
      assert ts'[..|ts|] == ts;
    }
  }

  lemma {:induction false} TakenApart(text: string) returns (ts: seq<Token>, o: Open)
    ensures TakenAs(text, ts, o)
    decreases |text|
  {
    if text == "" {
      ts, o := [], Closed;
    } else {
      var before, r := text[..|text| - 1], text[|text| - 1];
      assert text == before + [r];
      ts, o := TakenApart(before);
      match o {
        case Closed => ts, o := TextOn(before, ts, r);
        case Started(commands, AtEscape) => ts, o := EscapeOn(before, ts, commands, r);
        case Started(commands, InCsi(body)) => ts, o := CsiOn(before, ts, commands, body, r);
        case Started(commands, InCommand(introducer, body)) => ts, o := CommandOn(before, ts, commands, (introducer, body), r);
      }
    }
  }

  /** Reading s leads to mode m and shows nothing. */
  ghost predicate Silently(p: Parser, s: string, m: Mode) {
    StepAll(p, s).control.mode == m && Shown(StepAll(p, s)) == Shown(p)
  }

  lemma SilentlyOn(p: Parser, s: string, m: Mode, t: string, n: Mode)
    requires Silently(p, s, m) && Silently(StepAll(p, s), t, n)
    ensures Silently(p, s + t, n)
  {
    StepAllPlus(p, s, t);
  }

  lemma {:induction false} CommandsRead(p: Parser, commands: seq<(char, string)>)
    requires p.control.mode == Text && GoodCommands(commands)
    ensures Silently(p, CommandsSpelled(commands), Escape)
    decreases |commands|
  {
    if commands == [] {
      StepOne(p, ESC);
      StepShows(p, ESC);
    } else {
      var init, c := commands[..|commands| - 1], commands[|commands| - 1];
      CommandsRead(p, init);
      OneCommandRead(StepAll(p, CommandsSpelled(init)), c);
      SilentlyOn(p, CommandsSpelled(init), Escape, [c.0] + c.1 + [ESC], Escape);
      CommandsSpelledOn(commands);
    }
  }

  lemma CommandsSpelledOn(commands: seq<(char, string)>)
    requires commands != []
    ensures var c := commands[|commands| - 1];
            CommandsSpelled(commands) == CommandsSpelled(commands[..|commands| - 1]) + ([c.0] + c.1 + [ESC])
  {
    var s, c := CommandsSpelled(commands[..|commands| - 1]), commands[|commands| - 1];
    Associative(s + [c.0], c.1, [ESC]);
    Associative(s, [c.0], c.1 + [ESC]);
    Associative([c.0], c.1, [ESC]);
  }

  lemma OneCommandRead(p: Parser, c: (char, string))
    requires p.control.mode == Escape && c.0 in {'P', ']', 'X', '^', '_'} && ESC !in c.1
    ensures Silently(p, [c.0] + c.1 + [ESC], Escape)
  {
    StageRead(p, InCommand(c.0, c.1));
    var p2 := StepAll(p, [c.0] + c.1);
    StepOne(p2, ESC);
    StepShows(p2, ESC);
    SilentlyOn(p, [c.0] + c.1, Substring, [ESC], Escape);
  }

  lemma StageRead(p: Parser, s: Stage)
    requires p.control.mode == Escape && GoodOpen(Started([], s))
    ensures Shown(StepAll(p, StageSpelled(s))) == Shown(p)
    ensures s.InCommand? ==> StepAll(p, StageSpelled(s)).control.mode == Substring
  {
    match s {
      case AtEscape =>
      case InCsi(body) =>
        StepOne(p, '[');
        StepShows(p, '[');
        BodyRead(Step(p, '['), body);
        StepAllPlus(p, "[", body);
      case InCommand(introducer, body) =>
        StepOne(p, introducer);
        StepShows(p, introducer);
        CommandRead(Step(p, introducer), body);
        StepAllPlus(p, [introducer], body);
    }
  }

  /** Every text is the spelling of some tokens and at most one unfinished
      sequence, and what the parser shows for it is what the tokens mean. */
  lemma EveryInputIsUnderstood(text: string) returns (ts: seq<Token>, o: Open)
    ensures TakenAs(text, ts, o)
    ensures Shown(Written(Fresh(), text)) == Meaning(ts)
  {
    ts, o := TakenApart(text);
    SpellingIsUnderstood(ts);
    var p := StepAll(Fresh(), Spelling(ts));
    StepAllPlus(Fresh(), Spelling(ts), Unfinished(o));
    if o.Started? {
      CommandsRead(p, o.commands);
      StageRead(StepAll(p, CommandsSpelled(o.commands)), o.stage);
      StepAllPlus(p, CommandsSpelled(o.commands), StageSpelled(o.stage));
    }
    FlushShowsTheSame(StepAll(Fresh(), text));
  }
}
