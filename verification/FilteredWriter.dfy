/** A writer that drops the lines a filter matches. Text arrives in chunks cut
    anywhere; an unfinished line is carried over to the next write. */
module FilteredWriters {
  import opened Shared

  type Byte = b: int | 0 <= b < 256

  const LF: Byte := 10
  const CR: Byte := 13

  type Line = seq<Byte>

  // ---- lines ----

  datatype Split = Split(lines: seq<Line>, rest: Line)

  /** The complete lines of s, each with its newline, and what comes after. */
  function SplitLines(s: seq<Byte>): Split {
    if s == [] then Split([], []) else Next(SplitLines(s[..|s| - 1]), s[|s| - 1])
  }

  /** One more byte. */
  function Next(c: Split, b: Byte): Split {
    if b == LF then Split(c.lines + [c.rest + [b]], []) else Split(c.lines, c.rest + [b])
  }

  lemma SplitSnoc(s: seq<Byte>, b: Byte)
    ensures SplitLines(s + [b]) == Next(SplitLines(s), b)
  {
    assert (s + [b])[..|s|] == s;
  }

  predicate NoNewline(s: seq<Byte>) {
    forall i :: 0 <= i < |s| ==> s[i] != LF
  }

  predicate IsLine(s: seq<Byte>) {
    s != [] && s[|s| - 1] == LF && NoNewline(s[..|s| - 1])
  }

  /** What it means to cut s into lines, without saying how. */
  ghost predicate Cuts(s: seq<Byte>, c: Split) {
    && Flatten(c.lines) + c.rest == s
    && NoNewline(c.rest)
    && forall i :: 0 <= i < |c.lines| ==> IsLine(c.lines[i])
  }

  lemma NextCuts(s: seq<Byte>, c: Split, b: Byte)
    requires Cuts(s, c)
    ensures Cuts(s + [b], Next(c, b))
  {
    Associative(Flatten(c.lines), c.rest, [b]);
    if b == LF {
      var line := c.rest + [LF];
      assert line[..|line| - 1] == c.rest;
      assert (c.lines + [line])[..|c.lines|] == c.lines;
    }
  }

  lemma {:induction false} SplitCuts(s: seq<Byte>)
    ensures Cuts(s, SplitLines(s))
    decreases |s|
  {
    if s != [] {
      SplitCuts(s[..|s| - 1]);
      NextCuts(s[..|s| - 1], SplitLines(s[..|s| - 1]), s[|s| - 1]);
      assert s == s[..|s| - 1] + [s[|s| - 1]];
    }
  }

  lemma {:induction false} ConcatLength(lines: seq<Line>)
    requires forall i :: 0 <= i < |lines| ==> IsLine(lines[i])
    ensures |Flatten(lines)| >= |lines|
    decreases |lines|
  {
    if lines != [] {
      ConcatLength(lines[..|lines| - 1]);
      assert IsLine(lines[|lines| - 1]);
    }
  }

  /** The cut before its last byte. */
  lemma LastOfRest(s: seq<Byte>, c: Split) returns (init: seq<Byte>, before: Split, b: Byte)
    requires Cuts(s, c) && c.rest != []
    ensures s == init + [b] && Cuts(init, before) && c == Next(before, b)
  {
    var n := |c.rest| - 1;
    before, b := Split(c.lines, c.rest[..n]), c.rest[n];
    init := Flatten(c.lines) + c.rest[..n];
    assert c.rest == c.rest[..n] + [b];
    Associative(Flatten(c.lines), c.rest[..n], [b]);
  }

  lemma LastOfLine(s: seq<Byte>, c: Split) returns (init: seq<Byte>, before: Split, b: Byte)
    requires Cuts(s, c) && c.rest == [] && c.lines != []
    ensures s == init + [b] && Cuts(init, before) && c == Next(before, b)
  {
    var n := |c.lines| - 1;
    var last := c.lines[n];
    assert IsLine(last);
    var m := |last| - 1;
    before, b := Split(c.lines[..n], last[..m]), last[m];
    init := Flatten(c.lines[..n]) + last[..m];
    assert last == last[..m] + [b] && c.lines == c.lines[..n] + [last];
    assert s == Flatten(c.lines[..n]) + last;
    Associative(Flatten(c.lines[..n]), last[..m], [b]);
  }

  /** There is only one way to cut a text into lines. */
  lemma {:induction false} CutIsUnique(s: seq<Byte>, c: Split)
    requires Cuts(s, c)
    ensures c == SplitLines(s)
    decreases |s|
  {
    ConcatLength(c.lines);
    if s != [] {
      var init, before, b;
      if c.rest != [] {
        init, before, b := LastOfRest(s, c);
      } else {
        init, before, b := LastOfLine(s, c);
      }
      CutIsUnique(init, before);
      SplitSnoc(init, b);
    }
  }

  /** The lines and the rest of a followed by b. */
  ghost predicate ReadsOn(a: seq<Byte>, b: seq<Byte>) {
    var cut := SplitLines(a);
    var more := SplitLines(cut.rest + b);
    SplitLines(a + b) == Split(cut.lines + more.lines, more.rest)
  }

  lemma ReadsOnNext(a: seq<Byte>, b: seq<Byte>, x: Byte)
    requires ReadsOn(a, b)
    ensures ReadsOn(a, b + [x])
  {
    var cut := SplitLines(a);
    var more := SplitLines(cut.rest + b);
    SplitSnoc(a + b, x);
    SplitSnoc(cut.rest + b, x);
    Associative(a, b, [x]);
    Associative(cut.rest, b, [x]);
    Associative(cut.lines, more.lines, [more.rest + [x]]);
  }

  lemma {:induction false} RestHasNoLines(s: seq<Byte>)
    requires NoNewline(s)
    ensures SplitLines(s) == Split([], s)
    decreases |s|
  {
    if s != [] {
      RestHasNoLines(s[..|s| - 1]);
      assert s == s[..|s| - 1] + [s[|s| - 1]];
    }
  }

  /** A text read in two parts, the second with what the first left over. */
  lemma {:induction false} SplitInTwo(a: seq<Byte>, b: seq<Byte>)
    ensures ReadsOn(a, b)
    decreases |b|
  {
    if b == [] {
      SplitCuts(a);
      RestHasNoLines(SplitLines(a).rest);
      assert a + b == a && SplitLines(a).rest + b == SplitLines(a).rest;
    } else {
      var init, x := b[..|b| - 1], b[|b| - 1];
      SplitInTwo(a, init);
      ReadsOnNext(a, init, x);
      assert b == init + [x];
    }
  }

  /** The text between line ends: without LF or CRLF. */
  function Content(line: Line): seq<Byte>
    requires line != []
  {
    var end := |line| - 1;
    if end > 0 && line[end - 1] == CR then line[..end - 1] else line[..end]
  }

  // ---- the sink ----

  /** What the environment decides: which lines the filter matches, which calls
      to the sink fail, and how much a failing call still takes. */
  datatype Environment = Environment(matches: seq<Byte> -> bool, fails: nat -> bool, takes: nat -> nat)

  datatype SinkState = SinkState(output: seq<Byte>, calls: nat)

  predicate Refused(env: Environment, k: SinkState, line: Line) {
    line != [] && !env.matches(Content(line)) && env.fails(k.calls)
  }

  function Received(env: Environment, k: SinkState, p: seq<Byte>): SinkState {
    var n := if env.fails(k.calls) && env.takes(k.calls) < |p| then env.takes(k.calls) else |p|;
    SinkState(k.output + p[..n], k.calls + 1)
  }

  function Offer(env: Environment, k: SinkState, line: Line): SinkState {
    if line == [] || env.matches(Content(line)) then k else Received(env, k, line)
  }

  function OfferAll(env: Environment, k: SinkState, lines: seq<Line>): SinkState {
    if lines == [] then k else Offer(env, OfferAll(env, k, lines[..|lines| - 1]), lines[|lines| - 1])
  }

  /** The index of the first line the sink refuses; the number of lines, if it
      takes them all. */
  function FirstRefused(env: Environment, k: SinkState, lines: seq<Line>): (j: nat)
    ensures j <= |lines|
  {
    if lines == [] then 0
    else
      var before, line := lines[..|lines| - 1], lines[|lines| - 1];
      var j := FirstRefused(env, k, before);
      if j < |before| || Refused(env, OfferAll(env, k, before), line) then j else |lines|
  }

  lemma {:induction false} FirstRefusedIsFirst(env: Environment, k: SinkState, lines: seq<Line>, more: seq<Line>)
    ensures FirstRefused(env, k, lines) < |lines| ==> FirstRefused(env, k, lines + more) == FirstRefused(env, k, lines)
    decreases |more|
  {
    if more == [] {
      assert lines + more == lines;
    } else {
      FirstRefusedIsFirst(env, k, lines, more[..|more| - 1]);
      assert (lines + more)[..|lines + more| - 1] == lines + more[..|more| - 1];
    }
  }

  // ---- one write ----

  datatype Outcome = Wrote(n: nat) | SinkFailed(n: nat) | Panicked

  datatype Writer = Writer(leftover: seq<Byte>, sink: SinkState)

  predicate Panics(w: Writer, chunk: seq<Byte>) {
    var all := w.leftover + chunk;
    all != [] && all[0] == LF
  }

  /** The lines up to the first one refused are done with; the rest is kept. */
  function Processed(env: Environment, k: SinkState, text: seq<Byte>): Writer {
    var cut := SplitLines(text);
    var j := FirstRefused(env, k, cut.lines);
    if j == |cut.lines| then Writer(cut.rest, OfferAll(env, k, cut.lines))
    else Writer(Flatten(cut.lines[j + 1..]) + cut.rest, OfferAll(env, k, cut.lines[..j + 1]))
  }

  predicate Refuses(env: Environment, k: SinkState, text: seq<Byte>) {
    var cut := SplitLines(text);
    FirstRefused(env, k, cut.lines) < |cut.lines|
  }

  function Written(env: Environment, w: Writer, chunk: seq<Byte>): Writer {
    if Panics(w, chunk) then w else Processed(env, w.sink, w.leftover + chunk)
  }

  function OutcomeOf(env: Environment, w: Writer, chunk: seq<Byte>): Outcome {
    var n := |w.leftover + chunk|;
    if Panics(w, chunk) then Panicked
    else if Refuses(env, w.sink, w.leftover + chunk) then SinkFailed(n) else Wrote(n)
  }

  class Sink {
    const env: Environment
    var output: seq<Byte>
    var calls: nat

    ghost function State(): SinkState
      reads this
    {
      SinkState(output, calls)
    }

    constructor (env: Environment)
      ensures this.env == env && State() == SinkState([], 0)
    {
      this.env := env;
      output := [];
      calls := 0;
    }

    method Write(p: seq<Byte>) returns (ok: bool)
      modifies this
      ensures State() == Received(env, old(State()), p) && ok == !env.fails(old(calls))
    {
      ok := !env.fails(calls);
      var n := if !ok && env.takes(calls) < |p| then env.takes(calls) else |p|;
      output := output + p[..n];
      calls := calls + 1;
    }
  }

  /** What becomes of the combined text: start is where what is kept begins. */
  ghost predicate LinesWritten(env: Environment, was: SinkState, buf: seq<Byte>, start: nat, outcome: Outcome, now: SinkState) {
    && (outcome.Panicked? <==> buf != [] && buf[0] == LF)
    && (outcome.Panicked? ==> now == was)
    && (!outcome.Panicked? ==>
          && start <= |buf|
          && Processed(env, was, buf) == Writer(buf[start..], now)
          && outcome == if Refuses(env, was, buf) then SinkFailed(|buf|) else Wrote(|buf|))
  }

  class FilteredWriter {
    const underlying: Sink
    var leftover: seq<Byte>

    ghost function State(): Writer
      reads this, underlying
    {
      Writer(leftover, underlying.State())
    }

    constructor (underlying: Sink)
      ensures this.underlying == underlying && leftover == []
    {
      this.underlying := underlying;
      leftover := [];
    }

    /** One line, of which the newline is at i, if it is not filtered out. */
    method WriteLine(buf: seq<Byte>, start: nat, i: nat, ghost was: SinkState) returns (ok: bool)
      requires 0 < i < |buf| && buf[i] == LF && Reading(underlying.env, was, buf, i, start, underlying.State())
      modifies underlying
      ensures ok ==> Reading(underlying.env, was, buf, i + 1, i + 1, underlying.State())
      ensures !ok ==> Refuses(underlying.env, was, buf) && Processed(underlying.env, was, buf) == Writer(buf[i + 1..], underlying.State())
    {
      ghost var env, now := underlying.env, underlying.State();
      LineRead(buf, i, start);
      ok := true;
      var end := i;
      if buf[i - 1] == CR {
        end := end - 1;
      }
      if !underlying.env.matches(buf[start..end]) {
        ok := underlying.Write(buf[start..i + 1]);
      }
      if ok {
        LineTaken(env, was, buf, i, start, now);
      } else {
        LineRefused(env, was, buf, i, start, now);
      }
    }

    /** Every line of the combined text; start is where what is kept begins. */
    method WriteLines(buf: seq<Byte>) returns (start: nat, outcome: Outcome)
      modifies underlying
      ensures LinesWritten(underlying.env, old(underlying.State()), buf, start, outcome, underlying.State())
    {
      ghost var was, env := underlying.State(), underlying.env;
      start := 0;
      for i := 0 to |buf|
        invariant i > 0 ==> buf[0] != LF
        invariant Reading(env, was, buf, i, start, underlying.State())
      {
        if buf[i] == LF {
          if i == 0 {
            return 0, Panicked;
          }
          var ok := WriteLine(buf, start, i, was);
          start := i + 1;
          if !ok {
            return start, SinkFailed(|buf|);
          }
        } else {
          ReadByte(env, was, buf, i, start, underlying.State());
        }
      }
      AllRead(env, was, buf, start, underlying.State());
      return start, Wrote(|buf|);
    }

    method Write(chunk: seq<Byte>) returns (outcome: Outcome)
      modifies this, underlying
      ensures State() == Written(underlying.env, old(State()), chunk)
      ensures outcome == OutcomeOf(underlying.env, old(State()), chunk)
    {
      var buf := leftover + chunk;
      var start;
      start, outcome := WriteLines(buf);
      if !outcome.Panicked? {
        leftover := buf[start..];
      }
    }
  }

  /** The text before i is read, its lines have been offered to the sink and
      were taken, and start is where the unfinished line begins. */
  ghost predicate Reading(env: Environment, was: SinkState, buf: seq<Byte>, i: nat, start: nat, now: SinkState) {
    && start <= i <= |buf|
    && (start > 0 ==> buf[start - 1] == LF)
    && var cut := SplitLines(buf[..i]);
    && buf[start..i] == cut.rest
    && now == OfferAll(env, was, cut.lines)
    && FirstRefused(env, was, cut.lines) == |cut.lines|
  }

  lemma ReadByte(env: Environment, was: SinkState, buf: seq<Byte>, i: nat, start: nat, now: SinkState)
    requires i < |buf| && Reading(env, was, buf, i, start, now) && buf[i] != LF
    ensures Reading(env, was, buf, i + 1, start, now)
  {
    assert buf[..i + 1][..i] == buf[..i];
    assert buf[start..i + 1] == buf[start..i] + [buf[i]];
  }

  lemma LineRead(buf: seq<Byte>, i: nat, start: nat)
    requires 0 < i < |buf| && start <= i && buf[i] == LF && (start > 0 ==> buf[start - 1] == LF)
    ensures var line, end := buf[start..i + 1], if buf[i - 1] == CR then i - 1 else i;
            start <= end && line != [] && buf[start..end] == Content(line)
  {
    var line := buf[start..i + 1];
    assert |line| == i + 1 - start && line[..i - start] == buf[start..i];
    if start < i {
      assert line[|line| - 2] == buf[i - 1];
      assert line[..i - 1 - start] == buf[start..i - 1];
    } else {
      assert buf[i - 1] == LF;
    }
  }

  lemma LineAdded(env: Environment, was: SinkState, buf: seq<Byte>, i: nat, start: nat, now: SinkState)
    requires i < |buf| && Reading(env, was, buf, i, start, now) && buf[i] == LF
    ensures var done, line := SplitLines(buf[..i]).lines, buf[start..i + 1];
            && SplitLines(buf[..i + 1]) == Split(done + [line], [])
            && FirstRefused(env, was, done) == |done| && OfferAll(env, was, done) == now
            && OfferAll(env, was, done + [line]) == Offer(env, now, line)
            && FirstRefused(env, was, done + [line]) == |done| + if Refused(env, now, line) then 0 else 1
  {
    var before, line := SplitLines(buf[..i]), buf[start..i + 1];
    assert line == buf[start..i] + [LF];
    assert buf[..i + 1][..i] == buf[..i];
    assert (before.lines + [line])[..|before.lines|] == before.lines;
  }

  lemma LineTaken(env: Environment, was: SinkState, buf: seq<Byte>, i: nat, start: nat, now: SinkState)
    requires i < |buf| && Reading(env, was, buf, i, start, now) && buf[i] == LF
    requires !Refused(env, now, buf[start..i + 1])
    ensures Reading(env, was, buf, i + 1, i + 1, Offer(env, now, buf[start..i + 1]))
  {
    LineAdded(env, was, buf, i, start, now);
    assert buf[i + 1..i + 1] == [];
  }

  lemma LineRefused(env: Environment, was: SinkState, buf: seq<Byte>, i: nat, start: nat, now: SinkState)
    requires i < |buf| && Reading(env, was, buf, i, start, now) && buf[i] == LF
    requires Refused(env, now, buf[start..i + 1])
    ensures Refuses(env, was, buf)
    ensures Processed(env, was, buf) == Writer(buf[i + 1..], Offer(env, now, buf[start..i + 1]))
  {
    LineAdded(env, was, buf, i, start, now);
    Refusal(env, was, buf, i, SplitLines(buf[..i]).lines, buf[start..i + 1]);
  }

  lemma AllRead(env: Environment, was: SinkState, buf: seq<Byte>, start: nat, now: SinkState)
    requires Reading(env, was, buf, |buf|, start, now)
    ensures !Refuses(env, was, buf)
    ensures Processed(env, was, buf) == Writer(buf[start..], now)
  {
    assert buf[..|buf|] == buf;
    assert buf[start..|buf|] == buf[start..];
  }

  /** What is left of the text when the line that ends at i is refused. */
  lemma Refusal(env: Environment, k: SinkState, buf: seq<Byte>, i: nat, done: seq<Line>, line: Line)
    requires i < |buf| && SplitLines(buf[..i + 1]) == Split(done + [line], [])
    requires FirstRefused(env, k, done) == |done| && Refused(env, OfferAll(env, k, done), line)
    ensures var cut := SplitLines(buf);
            && |done| < |cut.lines| && FirstRefused(env, k, cut.lines) == |done|
            && cut.lines[..|done| + 1] == done + [line]
            && buf[i + 1..] == Flatten(cut.lines[|done| + 1..]) + cut.rest
  {
    var more := SplitLines(buf[i + 1..]);
    SplitAfter(buf, i + 1, done + [line]);
    SplitCuts(buf[i + 1..]);
    var all := done + [line] + more.lines;
    assert all[|done| + 1..] == more.lines && all[..|done| + 1] == done + [line];
    assert (done + [line])[..|done|] == done;
    FirstRefusedIsFirst(env, k, done + [line], more.lines);
  }

  lemma SplitAfter(buf: seq<Byte>, i: nat, lines: seq<Line>)
    requires i <= |buf| && SplitLines(buf[..i]) == Split(lines, [])
    ensures SplitLines(buf) == Split(lines + SplitLines(buf[i..]).lines, SplitLines(buf[i..]).rest)
  {
    assert buf == buf[..i] + buf[i..];
    SplitInTwo(buf[..i], buf[i..]);
    assert [] + buf[i..] == buf[i..];
  }

  // ---- any sequence of writes ----

  function Fresh(): Writer {
    Writer([], SinkState([], 0))
  }

  function WriteAll(env: Environment, w: Writer, chunks: seq<seq<Byte>>): Writer {
    if chunks == [] then w
    else Written(env, WriteAll(env, w, chunks[..|chunks| - 1]), chunks[|chunks| - 1])
  }

  predicate NoPanic(env: Environment, w: Writer, chunks: seq<seq<Byte>>) {
    chunks == [] ||
    (NoPanic(env, w, chunks[..|chunks| - 1]) && !Panics(WriteAll(env, w, chunks[..|chunks| - 1]), chunks[|chunks| - 1]))
  }

  lemma {:induction false} OfferAllPlus(env: Environment, k: SinkState, a: seq<Line>, b: seq<Line>)
    ensures OfferAll(env, k, a + b) == OfferAll(env, OfferAll(env, k, a), b)
    decreases |b|
  {
    if b == [] {
      assert a + b == a;
    } else {
      OfferAllPlus(env, k, a, b[..|b| - 1]);
      assert (a + b)[..|a + b| - 1] == a + b[..|b| - 1];
    }
  }

  /** The text of all but the first j lines, and the lines of it. */
  function After(text: seq<Byte>, j: nat): seq<Byte>
    requires j <= |SplitLines(text).lines|
  {
    Flatten(SplitLines(text).lines[j..]) + SplitLines(text).rest
  }

  lemma CutsJoin(lines: seq<Line>, rest: Line, next: Split, chunk: seq<Byte>)
    requires forall i :: 0 <= i < |lines| ==> IsLine(lines[i])
    requires Cuts(rest + chunk, next)
    ensures Cuts(Flatten(lines) + rest + chunk, Split(lines + next.lines, next.rest))
  {
    FlattenConcat(lines, next.lines);
    Associative(Flatten(lines), rest, chunk);
    Associative(Flatten(lines), Flatten(next.lines), next.rest);
  }

  lemma LinesContinue(text: seq<Byte>, chunk: seq<Byte>)
    ensures var lines, more := SplitLines(text).lines, SplitLines(text + chunk);
            |lines| <= |more.lines| && lines == more.lines[..|lines|]
  {
    SplitInTwo(text, chunk);
  }

  lemma AfterContinues(text: seq<Byte>, chunk: seq<Byte>, j: nat)
    requires j <= |SplitLines(text).lines|
    ensures var lines, more := SplitLines(text).lines, SplitLines(text + chunk);
            && |lines| <= |more.lines| && lines == more.lines[..|lines|]
            && SplitLines(After(text, j) + chunk) == Split(more.lines[j..], more.rest)
  {
    var cut := SplitLines(text);
    var next := SplitLines(cut.rest + chunk);
    LinesContinue(text, chunk);
    SplitInTwo(text, chunk);
    SplitCuts(cut.rest + chunk);
    SplitCuts(text);
    CutsJoin(cut.lines[j..], cut.rest, next, chunk);
    CutIsUnique(After(text, j) + chunk, Split(cut.lines[j..] + next.lines, next.rest));
    SuffixOfBoth(cut.lines, next.lines, j);
  }

  lemma SuffixOfBoth(a: seq<Line>, b: seq<Line>, j: nat)
    requires j <= |a|
    ensures (a + b)[j..] == a[j..] + b
  {
  }

  /** The first j lines have been offered to the sink in order, each once, and
      the rest of the text is what the writer carries over. */
  ghost predicate CarriedTo(env: Environment, text: seq<Byte>, j: nat, w: Writer) {
    && j <= |SplitLines(text).lines|
    && w.leftover == After(text, j)
    && w.sink == OfferAll(env, SinkState([], 0), SplitLines(text).lines[..j])
  }

  /** The sink has been offered the first i lines and takes m more. */
  lemma OfferedOn(env: Environment, k: SinkState, lines: seq<Line>, i: nat, m: nat)
    requires i + m <= |lines|
    ensures OfferAll(env, OfferAll(env, k, lines[..i]), lines[i..][..m]) == OfferAll(env, k, lines[..i + m])
  {
    assert lines[..i] + lines[i..][..m] == lines[..i + m];
    OfferAllPlus(env, k, lines[..i], lines[i..][..m]);
  }

  lemma NothingAfter(text: seq<Byte>)
    ensures var cut := SplitLines(text); After(text, |cut.lines|) == cut.rest
  {
    var cut := SplitLines(text);
    assert cut.lines[|cut.lines|..] == [];
    assert [] + cut.rest == cut.rest;
  }

  lemma AllTaken(env: Environment, text: seq<Byte>, i: nat, sink: SinkState)
    requires i <= |SplitLines(text).lines| && sink == OfferAll(env, SinkState([], 0), SplitLines(text).lines[..i])
    ensures var cut := SplitLines(text);
            CarriedTo(env, text, |cut.lines|, Writer(cut.rest, OfferAll(env, sink, cut.lines[i..])))
  {
    var lines := SplitLines(text).lines;
    assert lines[..i] + lines[i..] == lines;
    OfferAllPlus(env, SinkState([], 0), lines[..i], lines[i..]);
    assert lines[..|lines|] == lines;
    NothingAfter(text);
  }

  lemma OneRefused(env: Environment, text: seq<Byte>, i: nat, sink: SinkState, m: nat)
    requires i + m < |SplitLines(text).lines| && sink == OfferAll(env, SinkState([], 0), SplitLines(text).lines[..i])
    ensures var cut := SplitLines(text);
            CarriedTo(env, text, i + m + 1, Writer(Flatten(cut.lines[i..][m + 1..]) + cut.rest, OfferAll(env, sink, cut.lines[i..][..m + 1])))
  {
    var lines := SplitLines(text).lines;
    assert lines[i..][m + 1..] == lines[i + m + 1..];
    OfferedOn(env, SinkState([], 0), lines, i, m + 1);
  }

  lemma ProcessedOffers(env: Environment, text: seq<Byte>, i: nat, sink: SinkState, carried: seq<Byte>) returns (j: nat)
    requires i <= |SplitLines(text).lines| && sink == OfferAll(env, SinkState([], 0), SplitLines(text).lines[..i])
    requires SplitLines(carried) == Split(SplitLines(text).lines[i..], SplitLines(text).rest)
    ensures CarriedTo(env, text, j, Processed(env, sink, carried))
    ensures (forall n :: !env.fails(n)) ==> j == |SplitLines(text).lines|
  {
    var lines := SplitLines(text).lines[i..];
    var m := FirstRefused(env, sink, lines);
    if forall n :: !env.fails(n) {
      NothingRefused(env, sink, lines);
    }
    if m == |lines| {
      j := |SplitLines(text).lines|;
      AllTaken(env, text, i, sink);
    } else {
      j := i + m + 1;
      OneRefused(env, text, i, sink, m);
    }
  }

  lemma CarriedOn(env: Environment, text: seq<Byte>, i: nat, w: Writer, chunk: seq<Byte>) returns (j: nat)
    requires CarriedTo(env, text, i, w)
    ensures CarriedTo(env, text + chunk, j, Processed(env, w.sink, w.leftover + chunk))
    ensures (forall n :: !env.fails(n)) ==> j == |SplitLines(text + chunk).lines|
  {
    AfterContinues(text, chunk, i);
    assert SplitLines(text + chunk).lines[..i] == SplitLines(text).lines[..i];
    j := ProcessedOffers(env, text + chunk, i, w.sink, w.leftover + chunk);
  }

  /** Whatever the chunks and whatever the sink refuses, no line of the whole
      text is lost or repeated. If nothing is refused, every complete line has
      been offered. */
  lemma {:induction false} NoLineLostOrRepeated(env: Environment, chunks: seq<seq<Byte>>) returns (j: nat)
    requires NoPanic(env, Fresh(), chunks)
    ensures CarriedTo(env, Flatten(chunks), j, WriteAll(env, Fresh(), chunks))
    ensures (forall n :: !env.fails(n)) ==> j == |SplitLines(Flatten(chunks)).lines|
    decreases |chunks|
  {
    if chunks == [] {
      return 0;
    }
    var before := chunks[..|chunks| - 1];
    var i := NoLineLostOrRepeated(env, before);
    j := CarriedOn(env, Flatten(before), i, WriteAll(env, Fresh(), before), chunks[|chunks| - 1]);
  }

  lemma {:induction false} NothingRefused(env: Environment, k: SinkState, lines: seq<Line>)
    requires forall n :: !env.fails(n)
    ensures FirstRefused(env, k, lines) == |lines|
    decreases |lines|
  {
    if lines != [] {
      NothingRefused(env, k, lines[..|lines| - 1]);
    }
  }

  /** The lines a filter lets through. */
  function Kept(matches: seq<Byte> -> bool, lines: seq<Line>): seq<Line> {
    if lines == [] then []
    else
      var before, line := Kept(matches, lines[..|lines| - 1]), lines[|lines| - 1];
      if line == [] || matches(Content(line)) then before else before + [line]
  }

  lemma {:induction false} OfferedIsKept(env: Environment, lines: seq<Line>)
    requires forall n :: !env.fails(n)
    ensures OfferAll(env, SinkState([], 0), lines).output == Flatten(Kept(env.matches, lines))
    decreases |lines|
  {
    if lines != [] {
      var before, line := Kept(env.matches, lines[..|lines| - 1]), lines[|lines| - 1];
      OfferedIsKept(env, lines[..|lines| - 1]);
      assert (before + [line])[..|before|] == before;
    }
  }

  /** With a sink that does not fail, how the text was cut into chunks does not
      show: the output is the unfiltered complete lines of the whole. */
  lemma ChunksDoNotShow(env: Environment, chunks: seq<seq<Byte>>)
    requires NoPanic(env, Fresh(), chunks) && forall n :: !env.fails(n)
    ensures var w, cut := WriteAll(env, Fresh(), chunks), SplitLines(Flatten(chunks));
            w.sink.output == Flatten(Kept(env.matches, cut.lines)) && w.leftover == cut.rest
  {
    var cut := SplitLines(Flatten(chunks));
    var j := NoLineLostOrRepeated(env, chunks);
    assert cut.lines[..j] == cut.lines && cut.lines[j..] == [];
    OfferedIsKept(env, cut.lines);
  }

  /** A chunk that begins with a newline where a line begins. */
  predicate NewlineFirst(text: seq<Byte>, chunk: seq<Byte>) {
    && chunk != [] && chunk[0] == LF
    && (text == [] || text[|text| - 1] == LF)
  }

  lemma RestAfterLine(text: seq<Byte>)
    requires text != []
    ensures SplitLines(text).rest == [] <==> text[|text| - 1] == LF
  {
  }

  lemma RestStartsEmpty(text: seq<Byte>, chunk: seq<Byte>)
    ensures Panics(Writer(SplitLines(text).rest, SinkState([], 0)), chunk) <==> NewlineFirst(text, chunk)
  {
    var rest := SplitLines(text).rest;
    SplitCuts(text);
    if text != [] {
      RestAfterLine(text);
    }
    if rest == [] {
      assert rest + chunk == chunk;
    } else {
      assert (rest + chunk)[0] == rest[0] != LF;
    }
  }

  lemma PanicsOnEmptyFirstLine(env: Environment, before: seq<seq<Byte>>, chunk: seq<Byte>)
    requires (forall n :: !env.fails(n)) && NoPanic(env, Fresh(), before)
    ensures Panics(WriteAll(env, Fresh(), before), chunk) <==> NewlineFirst(Flatten(before), chunk)
  {
    ChunksDoNotShow(env, before);
    RestStartsEmpty(Flatten(before), chunk);
  }

  ghost predicate NoChunkStartsEmpty(chunks: seq<seq<Byte>>) {
    forall k {:trigger chunks[..k]} :: 0 <= k < |chunks| ==> !NewlineFirst(Flatten(chunks[..k]), chunks[k])
  }

  lemma StartsEmptySnoc(chunks: seq<seq<Byte>>, chunk: seq<Byte>)
    ensures NoChunkStartsEmpty(chunks + [chunk]) <==> NoChunkStartsEmpty(chunks) && !NewlineFirst(Flatten(chunks), chunk)
  {
    var all := chunks + [chunk];
    assert all[..|chunks|] == chunks;
    forall k | 0 <= k < |chunks|
      ensures all[..k] == chunks[..k] && all[k] == chunks[k]
    {
    }
  }

  /** With a sink that does not fail, a write panics exactly when its chunk
      begins with an empty line. */
  lemma {:induction false} PanicsExactlyOnEmptyFirstLine(env: Environment, chunks: seq<seq<Byte>>)
    requires forall n :: !env.fails(n)
    ensures NoPanic(env, Fresh(), chunks) <==> NoChunkStartsEmpty(chunks)
    decreases |chunks|
  {
    if chunks != [] {
      var before, chunk := chunks[..|chunks| - 1], chunks[|chunks| - 1];
      PanicsExactlyOnEmptyFirstLine(env, before);
      assert chunks == before + [chunk];
      StartsEmptySnoc(before, chunk);
      if NoPanic(env, Fresh(), before) {
        PanicsOnEmptyFirstLine(env, before, chunk);
      }
    }
  }

  /** A refused line can leave the writer with a newline in front, and then
      every later write panics, whatever it is given. */
  lemma {:induction false} PanicsForEver(env: Environment, w: Writer, chunks: seq<seq<Byte>>)
    requires w.leftover != [] && w.leftover[0] == LF
    ensures WriteAll(env, w, chunks) == w
    ensures chunks != [] ==> !NoPanic(env, w, chunks)
    decreases |chunks|
  {
    if chunks != [] {
      PanicsForEver(env, w, chunks[..|chunks| - 1]);
      assert (w.leftover + chunks[|chunks| - 1])[0] == LF;
    }
  }

  // ---- when a write panics, whatever the sink does ----

  lemma {:induction false} FirstLineEmpty(s: seq<Byte>)
    ensures s != [] && s[0] == LF <==> SplitLines(s).lines != [] && SplitLines(s).lines[0] == [LF]
    decreases |s|
  {
    if |s| > 1 {
      FirstLineEmpty(s[..|s| - 1]);
      SplitCuts(s[..|s| - 1]);
      NoLineBeforeNewline(s[..|s| - 1]);
    } else if |s| == 1 {
      assert s[..0] == [];
    }
  }

  /** Without a complete line, a text that is not empty is its own rest. */
  lemma NoLineBeforeNewline(s: seq<Byte>)
    ensures SplitLines(s).lines == [] ==> SplitLines(s).rest == s
  {
    SplitCuts(s);
  }

  /** After j lines have been offered, a write panics exactly when the next line
      of the text, this chunk included, is complete and empty. */
  lemma PanicsExactlyOnUnofferedEmptyLine(env: Environment, text: seq<Byte>, j: nat, w: Writer, chunk: seq<Byte>)
    requires CarriedTo(env, text, j, w)
    ensures var lines := SplitLines(text + chunk).lines;
            Panics(w, chunk) <==> j < |lines| && lines[j] == [LF]
  {
    AfterContinues(text, chunk, j);
    FirstLineEmpty(w.leftover + chunk);
  }

  /** Any sink, any chunks: the first write to panic is the one whose chunk
      completes, as the first line not yet offered, an empty one. */
  lemma NextWritePanicsExactlyWhen(env: Environment, chunks: seq<seq<Byte>>, chunk: seq<Byte>) returns (j: nat)
    requires NoPanic(env, Fresh(), chunks)
    ensures CarriedTo(env, Flatten(chunks), j, WriteAll(env, Fresh(), chunks))
    ensures var lines := SplitLines(Flatten(chunks) + chunk).lines;
            NoPanic(env, Fresh(), chunks + [chunk]) <==> !(j < |lines| && lines[j] == [LF])
  {
    j := NoLineLostOrRepeated(env, chunks);
    PanicsExactlyOnUnofferedEmptyLine(env, Flatten(chunks), j, WriteAll(env, Fresh(), chunks), chunk);
    assert (chunks + [chunk])[..|chunks|] == chunks;
  }

  /** A sink whose first call fails and takes nothing, before nothing is filtered. */
  function FailsOnce(): Environment {
    Environment(s => false, n => n == 0, n => 0)
  }

  lemma FirstLineIsRefused()
    ensures FirstRefused(FailsOnce(), Fresh().sink, [[97, LF], [LF]]) == 0
  {
    var lines := [[97, LF], [LF]];
    assert [[97, LF]][..0] == [] && lines[..1] == [[97, LF]];
    assert OfferAll(FailsOnce(), Fresh().sink, []) == Fresh().sink;
    assert FirstRefused(FailsOnce(), Fresh().sink, []) == 0;
    assert Refused(FailsOnce(), Fresh().sink, [97, LF]);
    assert FirstRefused(FailsOnce(), Fresh().sink, [[97, LF]]) == 0;
  }

  lemma NewlineIsLeft()
    ensures Written(FailsOnce(), Fresh(), [97, LF, LF]).leftover == [LF] && !Panics(Fresh(), [97, LF, LF])
  {
    assert Fresh().leftover + [97, LF, LF] == [97, LF, LF];
    RefusedLineIsDropped();
  }

  lemma RefusedLineIsDropped()
    ensures Processed(FailsOnce(), Fresh().sink, [97, LF, LF]).leftover == [LF]
  {
    var lines: seq<Line> := [[97, LF], [LF]];
    TwoLines();
    FirstLineIsRefused();
    assert lines[1..] == [[LF]];
    OnlyNewline();
    assert [LF] + [] == [LF];
  }

  lemma OnlyNewline()
    ensures Flatten([[LF]]) == [LF]
  {
    assert [[LF]][..0] == [];
  }

  /** The state that panics for ever is reached: a line is refused, and an empty
      one follows it. */
  lemma PanicsForEverIsReached(chunks: seq<seq<Byte>>)
    ensures var env, w := FailsOnce(), WriteAll(FailsOnce(), Fresh(), [[97, LF, LF]]);
            && NoPanic(env, Fresh(), [[97, LF, LF]]) && w.leftover == [LF]
            && WriteAll(env, w, chunks) == w && (chunks != [] ==> !NoPanic(env, w, chunks))
  {
    var env, text: seq<Byte> := FailsOnce(), [97, LF, LF];
    NewlineIsLeft();
    assert [text][..0] == [];
    assert WriteAll(env, Fresh(), [text]) == Written(env, Fresh(), text);
    PanicsForEver(env, WriteAll(env, Fresh(), [text]), chunks);
  }

  lemma TwoLines()
    ensures SplitLines([97, LF, LF]) == Split([[97, LF], [LF]], [])
  {
    SplitSnoc([], 97);
    SplitSnoc([97], LF);
    SplitSnoc([97, LF], LF);
    assert [] + [97] == [97] && [97] + [LF] == [97, LF] && [97, LF] + [LF] == [97, LF, LF];
    assert [] + [[97, LF]] == [[97, LF]] && [[97, LF]] + [[LF]] == [[97, LF], [LF]];
    assert [] + [LF] == [LF];
  }

  // ---- what a write reports ----

  /** The sink's call for line i fails: the filter lets it through, and the sink
      refuses it when it has been offered those before. */
  predicate FailsAt(env: Environment, k: SinkState, lines: seq<Line>, i: int) {
    && 0 <= i < |lines| && lines[i] != [] && !env.matches(Content(lines[i]))
    && env.fails(OfferAll(env, k, lines[..i]).calls)
  }

  lemma FailsAtSnoc(env: Environment, k: SinkState, lines: seq<Line>, line: Line, i: int)
    requires 0 <= i < |lines|
    ensures FailsAt(env, k, lines + [line], i) <==> FailsAt(env, k, lines, i)
  {
    assert (lines + [line])[..i] == lines[..i];
  }

  /** A write stops at the first line whose call fails. */
  lemma {:induction false} FirstRefusedIs(env: Environment, k: SinkState, lines: seq<Line>)
    ensures var j := FirstRefused(env, k, lines);
            && (j < |lines| ==> FailsAt(env, k, lines, j))
            && forall i :: 0 <= i < j ==> !FailsAt(env, k, lines, i)
    decreases |lines|
  {
    if lines != [] {
      var before, line := lines[..|lines| - 1], lines[|lines| - 1];
      FirstRefusedIs(env, k, before);
      assert lines == before + [line];
      forall i | 0 <= i < |before|
        ensures FailsAt(env, k, lines, i) <==> FailsAt(env, k, before, i)
      {
        FailsAtSnoc(env, k, before, line, i);
      }
    }
  }

  ghost predicate SomeFails(env: Environment, k: SinkState, lines: seq<Line>) {
    exists i :: FailsAt(env, k, lines, i)
  }

  lemma RefusedExactlyWhen(env: Environment, k: SinkState, lines: seq<Line>)
    ensures FirstRefused(env, k, lines) < |lines| <==> SomeFails(env, k, lines)
  {
    FirstRefusedIs(env, k, lines);
  }

  /** A write that does not panic fails if and only if the sink's call for some
      line it is offered does. Either way it reports the length of the whole
      combined text, which is more than it was given whenever text was left over. */
  lemma ReportsExactlyWhen(env: Environment, w: Writer, chunk: seq<Byte>)
    requires !Panics(w, chunk)
    ensures OutcomeOf(env, w, chunk) ==
              if SomeFails(env, w.sink, SplitLines(w.leftover + chunk).lines) then SinkFailed(|w.leftover| + |chunk|)
              else Wrote(|w.leftover| + |chunk|)
  {
    var text := w.leftover + chunk;
    RefusedExactlyWhen(env, w.sink, SplitLines(text).lines);
  }

  /** With a sink that does not fail, a write reports more bytes than its chunk has
      if and only if the text before it does not end in a newline. */
  lemma ReportsTooMuchExactlyWhen(env: Environment, chunks: seq<seq<Byte>>, chunk: seq<Byte>)
    requires forall n :: !env.fails(n)
    requires NoPanic(env, Fresh(), chunks) && !Panics(WriteAll(env, Fresh(), chunks), chunk)
    ensures var outcome, text := OutcomeOf(env, WriteAll(env, Fresh(), chunks), chunk), Flatten(chunks);
            outcome.Wrote? && (outcome.n > |chunk| <==> text != [] && text[|text| - 1] != LF)
  {
    var w, text := WriteAll(env, Fresh(), chunks), Flatten(chunks);
    ChunksDoNotShow(env, chunks);
    NothingRefused(env, w.sink, SplitLines(w.leftover + chunk).lines);
    if text != [] {
      RestAfterLine(text);
    }
  }
}
