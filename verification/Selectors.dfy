/** Joining strings with a delimiter, escaped so that they can be taken apart
    again. */
module Selectors {
  import opened Shared

  const Delimiter := ':'
  const EscapeChar := '\\'

  /** Every c in s preceded by the escape character. */
  function ReplaceAll(s: string, c: char): string {
    if s == "" then ""
    else
      var before, x := ReplaceAll(s[..|s| - 1], c), s[|s| - 1];
      if x == c then before + [EscapeChar, x] else before + [x]
  }

  function QuotePart(s: string): string {
    ReplaceAll(ReplaceAll(s, EscapeChar), Delimiter)
  }

  function EscapeAndJoin(parts: seq<string>): string {
    if parts == [] then ""
    else if |parts| == 1 then QuotePart(parts[0])
    else EscapeAndJoin(parts[..|parts| - 1]) + [Delimiter] + QuotePart(parts[|parts| - 1])
  }

  /** How far a string has been taken apart; None after an invalid escape. */
  datatype Scan = Scan(parts: seq<string>, cur: string, escaped: bool)

  function ScanRune(s: Option<Scan>, r: char): Option<Scan> {
    if s == None then None
    else
      var Scan(parts, cur, escaped) := s.value;
      if escaped then
        if r == Delimiter || r == EscapeChar then Some(Scan(parts, cur + [r], false)) else None
      else if r == Delimiter then Some(Scan(parts + [cur], "", false))
      else if r == EscapeChar then Some(Scan(parts, cur, true))
      else Some(Scan(parts, cur + [r], false))
  }

  function ScanAll(s: string): Option<Scan> {
    if s == "" then Some(Scan([], "", false)) else ScanRune(ScanAll(s[..|s| - 1]), s[|s| - 1])
  }

  function Parts(s: string): Option<seq<string>> {
    match ScanAll(s)
    case None => None
    case Some(Scan(parts, cur, _)) => Some(parts + [cur])
  }

  method UnescapeAndSplit(s: string) returns (r: Option<seq<string>>)
    ensures r == Parts(s)
  {
    var parts: seq<string> := [];
    var escapeNextChar, cur := false, "";
    for i := 0 to |s|
      invariant ScanAll(s[..i]) == Some(Scan(parts, cur, escapeNextChar))
    {
      assert s[..i + 1][..i] == s[..i];
      if escapeNextChar {
        if s[i] == Delimiter || s[i] == EscapeChar {
          cur := cur + [s[i]];
        } else {
          FailsForGood(s, i + 1);
          return None;
        }
        escapeNextChar := false;
      } else if s[i] == Delimiter {
        parts := parts + [cur];
        cur := "";
      } else if s[i] == EscapeChar {
        escapeNextChar := true;
      } else {
        cur := cur + [s[i]];
      }
    }
    assert s[..|s|] == s;
    return Some(parts + [cur]);
  }

  lemma {:induction false} FailsForGood(s: string, i: nat)
    requires i <= |s| && ScanAll(s[..i]) == None
    ensures ScanAll(s) == None
    decreases |s|
  {
    if i < |s| {
      assert s[..|s| - 1][..i] == s[..i];
      FailsForGood(s[..|s| - 1], i);
    } else {
      assert s[..i] == s;
    }
  }

  // ---- round trip ----

  /** One character as it appears in a quoted part. */
  function Quoted(c: char): string {
    if c == Delimiter || c == EscapeChar then [EscapeChar, c] else [c]
  }

  lemma {:induction false} ReplaceAllPlus(a: string, b: string, c: char)
    ensures ReplaceAll(a + b, c) == ReplaceAll(a, c) + ReplaceAll(b, c)
    decreases |b|
  {
    if b == "" {
      assert a + b == a;
    } else {
      ReplaceAllPlus(a, b[..|b| - 1], c);
      assert (a + b)[..|a + b| - 1] == a + b[..|b| - 1];
    }
  }

  lemma QuotePartSnoc(s: string, c: char)
    ensures QuotePart(s + [c]) == QuotePart(s) + Quoted(c)
  {
    ReplaceAllPlus(s, [c], EscapeChar);
    assert ReplaceAll("", EscapeChar) == "" && ReplaceAll("", Delimiter) == "";
    var x := ReplaceAll([c], EscapeChar);
    assert x == if c == EscapeChar then [EscapeChar, c] else [c];
    ReplaceAllPlus(ReplaceAll(s, EscapeChar), x, Delimiter);
    if c == EscapeChar {
      assert x[..1] == [EscapeChar];
      assert ReplaceAll(x[..1], Delimiter) == [EscapeChar];
      assert ReplaceAll(x, Delimiter) == [EscapeChar, c];
    } else {
      assert ReplaceAll(x, Delimiter) == Quoted(c);
    }
  }

  lemma ScanOne(a: string, c: char)
    ensures ScanAll(a + [c]) == ScanRune(ScanAll(a), c)
  {
    assert (a + [c])[..|a|] == a;
  }

  lemma ScanQuoted(a: string, parts: seq<string>, cur: string, c: char)
    requires ScanAll(a) == Some(Scan(parts, cur, false))
    ensures ScanAll(a + Quoted(c)) == Some(Scan(parts, cur + [c], false))
  {
    if c == Delimiter || c == EscapeChar {
      var b := a + [EscapeChar];
      ScanOne(a, EscapeChar);
      assert ScanAll(b) == Some(Scan(parts, cur, true));
      ScanOne(b, c);
      assert a + Quoted(c) == b + [c];
    } else {
      ScanOne(a, c);
    }
  }

  lemma {:induction false} ScanPart(a: string, parts: seq<string>, p: string)
    requires ScanAll(a) == Some(Scan(parts, "", false))
    ensures ScanAll(a + QuotePart(p)) == Some(Scan(parts, p, false))
    decreases |p|
  {
    if p == "" {
      assert a + QuotePart(p) == a;
    } else {
      var q, c := p[..|p| - 1], p[|p| - 1];
      assert p == q + [c];
      ScanPart(a, parts, q);
      QuotePartSnoc(q, c);
      ScanQuoted(a + QuotePart(q), parts, q, c);
      Associative(a, QuotePart(q), Quoted(c));
    }
  }

  lemma {:induction false} ScanJoined(parts: seq<string>)
    requires parts != []
    ensures ScanAll(EscapeAndJoin(parts)) == Some(Scan(parts[..|parts| - 1], parts[|parts| - 1], false))
    decreases |parts|
  {
    var before, last := parts[..|parts| - 1], parts[|parts| - 1];
    if |parts| == 1 {
      ScanPart("", [], last);
      assert "" + QuotePart(last) == QuotePart(last);
    } else {
      var joined := EscapeAndJoin(before);
      ScanJoined(before);
      ScanOne(joined, Delimiter);
      assert before[..|before| - 1] + [before[|before| - 1]] == before;
      ScanPart(joined + [Delimiter], before, last);
    }
  }

  /** What was joined is taken apart again into the same parts, whatever
      delimiters and escapes they hold. */
  lemma SplitUndoesJoin(parts: seq<string>)
    requires parts != []
    ensures Parts(EscapeAndJoin(parts)) == Some(parts)
  {
    ScanJoined(parts);
    assert parts == parts[..|parts| - 1] + [parts[|parts| - 1]];
  }

  lemma JoinInjective(a: seq<string>, b: seq<string>)
    requires a != [] && b != [] && EscapeAndJoin(a) == EscapeAndJoin(b)
    ensures a == b
  {
    SplitUndoesJoin(a);
    SplitUndoesJoin(b);
  }

  // ---- the other way round ----

  /** The character before position i is an escape, itself not escaped. */
  predicate Escapes(s: string, i: nat)
    requires i <= |s|
  {
    i > 0 && s[i - 1] == EscapeChar && !Escapes(s, i - 1)
  }

  predicate ValidEscapes(s: string) {
    forall i :: 0 <= i < |s| && Escapes(s, i) ==> s[i] == Delimiter || s[i] == EscapeChar
  }

  lemma {:induction false} EscapesInPrefix(s: string, n: nat, i: nat)
    requires i <= n <= |s|
    ensures Escapes(s[..n], i) <==> Escapes(s, i)
    decreases i
  {
    if i > 0 {
      EscapesInPrefix(s, n, i - 1);
    }
  }

  lemma ValidNext(s: string)
    requires s != ""
    ensures var init, r := s[..|s| - 1], s[|s| - 1];
            && (Escapes(s, |s|) <==> r == EscapeChar && !Escapes(init, |init|))
            && (ValidEscapes(s) <==> ValidEscapes(init) && (Escapes(init, |init|) ==> r == Delimiter || r == EscapeChar))
  {
    var n := |s| - 1;
    forall i | 0 <= i <= n
      ensures Escapes(s[..n], i) <==> Escapes(s, i)
    {
      EscapesInPrefix(s, n, i);
    }
    assert forall i :: 0 <= i < n ==> s[..n][i] == s[i];
  }

  lemma JoinSnoc(parts: seq<string>, p: string)
    ensures EscapeAndJoin(parts + [p]) == if parts == [] then QuotePart(p) else EscapeAndJoin(parts) + [Delimiter] + QuotePart(p)
  {
    assert (parts + [p])[..|parts|] == parts;
  }

  lemma JoinGrows(parts: seq<string>, cur: string, c: char)
    ensures EscapeAndJoin(parts + [cur + [c]]) == EscapeAndJoin(parts + [cur]) + Quoted(c)
  {
    JoinSnoc(parts, cur);
    JoinSnoc(parts, cur + [c]);
    QuotePartSnoc(cur, c);
    if parts != [] {
      Associative(EscapeAndJoin(parts) + [Delimiter], QuotePart(cur), Quoted(c));
    }
  }

  lemma JoinStarts(parts: seq<string>, cur: string)
    ensures EscapeAndJoin(parts + [cur] + [""]) == EscapeAndJoin(parts + [cur]) + [Delimiter]
  {
    JoinSnoc(parts + [cur], "");
  }

  /** What was taken apart, joined again, is what was read, but for an escape
      with nothing after it. */
  ghost predicate JoinsBack(s: string, scan: Scan) {
    EscapeAndJoin(scan.parts + [scan.cur]) + (if scan.escaped then [EscapeChar] else "") == s
  }

  lemma JoinsBackNext(s: string, scan: Scan, r: char)
    requires JoinsBack(s, scan) && ScanRune(Some(scan), r).Some?
    ensures JoinsBack(s + [r], ScanRune(Some(scan), r).value)
  {
    var Scan(parts, cur, escaped) := scan;
    if !escaped && r == Delimiter {
      JoinStarts(parts, cur);
    } else if escaped || r != EscapeChar {
      JoinGrows(parts, cur, r);
      Associative(EscapeAndJoin(parts + [cur]), [EscapeChar], [r]);
    }
  }

  ghost predicate ScannedRight(s: string, scan: Option<Scan>) {
    && (scan.Some? <==> ValidEscapes(s))
    && (scan.Some? ==> (scan.value.escaped <==> Escapes(s, |s|)) && JoinsBack(s, scan.value))
  }

  lemma ScannedRightNext(s: string, scan: Option<Scan>, r: char)
    requires ScannedRight(s, scan)
    ensures ScannedRight(s + [r], ScanRune(scan, r))
  {
    ValidNext(s + [r]);
    assert (s + [r])[..|s|] == s;
    if ScanRune(scan, r).Some? {
      JoinsBackNext(s, scan.value, r);
    }
  }

  lemma {:induction false} ScanIsRight(s: string)
    ensures ScannedRight(s, ScanAll(s))
    decreases |s|
  {
    if s == "" {
      assert [] + [""] == [""];
    } else {
      var init, r := s[..|s| - 1], s[|s| - 1];
      ScanIsRight(init);
      ScannedRightNext(init, ScanAll(init), r);
      assert s == init + [r];
    }
  }

  /** A string can be taken apart if and only if every escape in it stands before
      a delimiter or an escape, or at the end. */
  lemma SplitsExactlyWhen(s: string)
    ensures Parts(s).Some? <==> ValidEscapes(s)
  {
    ScanIsRight(s);
  }

  /** Joining the parts gives the string back, less an escape at its end. */
  lemma JoinUndoesSplit(s: string)
    requires ValidEscapes(s)
    ensures Parts(s).Some?
    ensures EscapeAndJoin(Parts(s).value) == if Escapes(s, |s|) then s[..|s| - 1] else s
  {
    ScanIsRight(s);
    var j := EscapeAndJoin(Parts(s).value);
    if Escapes(s, |s|) {
      assert j == (j + [EscapeChar])[..|j|];
    } else {
      assert j + "" == j;
    }
  }
}
