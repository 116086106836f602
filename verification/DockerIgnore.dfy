/** Ignoring a whole directory at once, and when that agrees with matching each
    file below it. Patterns are absolute and clean, with wildcards `*`, `**`
    and `?`. */
module DockerIgnore {
  import opened Shared
  import opened Paths

  datatype Pattern = Pattern(segments: Path, exclusion: bool)

  // ---- the matcher: patterns compiled to anchored expressions ----

  datatype Token =
    | Lit(c: char)
    | AnyChar    // ?    one character, not a slash
    | AnyName    // *    characters other than slashes
    | AnyDirs    // **/  nothing, or anything up to a slash
    | Everything // **   at the end: anything

  function Compile(p: string): seq<Token>
    decreases |p|
  {
    if p == "" then []
    else if p[0] == '*' then
      if |p| > 1 && p[1] == '*' then
        var rest := if |p| > 2 && p[2] == '/' then p[3..] else p[2..];
        if rest == "" then [Everything] else [AnyDirs] + Compile(rest)
      else
        [AnyName] + Compile(p[1..])
    else
      [if p[0] == '?' then AnyChar else Lit(p[0])] + Compile(p[1..])
  }

  /** The whole of s matches; a match also covers everything below it. */
  predicate MatchTokens(ts: seq<Token>, s: string)
    decreases |ts|, |s|
  {
    if ts == [] then AtBoundary(s)
    else
      match ts[0]
      case Lit(c) => s != "" && s[0] == c && MatchTokens(ts[1..], s[1..])
      case AnyChar => s != "" && s[0] != '/' && MatchTokens(ts[1..], s[1..])
      case AnyName => MatchTokens(ts[1..], s) || (s != "" && s[0] != '/' && MatchTokens(ts, s[1..]))
      case AnyDirs => MatchTokens(ts[1..], s) || exists k :: 0 <= k < |s| && s[k] == '/' && MatchTokens(ts[1..], s[k + 1..])
      case Everything => true
  }

  predicate PatternMatches(p: Pattern, f: Path) {
    MatchTokens(Compile(Render(p.segments)), Render(f))
  }

  /** The last pattern that matches decides. */
  predicate Matched(ps: seq<Pattern>, f: Path) {
    if ps == [] then false
    else
      var last := ps[|ps| - 1];
      if PatternMatches(last, f) then !last.exclusion else Matched(ps[..|ps| - 1], f)
  }

  lemma MatchedNext(ps: seq<Pattern>, i: nat, f: Path)
    requires i < |ps|
    ensures Matched(ps[..i + 1], f) == if PatternMatches(ps[i], f) then !ps[i].exclusion else Matched(ps[..i], f)
  {
    assert ps[..i + 1][..i] == ps[..i];
  }

  method Matches(ps: seq<Pattern>, f: Path) returns (matched: bool)
    ensures matched == Matched(ps, f)
  {
    matched := false;
    for i := 0 to |ps|
      invariant matched == Matched(ps[..i], f)
    {
      var negative := ps[i].exclusion;
      MatchedNext(ps, i, f);
      if PatternMatches(ps[i], f) {
        matched := !negative;
      }
    }
    assert ps[..|ps|] == ps;
  }

  // ---- the shortcut for whole directories ----

  predicate Starred(s: Segment) {
    '*' in s
  }

  /** How many leading segments have no star. */
  function StarFree(p: Path): (n: nat)
    ensures n <= |p|
    ensures forall i :: 0 <= i < n ==> !Starred(p[i])
    ensures n < |p| ==> Starred(p[n])
  {
    if p == [] || Starred(p[0]) then 0 else 1 + StarFree(p[1..])
  }

  /** The concrete directory a pattern starts with. A star in the first segment
      leaves the empty string, not the root. */
  method DefinitePatternPrefix(p: Path) returns (prefix: DirName)
    ensures prefix == if StarFree(p) == 0 < |p| then Blank else Named(p[..StarFree(p)])
  {
    for i := 0 to |p|
      invariant forall j :: 0 <= j < i ==> !Starred(p[j])
    {
      if Starred(p[i]) {
        assert StarFree(p) == i by {
          assert !(StarFree(p) < i);
        }
        return if i == 0 then Blank else Named(p[..i]);
      }
    }
    assert StarFree(p) == |p|;
    assert p[..|p|] == p;
    prefix := Named(p);
  }

  /** An exclusion that the shortcut takes to concern something in f. */
  predicate Blocks(p: Pattern, f: Path) {
    || f <= p.segments
    || (0 < StarFree(p.segments) < |p.segments| && p.segments[..StarFree(p.segments)] <= f)
  }

  predicate NoneBlocks(ps: seq<Pattern>, f: Path) {
    forall p :: p in ps && p.exclusion ==> !Blocks(p, f)
  }

  predicate EntireDir(ps: seq<Pattern>, f: Path) {
    Matched(ps, f) && NoneBlocks(ps, f)
  }

  lemma NoneBlocksNext(ps: seq<Pattern>, i: nat, f: Path)
    requires i < |ps|
    ensures NoneBlocks(ps[..i + 1], f) <==> NoneBlocks(ps[..i], f) && (ps[i].exclusion ==> !Blocks(ps[i], f))
    ensures ps[i].exclusion && Blocks(ps[i], f) ==> !NoneBlocks(ps, f)
  {
    assert ps[..i + 1] == ps[..i] + [ps[i]];
    assert ps[i] in ps;
  }

  method MatchesEntireDir(ps: seq<Pattern>, f: Path) returns (matches: bool)
    ensures matches == EntireDir(ps, f)
  {
    matches := Matches(ps, f);
    if !matches {
      return false;
    }
    for i := 0 to |ps|
      invariant NoneBlocks(ps[..i], f)
    {
      NoneBlocksNext(ps, i, f);
      if !ps[i].exclusion {
        continue;
      }
      var _, below := Child(Named(f), ps[i].segments);
      if below {
        return false;
      }
      var prefix := DefinitePatternPrefix(ps[i].segments);
      var _, inside := Child(prefix, f);
      if prefix != Named(ps[i].segments) && inside {
        return false;
      }
    }
    assert ps[..|ps|] == ps;
  }

  // ---- what a match covers ----

  /** A match extends to everything below what was matched. */
  lemma {:induction false} MatchExtends(ts: seq<Token>, s: string, t: string)
    requires MatchTokens(ts, s) && AtBoundary(t)
    ensures MatchTokens(ts, s + t)
    decreases |ts|, |s|
  {
    if ts == [] {
      if s == "" {
        assert s + t == t;
      }
    } else {
      match ts[0]
      case Lit(c) =>
        assert (s + t)[1..] == s[1..] + t;
        MatchExtends(ts[1..], s[1..], t);
      case AnyChar =>
        assert (s + t)[1..] == s[1..] + t;
        MatchExtends(ts[1..], s[1..], t);
      case AnyName =>
        if MatchTokens(ts[1..], s) {
          MatchExtends(ts[1..], s, t);
        } else {
          assert (s + t)[1..] == s[1..] + t;
          MatchExtends(ts, s[1..], t);
        }
      case AnyDirs =>
        if MatchTokens(ts[1..], s) {
          MatchExtends(ts[1..], s, t);
        } else {
          var k :| 0 <= k < |s| && s[k] == '/' && MatchTokens(ts[1..], s[k + 1..]);
          assert (s + t)[k + 1..] == s[k + 1..] + t;
          MatchExtends(ts[1..], s[k + 1..], t);
          assert (s + t)[k] == '/';
        }
      case Everything =>
    }
  }

  lemma MatchCoversBelow(p: Pattern, f: Path, g: Path)
    requires PatternMatches(p, f) && f <= g && f != []
    ensures PatternMatches(p, g)
  {
    JoinConcat(f, g[|f|..]);
    assert g == f + g[|f|..];
    MatchExtends(Compile(Render(p.segments)), Render(f), Join(g[|f|..]));
  }

  // ---- patterns without wildcards ----

  predicate Wild(s: string) {
    '*' in s || '?' in s
  }

  function Lits(s: string): seq<Token> {
    if s == "" then [] else [Lit(s[0])] + Lits(s[1..])
  }

  lemma {:induction false} CompileLiteral(lit: string, rest: string)
    requires !Wild(lit)
    ensures Compile(lit + rest) == Lits(lit) + Compile(rest)
    decreases |lit|
  {
    if lit == "" {
      assert lit + rest == rest;
    } else {
      assert (lit + rest)[0] == lit[0] && lit[0] in lit;
      assert (lit + rest)[1..] == lit[1..] + rest;
      CompileLiteral(lit[1..], rest);
    }
  }

  lemma {:induction false} MatchLiteral(lit: string, ts: seq<Token>, s: string)
    ensures MatchTokens(Lits(lit) + ts, s) <==> lit <= s && MatchTokens(ts, s[|lit|..])
    decreases |lit|
  {
    if lit == "" {
      assert Lits(lit) + ts == ts;
      assert s[0..] == s;
    } else {
      var all := Lits(lit) + ts;
      assert all[0] == Lit(lit[0]) && all[1..] == Lits(lit[1..]) + ts;
      if s != "" && s[0] == lit[0] {
        MatchLiteral(lit[1..], ts, s[1..]);
        assert lit <= s <==> lit[1..] <= s[1..] by {
          assert lit == [lit[0]] + lit[1..] && s == [s[0]] + s[1..];
        }
        if lit <= s {
          assert s[1..][|lit[1..]|..] == s[|lit|..];
        }
      }
    }
  }

  /** Segments without wildcards. */
  predicate Plain(p: Path) {
    forall i :: 0 <= i < |p| ==> !Wild(p[i])
  }

  lemma {:induction false} PlainJoin(p: Path)
    requires Plain(p)
    ensures !Wild(Join(p))
    decreases |p|
  {
    if p != [] {
      PlainJoin(p[1..]);
    }
  }

  /** A pattern that starts with plain segments matches only below them. */
  lemma MatchIsBelowPlainPrefix(p: Path, k: nat, g: Path)
    requires 0 < k <= |p| && Plain(p[..k])
    requires MatchTokens(Compile(Render(p)), Render(g))
    ensures p[..k] <= g
    ensures MatchTokens(Compile(Join(p[k..])), Join(g[k..]))
  {
    var l := p[..k];
    assert p == l + p[k..];
    JoinConcat(l, p[k..]);
    PlainJoin(l);
    CompileLiteral(Join(l), Join(p[k..]));
    MatchLiteral(Join(l), Compile(Join(p[k..])), Render(g));
    var t := Render(g)[|Join(l)|..];
    assert AtBoundary(t) by {
      if k < |p| {
        assert Join(p[k..])[0] == '/';
        assert Compile(Join(p[k..]))[0] == Lit('/');
      }
    }
    assert Render(g) == Join(l) + t;
    assert g != [];
    JoinPrefix(l, t, g);
  }

  lemma PlainMatchesBelow(p: Path, g: Path)
    requires p != [] && Plain(p) && p <= g
    ensures MatchTokens(Compile(Render(p)), Render(g))
  {
    assert g == p + g[|p|..];
    JoinConcat(p, g[|p|..]);
    PlainJoin(p);
    CompileLiteral(Join(p), "");
    assert Join(p) + "" == Join(p);
    MatchLiteral(Join(p), [], Join(g));
    assert Lits(Join(p)) + [] == Lits(Join(p));
    assert Join(g)[|Join(p)|..] == Join(g[|p|..]);
  }

  // ---- what a first name decides ----

  /** How many characters the tokens ask for. */
  function Needed(ts: seq<Token>): nat {
    if ts == [] || ts[0].Everything? then 0
    else (if ts[0].Lit? || ts[0].AnyChar? then 1 else 0) + Needed(ts[1..])
  }

  predicate LitFree(ts: seq<Token>) {
    ts == [] || ts[0].Everything? || (!ts[0].Lit? && LitFree(ts[1..]))
  }

  /** Some token takes as many characters of a name as there are. */
  predicate Stretches(ts: seq<Token>) {
    ts != [] && (ts[0].AnyName? || ts[0].Everything? || Stretches(ts[1..]))
  }

  /** No slash is asked for, and what comes after directories asks for nothing. */
  predicate OneName(ts: seq<Token>) {
    ts == [] ||
    match ts[0]
    case Lit(c) => c != '/' && OneName(ts[1..])
    case AnyDirs => Needed(ts[1..]) == 0
    case Everything => true
    case _ => OneName(ts[1..])
  }

  /** Any name will do. */
  predicate EveryName(ts: seq<Token>) {
    LitFree(ts) && Needed(ts) == 1 && Stretches(ts)
  }

  /** Compiled tokens never end in directories: something follows these. */
  predicate WellEnded(ts: seq<Token>) {
    ts == [] || !ts[|ts| - 1].AnyDirs?
  }

  lemma {:induction false} CompiledIsWellEnded(r: string)
    ensures WellEnded(Compile(r)) && (r != "" ==> Compile(r) != [])
    decreases |r|
  {
    if r == "" {
    } else if r[0] == '*' && |r| > 1 && r[1] == '*' {
      var rest := if |r| > 2 && r[2] == '/' then r[3..] else r[2..];
      CompiledIsWellEnded(rest);
    } else {
      CompiledIsWellEnded(r[1..]);
    }
  }

  lemma {:induction false} NameMatchesAnything(s: string)
    ensures MatchTokens([AnyName], s)
    decreases |s|
  {
    assert [AnyName][1..] == [];
    if !AtBoundary(s) {
      NameMatchesAnything(s[1..]);
    }
  }

  /** Tokens that match nothing match everything. */
  lemma {:induction false} NothingOrAnything(ts: seq<Token>, s: string)
    requires ts != [] && WellEnded(ts) && MatchTokens(ts, "")
    ensures MatchTokens(ts, s)
    decreases |ts|
  {
    if |ts| > 1 && !ts[0].Everything? {
      NothingOrAnything(ts[1..], s);
    } else if ts[0].AnyName? {
      assert ts == [AnyName];
      NameMatchesAnything(s);
    }
  }

  lemma {:induction false} NothingNeeded(ts: seq<Token>)
    requires Needed(ts) == 0
    ensures MatchTokens(ts, "")
    decreases |ts|
  {
    if ts != [] && !ts[0].Everything? {
      NothingNeeded(ts[1..]);
    }
  }

  lemma NeedlessMatchesAnything(ts: seq<Token>, s: string)
    requires ts != [] && WellEnded(ts) && Needed(ts) == 0
    ensures MatchTokens(ts, s)
  {
    NothingNeeded(ts);
    NothingOrAnything(ts, s);
  }

  /** Such tokens match a name by itself if they match it with more segments. */
  lemma {:induction false} MatchByName(ts: seq<Token>, name: string, t: string)
    requires OneName(ts) && WellEnded(ts) && '/' !in name && AtBoundary(t)
    requires MatchTokens(ts, name + t)
    ensures MatchTokens(ts, name)
    decreases |ts|, |name|
  {
    if name == "" {
      assert name + t == t;
    } else {
      assert (name + t)[1..] == name[1..] + t;
      assert name[0] in name;
    }
    if ts != [] {
      match ts[0]
      case Lit(c) =>
        if name != "" { MatchByName(ts[1..], name[1..], t); }
      case AnyChar =>
        if name != "" { MatchByName(ts[1..], name[1..], t); }
      case AnyName =>
        if MatchTokens(ts[1..], name + t) {
          MatchByName(ts[1..], name, t);
        } else {
          MatchByName(ts, name[1..], t);
        }
      case AnyDirs => NeedlessMatchesAnything(ts[1..], name);
      case Everything =>
    }
  }

  lemma {:induction false} OneCharacterMatches(ts: seq<Token>, c: char)
    requires LitFree(ts) && Needed(ts) == 1 && c != '/'
    ensures MatchTokens(ts, [c])
    decreases |ts|
  {
    if ts[0].AnyChar? {
      NothingNeeded(ts[1..]);
      assert [c][1..] == "";
    } else {
      OneCharacterMatches(ts[1..], c);
    }
  }

  lemma {:induction false} EveryNameMatches(ts: seq<Token>, name: string)
    requires EveryName(ts) && WellEnded(ts) && name != "" && '/' !in name
    ensures MatchTokens(ts, name)
    decreases |ts|, |name|
  {
    assert name[0] in name;
    match ts[0]
    case AnyChar =>
      assert Stretches(ts[1..]) && Needed(ts[1..]) == 0;
      assert ts[1..][|ts| - 2] == ts[|ts| - 1];
      NeedlessMatchesAnything(ts[1..], name[1..]);
    case AnyName =>
      if |name| == 1 {
        OneCharacterMatches(ts[1..], name[0]);
        assert name == [name[0]];
      } else {
        EveryNameMatches(ts, name[1..]);
      }
    case AnyDirs => EveryNameMatches(ts[1..], name);
  }

  lemma {:induction false} StarlessIsOneName(s: string)
    requires '*' !in s && '/' !in s
    ensures OneName(Compile(s))
    decreases |s|
  {
    if s != "" {
      assert s[0] in s;
      StarlessIsOneName(s[1..]);
    }
  }

  // ---- when the shortcut sees every exclusion below a directory ----

  /** How many leading segments have no wildcard at all. */
  function PlainCount(p: Path): (n: nat)
    ensures n <= |p| && Plain(p[..n])
    ensures n < |p| ==> Wild(p[n])
  {
    if p == [] || Wild(p[0]) then 0
    else
      var n := 1 + PlainCount(p[1..]);
      assert forall i :: 1 <= i < n ==> p[i] == p[1..][..n - 1][i - 1];
      n
  }

  /** The first segment with a wildcard has a star and is not the first segment,
      or it is the last and has none, or the first name decides. */
  ghost predicate Definite(p: Path) {
    var k := PlainCount(p);
    || k == |p|
    || (k > 0 && Starred(p[k]))
    || (k == |p| - 1 && !Starred(p[k]))
    || (k == 0 && FirstNameDecides(p))
  }

  predicate FirstNameDecides(p: Path) {
    var ts := Compile(Render(p)[1..]);
    OneName(ts) || EveryName(ts)
  }

  lemma StarFreeIsPlainCount(p: Path)
    requires PlainCount(p) < |p| && Starred(p[PlainCount(p)])
    ensures StarFree(p) == PlainCount(p)
  {
    var k := PlainCount(p);
    forall i | 0 <= i < k
      ensures !Starred(p[i])
    {
      assert p[i] == p[..k][i];
    }
    assert !(StarFree(p) < k) && !(StarFree(p) > k);
  }

  /** Below its plain segments, only the last segment of p is left to match. */
  lemma MatchLastSegment(p: Path, h: Path)
    requires p != [] && Plain(p[..|p| - 1])
    requires |h| >= |p| && h[..|p| - 1] == p[..|p| - 1]
    ensures var k := |p| - 1;
            MatchTokens(Compile(Render(p)), Render(h)) <==> MatchTokens(Compile(p[k]), h[k] + Join(h[k + 1..]))
  {
    var k := |p| - 1;
    var dir := Join(p[..k]) + "/";
    SplitPath(p, k);
    SplitPath(h, k);
    PlainJoin(p[..k]);
    assert Join(p[k + 1..]) == "" && p[k] + "" == p[k];
    CompileLiteral(dir, p[k]);
    MatchLiteral(dir, Compile(p[k]), Render(h));
    assert Render(h)[|dir|..] == h[k] + Join(h[k + 1..]);
  }

  lemma NameDecides(segment: Segment, name: Segment, t: string, t': string)
    requires !Starred(segment) && AtBoundary(t) && AtBoundary(t')
    requires MatchTokens(Compile(segment), name + t)
    ensures MatchTokens(Compile(segment), name + t')
  {
    StarlessIsOneName(segment);
    CompiledIsWellEnded(segment);
    MatchByName(Compile(segment), name, t);
    MatchExtends(Compile(segment), name, t');
  }

  /** If only the last segment of p is wild, p already matches the ancestor of
      g that has as many segments, and everything below that. */
  lemma LastSegmentMatchesEarly(p: Path, f: Path, g: Path)
    requires p != [] && Plain(p[..|p| - 1]) && !Starred(p[|p| - 1])
    requires f <= g && |f| >= |p|
    requires MatchTokens(Compile(Render(p)), Render(g))
    ensures MatchTokens(Compile(Render(p)), Render(f))
  {
    var k := |p| - 1;
    assert p[..k] <= g by {
      if k > 0 {
        MatchIsBelowPlainPrefix(p, k, g);
      } else {
        assert p[..k] == [];
      }
    }
    assert f == g[..|f|] && f[..k] == g[..|f|][..k];
    MatchLastSegment(p, g);
    NameDecides(p[k], g[k], Join(g[k + 1..]), Join(f[k + 1..]));
    MatchLastSegment(p, f);
  }

  lemma CompileSlash(r: string)
    ensures Compile("/" + r) == [Lit('/')] + Compile(r)
  {
    assert ("/" + r)[1..] == r;
  }

  lemma MatchSlash(ts: seq<Token>, s: string)
    ensures MatchTokens([Lit('/')] + ts, "/" + s) <==> MatchTokens(ts, s)
  {
    assert ([Lit('/')] + ts)[1..] == ts && ("/" + s)[1..] == s;
  }

  lemma JoinSlash(p: Path)
    requires p != []
    ensures Join(p) == "/" + (p[0] + Join(p[1..])) && Join(p)[1..] == p[0] + Join(p[1..])
  {
    Associative("/", p[0], Join(p[1..]));
  }

  lemma RenderSlash(p: Path)
    ensures Render(p) == "/" + Render(p)[1..]
  {
    if p != [] {
      JoinSlash(p);
    }
  }

  /** What comes after the first slash. */
  lemma AfterSlash(p: Path, f: Path)
    requires f != []
    ensures var ts := Compile(Render(p)[1..]);
            MatchTokens(Compile(Render(p)), Render(f)) <==> MatchTokens(ts, f[0] + Join(f[1..]))
  {
    RenderSlash(p);
    CompileSlash(Render(p)[1..]);
    JoinSlash(f);
    MatchSlash(Compile(Render(p)[1..]), f[0] + Join(f[1..]));
  }

  /** If the first name decides, p already matches every ancestor of g but the
      root. */
  lemma FirstNameMatchesEarly(p: Path, f: Path, g: Path)
    requires p != [] && FirstNameDecides(p) && f <= g && f != []
    requires MatchTokens(Compile(Render(p)), Render(g))
    ensures MatchTokens(Compile(Render(p)), Render(f))
  {
    var ts := Compile(Render(p)[1..]);
    AfterSlash(p, f);
    AfterSlash(p, g);
    CompiledIsWellEnded(Render(p)[1..]);
    var name := g[0];
    if OneName(ts) {
      MatchByName(ts, name, Join(g[1..]));
    } else {
      EveryNameMatches(ts, name);
    }
    MatchExtends(ts, name, Join(f[1..]));
  }

  lemma SplitPath(f: Path, k: nat)
    requires k < |f|
    ensures Render(f) == (Join(f[..k]) + "/") + (f[k] + Join(f[k + 1..]))
  {
    assert f == f[..k] + f[k..];
    JoinConcat(f[..k], f[k..]);
    assert f[k..][1..] == f[k + 1..];
  }

  lemma AncestorsOfOne(a: Path, b: Path, g: Path)
    requires a <= g && b <= g
    ensures a <= b || b <= a
  {
    if |a| <= |b| {
      assert a == g[..|a|] == b[..|a|];
    } else {
      assert b == g[..|b|] == a[..|b|];
    }
  }

  lemma RootMatchesRoot(g: Path)
    requires MatchTokens(Compile(Render([])), Render(g))
    ensures g == []
  {
  }

  /** An exclusion that matches a file below f either matches f itself or
      makes the shortcut give up on f. */
  lemma ExclusionNoticed(p: Pattern, f: Path, g: Path)
    requires Definite(p.segments) && f <= g && f != []
    requires PatternMatches(p, g)
    ensures PatternMatches(p, f) || Blocks(p, f)
  {
    var segs := p.segments;
    var k := PlainCount(segs);
    if f <= segs {
      return;
    }
    if k > 0 {
      MatchIsBelowPlainPrefix(segs, k, g);
      AncestorsOfOne(segs[..k], f, g);
      assert f <= segs[..k] ==> f <= segs;
    }
    if segs == [] {
      RootMatchesRoot(g);
    } else if k == |segs| {
      assert segs[..k] == segs;
      PlainMatchesBelow(segs, f);
    } else if k > 0 && Starred(segs[k]) {
      StarFreeIsPlainCount(segs);
    } else if k == 0 && FirstNameDecides(segs) {
      FirstNameMatchesEarly(segs, f, g);
    } else {
      assert |f| != k by {
        assert segs[..k] <= segs;
      }
      LastSegmentMatchesEarly(segs, f, g);
    }
  }

  // ---- soundness ----

  lemma {:induction false} LastMatchCarriesOver(ps: seq<Pattern>, f: Path, g: Path)
    requires forall p :: p in ps && PatternMatches(p, f) ==> PatternMatches(p, g)
    requires forall p :: p in ps && p.exclusion && PatternMatches(p, g) ==> PatternMatches(p, f)
    requires Matched(ps, f)
    ensures Matched(ps, g)
    decreases |ps|
  {
    var last := ps[|ps| - 1];
    assert last in ps;
    if !PatternMatches(last, g) {
      LastMatchCarriesOver(ps[..|ps| - 1], f, g);
    }
  }

  // ---- the root ----

  /** A pattern that matches the root matches every path, exactly when it is not
      the pattern for the root. */
  lemma RootMatchCoversAllExactlyWhen(p: Pattern)
    requires PatternMatches(p, [])
    ensures (forall g: Path :: PatternMatches(p, g)) <==> p.segments != []
  {
    var text := Render(p.segments);
    var ts := Compile(text[1..]);
    assert Compile(text) == [Lit('/')] + ts && ([Lit('/')] + ts)[1..] == ts;
    assert Render([])[1..] == "";
    if p.segments != [] {
      CompiledIsWellEnded(text[1..]);
      forall g: Path
        ensures PatternMatches(p, g)
      {
        NothingOrAnything(ts, Render(g)[1..]);
      }
    } else {
      if PatternMatches(p, ["a"]) {
        RootMatchesRoot(["a"]);
      }
    }
  }

  lemma {:induction false} InclusionDecides(ps: seq<Pattern>, p: Pattern, g: Path)
    requires p in ps && PatternMatches(p, g) && forall q :: q in ps ==> !q.exclusion
    ensures Matched(ps, g)
    decreases |ps|
  {
    var last := ps[|ps| - 1];
    assert last in ps;
    if !PatternMatches(last, g) {
      InclusionDecides(ps[..|ps| - 1], p, g);
    }
  }

  /** At the root every exclusion makes the shortcut give up. */
  lemma RootIsSound(ps: seq<Pattern>, p: Pattern, g: Path)
    requires EntireDir(ps, []) && p in ps && PatternMatches(p, []) && p.segments != []
    ensures Matched(ps, g)
  {
    forall q | q in ps
      ensures !q.exclusion
    {
      assert Blocks(q, []);
    }
    RootMatchCoversAllExactlyWhen(p);
    InclusionDecides(ps, p, g);
  }

  /** Some pattern other than that for the root matches the root. */
  ghost predicate RootCovered(ps: seq<Pattern>) {
    exists p :: p in ps && PatternMatches(p, []) && p.segments != []
  }

  /** If the shortcut accepts a directory, every file at or below it is
      ignored, however inclusions and exclusions are interleaved. The root must
      not be matched by the pattern for the root alone. */
  lemma MatchesEntireDirIsSound(ps: seq<Pattern>, f: Path, g: Path)
    requires forall p :: p in ps && p.exclusion ==> Definite(p.segments)
    requires EntireDir(ps, f) && f <= g && (f == [] ==> RootCovered(ps))
    ensures Matched(ps, g)
  {
    if f == [] {
      var p :| p in ps && PatternMatches(p, []) && p.segments != [];
      RootIsSound(ps, p, g);
      return;
    }
    forall p | p in ps && PatternMatches(p, f)
      ensures PatternMatches(p, g)
    {
      MatchCoversBelow(p, f, g);
    }
    forall p | p in ps && p.exclusion && PatternMatches(p, g)
      ensures PatternMatches(p, f)
    {
      ExclusionNoticed(p, f, g);
    }
    LastMatchCarriesOver(ps, f, g);
  }

  /** The root itself is different: the pattern "/" matches only the root, so
      the shortcut accepts it although no file below it is ignored. */
  lemma RootIsNotCovered(file: Segment)
    ensures var ps := [Pattern([], false)];
            EntireDir(ps, []) && !Matched(ps, [file])
  {
    var root := Pattern([], false);
    assert Compile("/") == [Lit('/')] + Compile("/"[1..]);
    assert "/"[1..] == "";
    assert MatchTokens([Lit('/')], "/");
    if PatternMatches(root, [file]) {
      RootMatchesRoot([file]);
    }
    assert [root][..0] == [];
  }
}
