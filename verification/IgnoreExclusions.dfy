/** Which exclusions the shortcut for whole directories handles soundly: exactly
    the definite ones. For any other there is a directory that the shortcut
    accepts although the exclusion matches a file in it. */
module IgnoreExclusions {
  import opened Paths
  import opened DockerIgnore

  /** After any inclusions, excluding p keeps the shortcut sound. */
  ghost predicate SafeExclusion(p: Path) {
    forall ps: seq<Pattern>, f: Path, g: Path ::
      (forall q :: q in ps ==> !q.exclusion) && f <= g && EntireDir(ps + [Pattern(p, true)], f)
      ==> Matched(ps + [Pattern(p, true)], g)
  }

  // ---- a text that a pattern matches ----

  /** One way to fill in the tokens. */
  function Fill(ts: seq<Token>): string {
    if ts == [] then ""
    else
      match ts[0]
      case Lit(c) => [c] + Fill(ts[1..])
      case AnyDirs => Fill(ts[1..])
      case Everything => "x"
      case _ => "x" + Fill(ts[1..])
  }

  lemma {:induction false} FillMatches(ts: seq<Token>)
    ensures MatchTokens(ts, Fill(ts))
    decreases |ts|
  {
    if ts != [] && !ts[0].Everything? {
      FillMatches(ts[1..]);
      if !ts[0].AnyDirs? {
        assert Fill(ts)[1..] == Fill(ts[1..]);
      }
      if ts[0].AnyName? {
        assert MatchTokens(ts, Fill(ts)[1..]);
      }
    }
  }

  lemma {:induction false} FillIsPlain(r: string)
    ensures !Wild(Fill(Compile(r)))
    decreases |r|
  {
    if r == "" {
    } else if r[0] == '*' && |r| > 1 && r[1] == '*' {
      var rest := if |r| > 2 && r[2] == '/' then r[3..] else r[2..];
      FillIsPlain(rest);
      assert rest != "" ==> Compile(r)[1..] == Compile(rest);
    } else {
      FillIsPlain(r[1..]);
      assert Compile(r)[1..] == Compile(r[1..]);
    }
  }

  // ---- texts and paths ----

  /** The text of a path without its first slash. */
  predicate Clean(s: string) {
    s != "" && s[0] != '/' && (|s| == 1 || (if s[1] == '/' then Clean(s[2..]) else Clean(s[1..])))
  }

  lemma {:induction false} PathOf(s: string) returns (h: Path)
    requires Clean(s)
    ensures h != [] && Join(h) == "/" + s
    decreases |s|
  {
    if |s| == 1 {
      h := [s];
    } else if s[1] == '/' {
      var rest := PathOf(s[2..]);
      h := [[s[0]]] + rest;
      assert h[1..] == rest;
    } else {
      var rest := PathOf(s[1..]);
      h := [[s[0]] + rest[0]] + rest[1..];
      assert h[1..] == rest[1..];
      assert "/" + s[1..] == "/" + (rest[0] + Join(rest[1..]));
      assert s[1..] == ("/" + s[1..])[1..] == rest[0] + Join(rest[1..]);
    }
  }

  lemma {:induction false} CleanSegment(a: string, t: string)
    requires a != "" && '/' !in a && (t == "" || (t[0] == '/' && Clean(t[1..])))
    ensures Clean(a + t)
    decreases |a|
  {
    var s := a + t;
    assert a[0] in a && s[0] == a[0];
    if |a| == 1 {
      if t != "" {
        assert s[1] == t[0] && s[2..] == t[1..];
      }
    } else {
      assert a[1] in a && s[1] == a[1];
      CleanSegment(a[1..], t);
      assert s[1..] == a[1..] + t;
    }
  }

  lemma {:induction false} CleanJoin(p: Path)
    requires p != []
    ensures Clean(Join(p)[1..])
    decreases |p|
  {
    if |p| > 1 {
      CleanJoin(p[1..]);
    }
    CleanSegment(p[0], Join(p[1..]));
    JoinSlash(p);
  }

  function TokenOf(c: char): Token {
    if c == '*' then AnyName else if c == '?' then AnyChar else Lit(c)
  }

  function Filled(c: char): char {
    if c == '*' || c == '?' then 'x' else c
  }

  predicate BeginsDoubleStar(r: string) {
    |r| > 1 && r[0] == '*' && r[1] == '*'
  }

  lemma CompileOne(r: string)
    requires r != "" && !BeginsDoubleStar(r)
    ensures Compile(r) == [TokenOf(r[0])] + Compile(r[1..])
  {
  }

  lemma FillCons(t: Token, ts: seq<Token>)
    requires !t.AnyDirs? && !t.Everything?
    ensures Fill([t] + ts) == [if t.Lit? then t.c else 'x'] + Fill(ts)
  {
    assert ([t] + ts)[1..] == ts;
  }

  /** A character that begins no double star. */
  lemma FillsOne(r: string)
    requires r != "" && !BeginsDoubleStar(r)
    ensures Fill(Compile(r)) == [Filled(r[0])] + Fill(Compile(r[1..]))
  {
    CompileOne(r);
    FillCons(TokenOf(r[0]), Compile(r[1..]));
  }

  /** What follows a double star, with its slash. */
  function AfterStars(r: string): string
    requires BeginsDoubleStar(r)
  {
    if |r| > 2 && r[2] == '/' then r[3..] else r[2..]
  }

  lemma FillsStars(r: string)
    requires BeginsDoubleStar(r)
    ensures Fill(Compile(r)) == if AfterStars(r) == "" then "x" else Fill(Compile(AfterStars(r)))
  {
    var rest := AfterStars(r);
    if rest == "" {
      assert Compile(r) == [Everything];
    } else {
      assert Compile(r) == [AnyDirs] + Compile(rest);
      assert ([AnyDirs] + Compile(rest))[1..] == Compile(rest);
    }
  }

  lemma AfterStarsIsClean(r: string)
    requires BeginsDoubleStar(r) && Clean(r)
    ensures AfterStars(r) == "" || Clean(AfterStars(r))
  {
    var s := r[1..];
    assert Clean(s);
    if |r| > 2 {
      assert s[1] == r[2] && s[2..] == r[3..] && s[1..] == r[2..];
    }
  }

  lemma CleanCons(c: char, s: string)
    requires c != '/' && (s == "" || (s[0] == '/' && Clean(s[1..])) || Clean(s))
    ensures Clean([c] + s)
  {
    var t := [c] + s;
    assert t[1..] == s;
    if s != "" {
      assert t[1] == s[0] && t[2..] == s[1..];
    }
  }

  lemma {:induction false} FillIsClean(r: string)
    requires Clean(r)
    ensures Clean(Fill(Compile(r)))
    decreases |r|
  {
    if BeginsDoubleStar(r) {
      FillsStars(r);
      AfterStarsIsClean(r);
      if AfterStars(r) != "" {
        FillIsClean(AfterStars(r));
      }
    } else {
      FillsOne(r);
      if |r| > 1 && r[1] == '/' {
        FillIsClean(r[2..]);
        FillsOne(r[1..]);
        assert r[1..][1..] == r[2..];
        assert (['/'] + Fill(Compile(r[2..])))[1..] == Fill(Compile(r[2..]));
      } else if |r| > 1 {
        FillIsClean(r[1..]);
      } else {
        assert r[1..] == "" && Fill(Compile("")) == "";
      }
      CleanCons(Filled(r[0]), Fill(Compile(r[1..])));
    }
  }

  lemma PlainPath(h: Path)
    requires !Wild(Join(h))
    ensures Plain(h)
  {
    forall i | 0 <= i < |h|
      ensures !Wild(h[i])
    {
      SplitPath(h, i);
      var before := Join(h[..i]) + "/";
      assert forall j :: 0 <= j < |h[i]| ==> h[i][j] == (before + (h[i] + Join(h[i + 1..])))[|before| + j];
    }
  }

  /** A path without wildcard characters that the pattern matches. */
  lemma SomeMatch(p: Path) returns (g: Path)
    requires p != []
    ensures g != [] && Plain(g) && PatternMatches(Pattern(p, true), g)
  {
    var r := Join(p)[1..];
    var ts := Compile(r);
    CleanJoin(p);
    FillIsClean(r);
    FillMatches(ts);
    FillIsPlain(r);
    g := PathOf(Fill(ts));
    PlainPath(g);
    JoinSlash(p);
    CompileSlash(r);
    MatchSlash(ts, Fill(ts));
  }

  // ---- slashes ----

  function Slashes(s: string): nat {
    if s == "" then 0 else (if s[0] == '/' then 1 else 0) + Slashes(s[1..])
  }

  function LitSlashes(ts: seq<Token>): nat {
    if ts == [] || ts[0].Everything? then 0 else (if ts[0] == Lit('/') then 1 else 0) + LitSlashes(ts[1..])
  }

  lemma {:induction false} SlashesConcat(a: string, b: string)
    ensures Slashes(a + b) == Slashes(a) + Slashes(b)
    decreases |a|
  {
    if a == "" {
      assert a + b == b;
    } else {
      SlashesConcat(a[1..], b);
      assert (a + b)[1..] == a[1..] + b;
    }
  }

  lemma {:induction false} NoSlashes(s: string)
    requires '/' !in s
    ensures Slashes(s) == 0
    decreases |s|
  {
    if s != "" {
      assert s[0] in s;
      NoSlashes(s[1..]);
    }
  }

  lemma {:induction false} JoinSlashes(p: Path)
    ensures Slashes(Join(p)) == |p|
    decreases |p|
  {
    if p != [] {
      JoinSlashes(p[1..]);
      NoSlashes(p[0]);
      SlashesConcat("/" + p[0], Join(p[1..]));
      SlashesConcat("/", p[0]);
    }
  }

  /** Every slash of the pattern that is not part of a double star needs one in
      the path. */
  lemma {:induction false} MatchNeedsSlashes(ts: seq<Token>, s: string)
    requires MatchTokens(ts, s)
    ensures LitSlashes(ts) <= Slashes(s)
    decreases |ts|, |s|
  {
    if ts != [] {
      match ts[0]
      case Lit(c) => MatchNeedsSlashes(ts[1..], s[1..]);
      case AnyChar => MatchNeedsSlashes(ts[1..], s[1..]);
      case AnyName =>
        if MatchTokens(ts[1..], s) {
          MatchNeedsSlashes(ts[1..], s);
        } else {
          MatchNeedsSlashes(ts, s[1..]);
        }
      case AnyDirs =>
        if MatchTokens(ts[1..], s) {
          MatchNeedsSlashes(ts[1..], s);
        } else {
          var k :| 0 <= k < |s| && s[k] == '/' && MatchTokens(ts[1..], s[k + 1..]);
          MatchNeedsSlashes(ts[1..], s[k + 1..]);
          assert s == s[..k + 1] + s[k + 1..];
          SlashesConcat(s[..k + 1], s[k + 1..]);
        }
      case Everything =>
    }
  }

  lemma {:induction false} StarlessSlashes(a: string, b: string)
    requires '*' !in a
    ensures LitSlashes(Compile(a + b)) == Slashes(a) + LitSlashes(Compile(b))
    decreases |a|
  {
    if a == "" {
      assert a + b == b;
    } else {
      assert a[0] in a && (a + b)[0] == a[0] && (a + b)[1..] == a[1..] + b;
      StarlessSlashes(a[1..], b);
      assert Compile(a + b)[1..] == Compile(a[1..] + b);
    }
  }

  // ---- a directory above all that the exclusion matches ----

  lemma MissedByShortcut(p: Path, f: Path)
    requires var k := PlainCount(p); |f| == k + 1 <= |p| && f[k] != p[k] && !(k > 0 && Starred(p[k]))
    ensures !Blocks(Pattern(p, true), f)
  {
    var k, n := PlainCount(p), StarFree(p);
    PlainIsStarFree(p);
    assert n == k ==> n == 0;
    PartAtLast(p, f, k, n);
  }

  /** Paths that differ at k: one that ends there is no prefix of the other. */
  lemma PartAtLast(p: Path, f: Path, k: nat, n: nat)
    requires k < |p| && |f| == k + 1 && f[k] != p[k] && n <= |p| && (n > k || n == 0)
    ensures !(f <= p) && !(0 < n < |p| && p[..n] <= f)
  {
    assert n > k ==> p[..n][k] == p[k];
  }

  lemma PlainIsStarFree(p: Path)
    ensures StarFree(p) >= PlainCount(p)
  {
    var k := PlainCount(p);
    forall i | 0 <= i < k
      ensures !Starred(p[i])
    {
      assert p[i] == p[..k][i];
    }
  }

  /** The exclusion matches g, but not its ancestor f, and no check of the
      shortcut relates the two. */
  ghost predicate Overlooked(p: Path, f: Path, g: Path) {
    && f != [] && f <= g && Plain(f)
    && PatternMatches(Pattern(p, true), g) && !PatternMatches(Pattern(p, true), f)
    && !Blocks(Pattern(p, true), f)
  }

  /** Too many slashes in the pattern for the directory. */
  lemma OverlookedAbove(p: Path) returns (f: Path, g: Path)
    requires var k := PlainCount(p);
             k < |p| && !(k > 0 && Starred(p[k])) && LitSlashes(Compile(Join(p))) >= k + 2
    ensures Overlooked(p, f, g)
  {
    var k := PlainCount(p);
    g := SomeMatch(p);
    JoinSlashes(g);
    MatchNeedsSlashes(Compile(Join(p)), Join(g));
    f := g[..k + 1];
    JoinSlashes(f);
    if PatternMatches(Pattern(p, true), f) {
      MatchNeedsSlashes(Compile(Join(p)), Join(f));
    }
    assert !Wild(f[k]) && Wild(p[k]);
    MissedByShortcut(p, f);
  }

  lemma StarlessHead(p: Path, n: nat)
    requires n <= StarFree(p)
    ensures '*' !in Join(p[..n])
  {
    StarlessJoin(p[..n]);
  }

  lemma SlashFirst(p: Path)
    requires p != []
    ensures LitSlashes(Compile(Join(p))) >= 1
  {
    JoinSlash(p);
    CompileSlash(p[0] + Join(p[1..]));
  }

  lemma SlashesOfBoth(head: Path, tail: Path)
    requires '*' !in Join(head) && tail != []
    ensures LitSlashes(Compile(Join(head + tail))) >= |head| + 1
  {
    JoinConcat(head, tail);
    StarlessSlashes(Join(head), Join(tail));
    JoinSlashes(head);
    SlashFirst(tail);
  }

  lemma WildStarless(p: Path)
    requires PlainCount(p) < |p| && !Starred(p[PlainCount(p)])
    ensures StarFree(p) > PlainCount(p)
  {
    PlainIsStarFree(p);
  }

  /** One slash for each segment before the first star, and one more. */
  lemma StarlessHasSlashes(p: Path, n: nat)
    requires n < |p| && '*' !in Join(p[..n])
    ensures LitSlashes(Compile(Join(p))) >= n + 1
  {
    var head, tail := p[..n], p[n..];
    SlashesOfBoth(head, tail);
    assert head + tail == p;
  }

  lemma {:induction false} StarlessJoin(p: Path)
    requires forall i :: 0 <= i < |p| ==> !Starred(p[i])
    ensures '*' !in Join(p)
    decreases |p|
  {
    if p != [] {
      StarlessJoin(p[1..]);
    }
  }

  // ---- a name that the exclusion matches only with more below it ----

  /** The shortest name the tokens match before directories. */
  function Least(ts: seq<Token>): string {
    if ts == [] then ""
    else
      match ts[0]
      case Lit(c) => [c] + Least(ts[1..])
      case AnyChar => "x" + Least(ts[1..])
      case AnyName => Least(ts[1..])
      case _ => ""
  }

  /** What the tokens after the first directories match. */
  function Below(ts: seq<Token>): string {
    if ts == [] then "" else if ts[0].AnyDirs? then Fill(ts[1..]) else Below(ts[1..])
  }

  lemma {:induction false} FillHasNeeded(ts: seq<Token>)
    requires LitSlashes(ts) == 0
    ensures |Fill(ts)| >= Needed(ts) && '/' !in Fill(ts)
    decreases |ts|
  {
    if ts != [] && !ts[0].Everything? {
      FillHasNeeded(ts[1..]);
    }
  }

  /** With one more name below, the tokens match: what stands between is taken
      for directories. */
  lemma {:induction false} MatchesBelow(ts: seq<Token>, more: string)
    requires !OneName(ts) && LitSlashes(ts) == 0
    ensures Below(ts) != "" && '/' !in Below(ts) && '/' !in Least(ts)
    ensures Needed(ts) > |Least(ts)|
    ensures MatchTokens(ts, Least(ts) + (more + "/" + Below(ts)))
    decreases |ts|
  {
    var rest := more + "/" + Below(ts);
    if ts[0].AnyDirs? {
      FillMatches(ts[1..]);
      FillHasNeeded(ts[1..]);
      assert rest[|more|] == '/' && rest[|more| + 1..] == Below(ts);
      assert Least(ts) + rest == rest;
    } else {
      MatchesBelow(ts[1..], more);
      if !ts[0].AnyName? {
        assert (Least(ts) + rest)[1..] == Least(ts[1..]) + rest;
      }
    }
  }

  /** A name has a character for each that the tokens ask for. */
  lemma {:induction false} NameHasNeeded(ts: seq<Token>, s: string)
    requires MatchTokens(ts, s) && '/' !in s
    ensures |s| >= Needed(ts)
    ensures !Stretches(ts) ==> |s| == Needed(ts)
    decreases |ts|, |s|
  {
    assert s != "" ==> s[0] in s;
    if ts != [] {
      match ts[0]
      case Lit(c) => NameHasNeeded(ts[1..], s[1..]);
      case AnyChar => NameHasNeeded(ts[1..], s[1..]);
      case AnyName =>
        if MatchTokens(ts[1..], s) {
          NameHasNeeded(ts[1..], s);
        } else {
          NameHasNeeded(ts, s[1..]);
        }
      case AnyDirs => NameHasNeeded(ts[1..], s);
      case Everything =>
    }
  }

  function FirstLit(ts: seq<Token>): char
    requires !LitFree(ts)
  {
    if ts[0].Lit? then ts[0].c else FirstLit(ts[1..])
  }

  lemma {:induction false} NameHasLit(ts: seq<Token>, s: string)
    requires MatchTokens(ts, s) && '/' !in s && !LitFree(ts)
    ensures FirstLit(ts) in s
    decreases |ts|, |s|
  {
    match ts[0]
    case Lit(c) =>
    case AnyChar => NameHasLit(ts[1..], s[1..]);
    case AnyName =>
      if MatchTokens(ts[1..], s) {
        NameHasLit(ts[1..], s);
      } else {
        NameHasLit(ts, s[1..]);
      }
    case AnyDirs => NameHasLit(ts[1..], s);
  }

  /** A name that the tokens do not match alone. */
  lemma Unmatched(ts: seq<Token>) returns (more: string)
    requires !OneName(ts) && !EveryName(ts) && LitSlashes(ts) == 0
    ensures '/' !in more && !Wild(more) && Least(ts) + more != ""
    ensures !MatchTokens(ts, Least(ts) + more)
  {
    MatchesBelow(ts, "");
    if Least(ts) != "" {
      more := "";
    } else if LitFree(ts) && Needed(ts) == 1 {
      more := "xx";
    } else if LitFree(ts) || FirstLit(ts) != 'x' {
      more := "x";
    } else {
      more := "y";
    }
    var name := Least(ts) + more;
    if MatchTokens(ts, name) {
      NameHasNeeded(ts, name);
      if !LitFree(ts) {
        NameHasLit(ts, name);
      }
    }
  }

  lemma {:induction false} LeastIsPlain(r: string)
    ensures !Wild(Least(Compile(r)))
    decreases |r|
  {
    if r != "" && !(r[0] == '*' && |r| > 1 && r[1] == '*') {
      LeastIsPlain(r[1..]);
      assert Compile(r)[1..] == Compile(r[1..]);
    }
  }

  lemma OverlookedName(p: Path) returns (f: Path, g: Path)
    requires p != [] && PlainCount(p) == 0 && !FirstNameDecides(p) && LitSlashes(Compile(Render(p)[1..])) == 0
    ensures Overlooked(p, f, g)
  {
    var ts := Compile(Render(p)[1..]);
    var more := Unmatched(ts);
    MatchesBelow(ts, more);
    LeastIsPlain(Render(p)[1..]);
    var name, below := Least(ts) + more, Below(ts);
    f, g := [name], [name, below];
    AfterSlash(p, f);
    AfterSlash(p, g);
    assert f[1..] == [] && g[1..] == [below] && Join([below]) == "/" + below;
    assert name + Join(f[1..]) == name;
    assert name + ("/" + below) == Least(ts) + (more + "/" + below);
    assert !Wild(name);
    MissedByShortcut(p, f);
  }

  lemma OverlookedExclusion(p: Path) returns (f: Path, g: Path)
    requires !Definite(p)
    ensures Overlooked(p, f, g)
  {
    var k := PlainCount(p);
    if !Starred(p[k]) {
      // a ? before the last segment
      WildStarless(p);
      StarlessHead(p, k + 1);
      StarlessHasSlashes(p, k + 1);
      f, g := OverlookedAbove(p);
    } else if LitSlashes(Compile(Render(p)[1..])) > 0 {
      JoinSlash(p);
      CompileSlash(Join(p)[1..]);
      f, g := OverlookedAbove(p);
    } else {
      f, g := OverlookedName(p);
    }
  }

  lemma OverlookedIsUnsafe(p: Path, f: Path, g: Path)
    requires Overlooked(p, f, g)
    ensures !SafeExclusion(p)
  {
    var included, excluded := Pattern(f, false), Pattern(p, true);
    PlainMatchesBelow(f, f);
    assert PatternMatches(included, f);
    var ps := [included];
    var both := ps + [excluded];
    assert both[..1] == [included] && both[..0] == [];
    assert Matched([included], f);
    assert Matched(both, f) && !Matched(both, g);
    assert forall q :: q in ps ==> !q.exclusion;
    assert EntireDir(both, f);
  }

  /** Any exclusion, double stars and all: it is handled soundly if and only if
      it has no wildcards, or its first wild segment has a star and is not the
      first, or that is the last and has no star, or the first name decides. */
  lemma SafeExactlyWhenDefinite(p: Path)
    ensures SafeExclusion(p) <==> Definite(p)
  {
    if Definite(p) {
      forall ps: seq<Pattern>, f: Path, g: Path |
        (forall q :: q in ps ==> !q.exclusion) && f <= g && EntireDir(ps + [Pattern(p, true)], f)
        ensures Matched(ps + [Pattern(p, true)], g)
      {
        assert Pattern(p, true) in ps + [Pattern(p, true)];
        assert f != [] by {
          assert !Blocks(Pattern(p, true), f);
        }
        MatchesEntireDirIsSound(ps + [Pattern(p, true)], f, g);
      }
    } else {
      var f, g := OverlookedExclusion(p);
      OverlookedIsUnsafe(p, f, g);
    }
  }
}
