/** What patterns of common shapes match, said about names and paths, and when the
    shortcut for whole directories accepts one. */
module IgnorePatterns {
  import opened Shared
  import opened Paths
  import opened DockerIgnore

  // ---- the last pattern that matches ----

  ghost predicate LastMatch(ps: seq<Pattern>, f: Path, i: int) {
    0 <= i < |ps| && PatternMatches(ps[i], f) && forall j :: i < j < |ps| ==> !PatternMatches(ps[j], f)
  }

  lemma LastMatchSnoc(ps: seq<Pattern>, p: Pattern, f: Path, i: int)
    requires 0 <= i < |ps|
    ensures LastMatch(ps + [p], f, i) <==> LastMatch(ps, f, i) && !PatternMatches(p, f)
  {
    var more := ps + [p];
    assert more[|ps|] == p;
    assert forall j :: 0 <= j < |ps| ==> more[j] == ps[j];
  }

  lemma {:induction false} LastMatchDecides(ps: seq<Pattern>, f: Path, i: int)
    requires LastMatch(ps, f, i)
    ensures Matched(ps, f) <==> !ps[i].exclusion
    decreases |ps|
  {
    var init, last := ps[..|ps| - 1], ps[|ps| - 1];
    assert ps == init + [last];
    if i < |init| {
      LastMatchSnoc(init, last, f, i);
      LastMatchDecides(init, f, i);
    }
  }

  lemma {:induction false} MatchedHasLast(ps: seq<Pattern>, f: Path) returns (i: nat)
    requires Matched(ps, f)
    ensures LastMatch(ps, f, i)
    decreases |ps|
  {
    var init, last := ps[..|ps| - 1], ps[|ps| - 1];
    if PatternMatches(last, f) {
      i := |ps| - 1;
    } else {
      i := MatchedHasLast(init, f);
      LastMatchSnoc(init, last, f, i);
      assert ps == init + [last];
    }
  }

  /** A file is ignored if and only if the last pattern that matches it is there
      and is no exclusion. */
  lemma MatchedExactlyWhen(ps: seq<Pattern>, f: Path)
    ensures Matched(ps, f) <==> exists i :: LastMatch(ps, f, i) && !ps[i].exclusion
  {
    if Matched(ps, f) {
      var i := MatchedHasLast(ps, f);
      LastMatchDecides(ps, f, i);
    }
    if i :| LastMatch(ps, f, i) && !ps[i].exclusion {
      LastMatchDecides(ps, f, i);
    }
  }

  // ---- when a directory is accepted ----

  /** The n segments before the first one with a star. */
  predicate FirstStarAt(p: Path, n: nat) {
    n < |p| && '*' in p[n] && forall i :: 0 <= i < n ==> '*' !in p[i]
  }

  lemma StarFreeIsFirstStar(p: Path, n: nat)
    ensures FirstStarAt(p, n) <==> n == StarFree(p) < |p|
  {
    var k := StarFree(p);
    if FirstStarAt(p, n) {
      assert !(n < k) && !(k < n);
    }
  }

  /** A directory is accepted if and only if it is ignored itself, and no exclusion
      is for it or a path below it, or has a star below some plain segments that
      the directory is at or below. */
  lemma AcceptsExactlyWhen(ps: seq<Pattern>, f: Path)
    ensures EntireDir(ps, f) <==>
              && Matched(ps, f)
              && forall i :: 0 <= i < |ps| && ps[i].exclusion ==>
                   && !(f <= ps[i].segments)
                   && forall n :: n > 0 && FirstStarAt(ps[i].segments, n) ==> !(ps[i].segments[..n] <= f)
  {
    forall i, n: nat | 0 <= i < |ps|
      ensures FirstStarAt(ps[i].segments, n) <==> n == StarFree(ps[i].segments) < |ps[i].segments|
    {
      StarFreeIsFirstStar(ps[i].segments, n);
    }
    forall i | 0 <= i < |ps|
      ensures Blocks(ps[i], f) <==>
              f <= ps[i].segments || exists n :: n > 0 && FirstStarAt(ps[i].segments, n) && ps[i].segments[..n] <= f
    {
      assert 0 < StarFree(ps[i].segments) < |ps[i].segments| ==> FirstStarAt(ps[i].segments, StarFree(ps[i].segments));
    }
    NoneBlocksExactlyWhen(ps, f);
  }

  lemma NoneBlocksExactlyWhen(ps: seq<Pattern>, f: Path)
    ensures NoneBlocks(ps, f) <==> forall i :: 0 <= i < |ps| && ps[i].exclusion ==> !Blocks(ps[i], f)
  {
    assert forall i :: 0 <= i < |ps| ==> ps[i] in ps;
  }

  // ---- plain patterns ----

  /** A pattern without wildcards matches just the path it names and what is below. */
  lemma PlainMatchesExactlyBelow(p: Pattern, f: Path)
    requires p.segments != [] && Plain(p.segments)
    ensures PatternMatches(p, f) <==> p.segments <= f
  {
    var segs := p.segments;
    if PatternMatches(p, f) {
      assert segs[..|segs|] == segs;
      MatchIsBelowPlainPrefix(segs, |segs|, f);
    } else if segs <= f {
      PlainMatchesBelow(segs, f);
    }
  }

  // ---- stars ----

  ghost predicate TakesName(ts: seq<Token>, s: string, k: int) {
    0 <= k <= |s| && '/' !in s[..k] && MatchTokens(ts, s[k..])
  }

  /** A star takes any number of characters other than slashes. */
  lemma {:induction false} StarTakes(ts: seq<Token>, s: string)
    ensures MatchTokens([AnyName] + ts, s) <==> exists k :: TakesName(ts, s, k)
    decreases |s|
  {
    var all := [AnyName] + ts;
    assert all[1..] == ts;
    if MatchTokens(ts, s) {
      assert s[0..] == s && TakesName(ts, s, 0);
    } else if s != "" {
      StarTakes(ts, s[1..]);
      if k :| TakesName(ts, s[1..], k) && s[0] != '/' {
        assert s[..k + 1] == [s[0]] + s[1..][..k] && s[1..][k..] == s[k + 1..];
        assert TakesName(ts, s, k + 1);
      }
      if k :| TakesName(ts, s, k) {
        assert k > 0 by {
          assert s[0..] == s;
        }
        assert s[..k] == [s[0]] + s[1..][..k - 1] && s[1..][k - 1..] == s[k..];
        assert s[..k][0] == s[0];
        assert TakesName(ts, s[1..], k - 1);
      }
    } else {
      assert s[0..] == s;
    }
  }

  predicate EndsIn(name: string, ext: string) {
    |ext| <= |name| && name[|name| - |ext|..] == ext
  }

  lemma SlashesFrom(name: string, t: string, k: nat)
    requires '/' !in name && AtBoundary(t) && k <= |name + t|
    ensures '/' in (name + t)[..k] <==> k > |name|
  {
    var s := name + t;
    if k > |name| {
      assert s[..k][|name|] == '/';
    } else {
      assert s[..k] == name[..k];
      assert forall i :: 0 <= i < k ==> name[..k][i] in name;
    }
  }

  lemma WordsAgree(ext: string, u: string, t: string)
    requires '/' !in u && '/' !in ext && AtBoundary(t)
    ensures ext <= u + t && AtBoundary((u + t)[|ext|..]) <==> ext == u
  {
    if ext <= u + t && AtBoundary((u + t)[|ext|..]) {
      assert u + t == ext + (u + t)[|ext|..];
      SegmentsAgree(ext, (u + t)[|ext|..], u, t);
    }
  }

  lemma ExtensionTaken(ext: string, name: string, t: string, k: nat)
    requires '/' !in name && '/' !in ext && AtBoundary(t) && k <= |name + t|
    ensures var s := name + t;
            '/' !in s[..k] && ext <= s[k..] && AtBoundary(s[k..][|ext|..]) <==> k <= |name| && name[k..] == ext
  {
    SlashesFrom(name, t, k);
    if k <= |name| {
      assert (name + t)[k..] == name[k..] + t;
      assert forall i :: 0 <= i < |name[k..]| ==> name[k..][i] in name;
      WordsAgree(ext, name[k..], t);
    }
  }

  lemma CompileExtension(ext: string)
    requires !Wild(ext)
    ensures Compile("*" + ext) == [AnyName] + Lits(ext)
  {
    var p := "*" + ext;
    assert p[1..] == ext;
    assert |p| > 1 ==> p[1] == ext[0] && ext[0] in ext;
    CompileLiteral(ext, "");
    assert ext + "" == ext && Lits(ext) + [] == Lits(ext);
  }

  /** The segment *.ext matches the names that end so, whatever is below them. */
  lemma ExtensionMatches(ext: string, name: string, t: string)
    requires !Wild(ext) && '/' !in name && '/' !in ext && AtBoundary(t)
    ensures MatchTokens(Compile("*" + ext), name + t) <==> EndsIn(name, ext)
  {
    var s := name + t;
    CompileExtension(ext);
    StarTakes(Lits(ext), s);
    forall k | 0 <= k <= |s|
      ensures TakesName(Lits(ext), s, k) <==> k <= |name| && name[k..] == ext
    {
      MatchLiteral(ext, [], s[k..]);
      assert Lits(ext) + [] == Lits(ext);
      ExtensionTaken(ext, name, t, k);
    }
    if EndsIn(name, ext) {
      assert TakesName(Lits(ext), s, |name| - |ext|);
    }
  }

  predicate IsExtension(ext: string) {
    !Wild(ext) && '/' !in ext
  }

  function StarExt(ext: string): Segment
    requires IsExtension(ext)
  {
    "*" + ext
  }

  lemma AllOf(dir: Path, seg: Segment)
    ensures (dir + [seg])[..|dir|] == dir
  {
  }

  lemma NothingBelowNothing(p: Path)
    requires p != []
    ensures !MatchTokens(Compile(Join(p)), "")
  {
    JoinSlash(p);
    CompileSlash(p[0] + Join(p[1..]));
  }

  lemma DeepEnough(dir: Path, seg: Segment, f: Path)
    requires Plain(dir) && f != [] && MatchTokens(Compile(Render(dir + [seg])), Render(f))
    ensures dir <= f && |f| > |dir|
  {
    var p := dir + [seg];
    AllOf(dir, seg);
    if dir != [] {
      MatchIsBelowPlainPrefix(p, |dir|, f);
      assert p[|dir|..] == [seg];
      NothingBelowNothing([seg]);
    }
  }

  /** A pattern of a directory and then *.ext matches exactly the files and directories right
      in it whose names end so, and what is below these. */
  lemma ExtensionInDirectory(dir: Path, ext: string, exclusion: bool, f: Path)
    requires Plain(dir) && IsExtension(ext) && f != []
    ensures PatternMatches(Pattern(dir + [StarExt(ext)], exclusion), f) <==> dir <= f && |f| > |dir| && EndsIn(f[|dir|], ext)
  {
    var p := dir + [StarExt(ext)];
    AllOf(dir, StarExt(ext));
    if MatchTokens(Compile(Render(p)), Render(f)) {
      DeepEnough(dir, StarExt(ext), f);
    }
    if dir <= f && |f| > |dir| {
      MatchLastSegment(p, f);
      ExtensionMatches(ext, f[|dir|], Join(f[|dir| + 1..]));
    }
  }

  // ---- double stars ----

  /** The text of a path without its first slash. */
  function Text(h: Path): string
    requires h != []
  {
    Join(h)[1..]
  }

  lemma TextSplits(h: Path)
    requires h != []
    ensures Text(h) == if |h| == 1 then h[0] else h[0] + ("/" + Text(h[1..]))
  {
    JoinSlash(h);
    if |h| > 1 {
      JoinSlash(h[1..]);
    }
  }

  ghost predicate TakesDirs(ts: seq<Token>, s: string, k: int) {
    0 <= k < |s| && s[k] == '/' && MatchTokens(ts, s[k + 1..])
  }

  ghost predicate MatchesFrom(ts: seq<Token>, h: Path, i: int) {
    0 <= i < |h| && MatchTokens(ts, Text(h[i..]))
  }

  lemma SlashIsLater(ts: seq<Token>, name: string, s: string, k: int)
    requires '/' !in name && k >= 0
    ensures TakesDirs(ts, name + ("/" + s), k) <==>
              (k == |name| && MatchTokens(ts, s)) || (k > |name| && TakesDirs(ts, s, k - |name| - 1))
  {
    var all := name + ("/" + s);
    if k < |name| {
      assert all[k] == name[k] && name[k] in name;
    } else if k < |all| {
      assert all[k + 1..] == if k == |name| then s else s[k - |name|..];
    }
  }

  lemma DirsTakeNext(ts: seq<Token>, name: string, s: string)
    requires '/' !in name
    ensures MatchTokens([AnyDirs] + ts, name + ("/" + s)) <==>
              MatchTokens(ts, name + ("/" + s)) || MatchTokens([AnyDirs] + ts, s)
  {
    var all := name + ("/" + s);
    assert ([AnyDirs] + ts)[1..] == ts;
    DirsAre(ts, all);
    DirsAre(ts, s);
    if k :| TakesDirs(ts, all, k) {
      SlashIsLater(ts, name, s, k);
    }
    if MatchTokens(ts, s) {
      SlashIsLater(ts, name, s, |name|);
    }
    if k :| TakesDirs(ts, s, k) {
      SlashIsLater(ts, name, s, k + |name| + 1);
    }
  }

  lemma DirsAre(ts: seq<Token>, s: string)
    ensures MatchTokens([AnyDirs] + ts, s) <==> MatchTokens(ts, s) || exists k :: TakesDirs(ts, s, k)
  {
    assert ([AnyDirs] + ts)[1..] == ts;
    if k :| 0 <= k < |s| && s[k] == '/' && MatchTokens(ts, s[k + 1..]) {
      assert TakesDirs(ts, s, k);
    }
  }

  /** A double star takes any number of directories. */
  lemma {:induction false} DirsTake(ts: seq<Token>, h: Path)
    requires h != []
    ensures MatchTokens([AnyDirs] + ts, Text(h)) <==> exists i :: MatchesFrom(ts, h, i)
    decreases |h|
  {
    TextSplits(h);
    assert h[0..] == h;
    assert MatchesFrom(ts, h, 0) <==> MatchTokens(ts, Text(h));
    if |h| == 1 {
      DirsAre(ts, h[0]);
      assert forall k :: 0 <= k < |h[0]| ==> h[0][k] in h[0];
    } else {
      DirsTakeNext(ts, h[0], Text(h[1..]));
      DirsTake(ts, h[1..]);
      FromNext(ts, h);
    }
  }

  lemma FromNext(ts: seq<Token>, h: Path)
    requires |h| > 1
    ensures (exists i :: MatchesFrom(ts, h, i)) <==> MatchesFrom(ts, h, 0) || exists i :: MatchesFrom(ts, h[1..], i)
  {
    forall i: int | 0 < i
      ensures MatchesFrom(ts, h, i) <==> MatchesFrom(ts, h[1..], i - 1)
    {
      if i < |h| {
        assert h[1..][i - 1..] == h[i..];
      }
    }
    if i :| MatchesFrom(ts, h[1..], i) {
      assert MatchesFrom(ts, h, i + 1);
    }
    if i :| MatchesFrom(ts, h, i) && i > 0 {
      assert MatchesFrom(ts, h[1..], i - 1);
    }
  }

  lemma DoubleStarCompiles(ext: string)
    ensures Compile("**/*" + ext) == [AnyDirs] + Compile("*" + ext)
  {
    var r := "**/*" + ext;
    assert r[3..] == "*" + ext;
  }

  lemma DoubleStarJoins(dir: Path, ext: string)
    requires IsExtension(ext)
    ensures Render(dir + ["**", StarExt(ext)]) == (Join(dir) + "/") + ("**/*" + ext)
  {
    JoinConcat(dir, ["**", StarExt(ext)]);
    DoubleStarBelow(ext);
    Associative(Join(dir), "/", "**/*" + ext);
  }

  lemma DoubleStarBelow(ext: string)
    requires IsExtension(ext)
    ensures Join(["**", StarExt(ext)]) == "/" + ("**/*" + ext)
  {
    var p: Path := ["**", StarExt(ext)];
    assert p[1..] == [StarExt(ext)] && [StarExt(ext)][1..] == [];
    assert Join([StarExt(ext)]) == "/" + StarExt(ext) + "";
    JoinSlash(p);
    assert "**" + ("/" + StarExt(ext)) == "**/*" + ext;
  }

  lemma DoubleStarText(dir: Path, ext: string)
    requires Plain(dir) && IsExtension(ext)
    ensures Compile(Render(dir + ["**", StarExt(ext)])) == Lits(Join(dir) + "/") + ([AnyDirs] + Compile("*" + ext))
  {
    DoubleStarJoins(dir, ext);
    DoubleStarCompiles(ext);
    PlainJoin(dir);
    CompileLiteral(Join(dir) + "/", "**/*" + ext);
  }

  /** With a double star between the two it matches exactly the paths below the
      directory on which some name, at any depth, ends so. */
  lemma ExtensionBelowDirectory(dir: Path, ext: string, exclusion: bool, f: Path)
    requires Plain(dir) && IsExtension(ext) && f != []
    ensures PatternMatches(Pattern(dir + ["**", StarExt(ext)], exclusion), f) <==>
              dir <= f && exists i :: |dir| <= i < |f| && EndsIn(f[i], ext)
  {
    var p, lit := dir + ["**", StarExt(ext)], Join(dir) + "/";
    var ts := Compile("*" + ext);
    DoubleStarText(dir, ext);
    MatchLiteral(lit, [AnyDirs] + ts, Render(f));
    BelowText(dir, f);
    if dir <= f && |f| > |dir| {
      DirsTake(ts, f[|dir|..]);
      SomeNameEnds(ext, f[|dir|..]);
      forall i | |dir| <= i < |f|
        ensures f[|dir|..][i - |dir|] == f[i]
      {
      }
    }
  }

  /** A path's text begins with that of a directory and a slash just below it. */
  lemma BelowText(dir: Path, f: Path)
    requires f != []
    ensures Join(dir) + "/" <= Join(f) <==> dir <= f && |f| > |dir|
    ensures dir <= f && |f| > |dir| ==> Join(f)[|Join(dir)| + 1..] == Text(f[|dir|..])
  {
    if Join(dir) + "/" <= Join(f) {
      TextIsBelow(dir, f);
    }
    if dir <= f && |f| > |dir| {
      assert f == dir + f[|dir|..];
      TextOfBoth(dir, f[|dir|..]);
    }
  }

  lemma TailFrom(j: string, s: string)
    requires j + "/" <= s
    ensures s == j + s[|j|..] && AtBoundary(s[|j|..]) && s[|j|..] != ""
  {
    assert s[|j|] == (j + "/")[|j|];
  }

  lemma TailOf(j: string, u: string)
    requires u != "" && u[0] == '/'
    ensures j + "/" <= j + u && (j + u)[|j| + 1..] == u[1..]
  {
    assert j + u == (j + "/") + u[1..];
  }

  lemma JoinIsEmpty(h: Path)
    requires Join(h) != ""
    ensures |h| > 0
  {
  }

  lemma TailIsBelow(dir: Path, t: string, f: Path)
    requires Join(dir) + t == Join(f) && AtBoundary(t) && t != ""
    ensures dir <= f && |f| > |dir|
  {
    JoinPrefix(dir, t, f);
    JoinIsEmpty(f[|dir|..]);
  }

  lemma TextIsBelow(dir: Path, f: Path)
    requires Join(dir) + "/" <= Join(f)
    ensures dir <= f && |f| > |dir|
  {
    var j, s := Join(dir), Join(f);
    TailFrom(j, s);
    TailIsBelow(dir, s[|j|..], f);
  }

  lemma TextOfBoth(dir: Path, h: Path)
    requires h != []
    ensures Join(dir) + "/" <= Join(dir + h) && Join(dir + h)[|Join(dir)| + 1..] == Text(h)
  {
    JoinConcat(dir, h);
    TailOf(Join(dir), Join(h));
  }

  lemma SomeNameEnds(ext: string, h: Path)
    requires IsExtension(ext)
    ensures (exists i :: MatchesFrom(Compile("*" + ext), h, i)) <==> exists i :: 0 <= i < |h| && EndsIn(h[i], ext)
  {
    forall i | 0 <= i < |h|
      ensures MatchesFrom(Compile("*" + ext), h, i) <==> EndsIn(h[i], ext)
    {
      JoinSlash(h[i..]);
      ExtensionMatches(ext, h[i], Join(h[i..][1..]));
    }
    if i :| MatchesFrom(Compile("*" + ext), h, i) {
      assert EndsIn(h[i], ext);
    }
    if i :| 0 <= i < |h| && EndsIn(h[i], ext) {
      assert MatchesFrom(Compile("*" + ext), h, i);
    }
  }
}
