/** Clean absolute paths, case exact: a path is the list of its segments, and
    Render gives the string the source works on. */
module Paths {
  import opened Shared

  type Segment = s: string | |s| > 0 && '/' !in s witness "a"

  type Path = seq<Segment>

  function Join(p: Path): (s: string)
    ensures p != [] ==> |s| >= 2 && s[0] == '/'
  {
    if p == [] then "" else "/" + p[0] + Join(p[1..])
  }

  function Render(p: Path): string {
    if p == [] then "/" else Join(p)
  }

  /** `t` is empty or begins a new segment. */
  predicate AtBoundary(t: string) {
    t == "" || t[0] == '/'
  }

  lemma {:induction false} JoinConcat(p: Path, q: Path)
    ensures Join(p + q) == Join(p) + Join(q)
    decreases |p|
  {
    if p == [] {
      assert p + q == q;
    } else {
      JoinConcat(p[1..], q);
      assert (p + q)[1..] == p[1..] + q;
      Associative("/" + p[0], Join(p[1..]), Join(q));
    }
  }

  /** Two segments followed by boundaries are equal if the strings are. */
  lemma SegmentsAgree(a: string, s: string, b: string, t: string)
    requires a + s == b + t && AtBoundary(s) && AtBoundary(t) && '/' !in a && '/' !in b
    ensures a == b && s == t
  {
    var u := a + s;
    assert |a| < |u| ==> u[|a|] == '/';
    assert |b| < |u| ==> u[|b|] == '/';
    assert forall i :: 0 <= i < |a| ==> u[i] == a[i] && a[i] in a;
    assert forall i :: 0 <= i < |b| ==> u[i] == b[i] && b[i] in b;
    assert |a| == |b|;
    assert a == u[..|a|] == b;
    assert s == u[|a|..] == t;
  }

  /** The string of p followed by a boundary is a prefix of q's exactly as p
      is a prefix of q. */
  lemma {:induction false} JoinPrefix(p: Path, t: string, q: Path)
    requires Join(p) + t == Join(q) && AtBoundary(t)
    ensures p <= q && Join(q[|p|..]) == t
    decreases |p|
  {
    if p == [] {
      assert q[0..] == q;
    } else {
      assert q != [] by {
        assert (Join(p) + t)[0] == Join(p)[0];
      }
      var s := "/" + (p[0] + (Join(p[1..]) + t));
      assert Join(p) + t == s;
      assert Join(q) == "/" + (q[0] + Join(q[1..]));
      assert s[1..] == p[0] + (Join(p[1..]) + t) == q[0] + Join(q[1..]);
      SegmentsAgree(p[0], Join(p[1..]) + t, q[0], Join(q[1..]));
      JoinPrefix(p[1..], t, q[1..]);
      assert q[1..][|p[1..]|..] == q[|p|..];
    }
  }

  lemma RenderInjective(p: Path, q: Path)
    ensures Render(p) == Render(q) <==> p == q
  {
    if Render(p) == Render(q) {
      if p == [] || q == [] {
        var r := if p == [] then q else p;
        assert r != [] ==> |Render(r)| >= 2;
      } else {
        assert Join(p) + "" == Join(q);
        JoinPrefix(p, "", q);
      }
    }
  }

  /** A proper ancestor has the shorter string. */
  lemma AncestorShorter(p: Path, q: Path)
    requires p < q
    ensures |Render(p)| < |Render(q)|
  {
    if p != [] {
      assert q == p + q[|p|..];
      JoinConcat(p, q[|p|..]);
    }
  }

  /** One step of looking for d among the ancestors of current. */
  lemma Upward(d: Path, current: Path)
    ensures Render(d) == Render(current) <==> d == current
    ensures |Render(current)| > |Render(d)| ==> current != []
    ensures d < current ==> |Render(current)| > |Render(d)| && d <= current[..|current| - 1]
  {
    RenderInjective(d, current);
    assert |Render(d)| >= 1;
    if d < current {
      AncestorShorter(d, current);
    }
  }

  /** A directory argument; the source also passes the empty string. */
  datatype DirName = Blank | Named(path: Path)

  /** The path of `file` relative to `dir`; found exactly when `dir` is an
      ancestor of `file` or `file` itself. */
  method Child(dir: DirName, file: Path) returns (child: Path, ok: bool)
    ensures ok <==> dir.Named? && dir.path <= file
    ensures ok ==> file == dir.path + child
  {
    if dir.Blank? {
      return [], false;
    }
    var current := file;
    child := [];
    while true
      invariant file == current + child
      invariant dir.path <= file ==> dir.path <= current
      decreases |current|
    {
      Upward(dir.path, current);
      if Render(dir.path) == Render(current) {
        return child, true;
      }
      if |Render(current)| <= |Render(dir.path)| {
        return [], false;
      }
      var base := current[|current| - 1];
      Associative(current[..|current| - 1], [base], child);
      assert current == current[..|current| - 1] + [base];
      child := [base] + child;
      current := current[..|current| - 1];
    }
  }

  predicate IsChild(dir: DirName, file: Path) {
    dir.Named? && dir.path <= file
  }

  method IsChildOfOne(dirs: seq<DirName>, file: Path) returns (ok: bool)
    ensures ok <==> exists d :: d in dirs && IsChild(d, file)
  {
    for i := 0 to |dirs|
      invariant forall j :: 0 <= j < i ==> !IsChild(dirs[j], file)
    {
      var _, isChild := Child(dirs[i], file);
      if isChild {
        assert IsChild(dirs[i], file);
        return true;
      }
    }
    ok := false;
  }
}
