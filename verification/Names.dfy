/** The shortest names that tell workloads apart. Letters are folded to lower
    case by the environment, character by character. */
module Names {
  import opened Shared
  import opened Decimals
  import opened Selectors

  datatype Entity = Entity(name: string, kind: string, namespace: string, group: string)

  /** Folding touches neither the delimiter nor the escape character, gives
      neither, and leaves digits alone. */
  ghost predicate Folds(lower: char -> char) {
    forall c :: (lower(c) == Delimiter <==> c == Delimiter)
             && (lower(c) == EscapeChar <==> c == EscapeChar)
             && ('0' <= c <= '9' ==> lower(c) == c)
  }

  function ToLower(lower: char -> char, s: string): (r: string)
    ensures |r| == |s| && forall i :: 0 <= i < |s| ==> r[i] == lower(s[i])
  {
    seq(|s|, i requires 0 <= i < |s| => lower(s[i]))
  }

  function Components(e: Entity): (r: seq<string>)
    ensures |r| == 4
  {
    [e.name, e.kind, e.namespace, if e.group == "" then "core" else e.group]
  }

  /** The name made of the first k components. */
  function NameOf(lower: char -> char, e: Entity, k: nat): string
    requires k <= 4
  {
    ToLower(lower, EscapeAndJoin(Components(e)[..k]))
  }

  function PotentialNamesOf(lower: char -> char, e: Entity, minComponents: nat): (r: seq<string>)
    requires 1 <= minComponents <= 4
    ensures |r| == 5 - minComponents
    ensures forall j :: 0 <= j < |r| ==> r[j] == NameOf(lower, e, minComponents + j)
  {
    seq(5 - minComponents, j requires 0 <= j < 5 - minComponents => NameOf(lower, e, minComponents + j))
  }

  /** How often the entities ask for a name. */
  function Count(lower: char -> char, es: seq<Entity>, minComponents: nat, name: string): nat
    requires 1 <= minComponents <= 4
  {
    if es == [] then 0
    else Count(lower, es[..|es| - 1], minComponents, name) + multiset(PotentialNamesOf(lower, es[|es| - 1], minComponents))[name]
  }

  predicate Wants(lower: char -> char, e: Entity, minComponents: nat, name: string)
    requires 1 <= minComponents <= 4
  {
    name in PotentialNamesOf(lower, e, minComponents)
  }

  function Fallback(lower: char -> char, e: Entity, i: nat): string {
    NameOf(lower, e, 4) + ":" + Decimal(i)
  }

  /** The first position from k on that holds a one; the length if none does. */
  function FirstOne(counts: seq<nat>, k: nat): (r: nat)
    requires k <= |counts|
    ensures k <= r <= |counts|
    ensures r < |counts| ==> counts[r] == 1
    ensures forall m :: k <= m < r ==> counts[m] != 1
    decreases |counts| - k
  {
    if k == |counts| || counts[k] == 1 then k else FirstOne(counts, k + 1)
  }

  /** How often the names of an entity are asked for, by number of components. */
  function Counts(lower: char -> char, es: seq<Entity>, minComponents: nat, e: Entity): (r: seq<nat>)
    requires 1 <= minComponents <= 4
    ensures |r| == 5
    ensures forall k :: 0 <= k < 5 ==> r[k] == Count(lower, es, minComponents, NameOf(lower, e, k))
  {
    seq(5, k requires 0 <= k < 5 => Count(lower, es, minComponents, NameOf(lower, e, k)))
  }

  /** The fewest components that no other entity asks for; 5 if none. */
  function Shortest(lower: char -> char, es: seq<Entity>, minComponents: nat, e: Entity): (r: nat)
    requires 1 <= minComponents <= 4
    ensures minComponents <= r <= 5
  {
    FirstOne(Counts(lower, es, minComponents, e), minComponents)
  }

  function UniqueName(lower: char -> char, es: seq<Entity>, minComponents: nat, i: nat): string
    requires 1 <= minComponents <= 4 && i < |es|
  {
    var k := Shortest(lower, es, minComponents, es[i]);
    if k < 5 && NameOf(lower, es[i], k) != "" then NameOf(lower, es[i], k) else Fallback(lower, es[i], i)
  }

  // ---- the algorithm ----

  /** The names asked for so far. */
  ghost predicate NamesSoFar(lower: char -> char, e: Entity, minComponents: nat, names: seq<string>)
    requires 1 <= minComponents <= 4
  {
    |names| <= 5 - minComponents && names == PotentialNamesOf(lower, e, minComponents)[..|names|]
  }

  lemma OneMoreName(lower: char -> char, e: Entity, minComponents: nat, names: seq<string>)
    requires 1 <= minComponents <= 4 && NamesSoFar(lower, e, minComponents, names) && |names| < 5 - minComponents
    ensures NamesSoFar(lower, e, minComponents, names + [NameOf(lower, e, minComponents + |names|)])
  {
    var all := PotentialNamesOf(lower, e, minComponents);
    assert all[..|names| + 1] == all[..|names|] + [all[|names|]];
  }

  method PotentialNames(lower: char -> char, e: Entity, minComponents: nat) returns (ret: seq<string>)
    requires 1 <= minComponents <= 4
    ensures ret == PotentialNamesOf(lower, e, minComponents)
  {
    var components := Components(e);
    ret := [];
    for i := minComponents - 1 to |components|
      invariant |ret| == i - (minComponents - 1)
      invariant NamesSoFar(lower, e, minComponents, ret)
    {
      OneMoreName(lower, e, minComponents, ret);
      ret := ret + [ToLower(lower, EscapeAndJoin(components[..i + 1]))];
    }
  }

  function At(counts: map<string, nat>, name: string): nat {
    if name in counts then counts[name] else 0
  }

  ghost predicate CountsAll(counts: map<string, nat>, lower: char -> char, es: seq<Entity>, minComponents: nat)
    requires 1 <= minComponents <= 4
  {
    forall name {:trigger At(counts, name)} :: At(counts, name) == Count(lower, es, minComponents, name)
  }

  method AddCounts(before: map<string, nat>, names: seq<string>) returns (counts: map<string, nat>)
    ensures forall name {:trigger At(counts, name)} :: At(counts, name) == At(before, name) + multiset(names)[name]
  {
    counts := before;
    for j := 0 to |names|
      invariant forall name {:trigger At(counts, name)} :: At(counts, name) == At(before, name) + multiset(names[..j])[name]
    {
      assert names[..j + 1] == names[..j] + [names[j]];
      counts := counts[names[j] := At(counts, names[j]) + 1];
    }
    assert names[..|names|] == names;
  }

  method CountNames(lower: char -> char, es: seq<Entity>, minComponents: nat) returns (counts: map<string, nat>)
    requires 1 <= minComponents <= 4
    ensures CountsAll(counts, lower, es, minComponents)
  {
    counts := map[];
    for i := 0 to |es|
      invariant CountsAll(counts, lower, es[..i], minComponents)
    {
      assert es[..i + 1][..i] == es[..i];
      var names := PotentialNames(lower, es[i], minComponents);
      counts := AddCounts(counts, names);
    }
    assert es[..|es|] == es;
  }

  /** The position of the first name wanted once; past the end if there is none. */
  method FirstUnique(lower: char -> char, ghost es: seq<Entity>, minComponents: nat, ghost e: Entity, names: seq<string>, counts: map<string, nat>)
    returns (j: nat)
    requires 1 <= minComponents <= 4 && names == PotentialNamesOf(lower, e, minComponents)
    requires CountsAll(counts, lower, es, minComponents)
    ensures minComponents + j == Shortest(lower, es, minComponents, e)
  {
    j := 0;
    ghost var all := Counts(lower, es, minComponents, e);
    while j < |names| && At(counts, names[j]) != 1
      invariant 0 <= j <= |names|
      invariant FirstOne(all, minComponents + j) == FirstOne(all, minComponents)
    {
      j := j + 1;
    }
  }

  method ChooseName(lower: char -> char, es: seq<Entity>, minComponents: nat, i: nat, counts: map<string, nat>) returns (chosen: string)
    requires 1 <= minComponents <= 4 && i < |es|
    requires CountsAll(counts, lower, es, minComponents)
    ensures chosen == UniqueName(lower, es, minComponents, i)
  {
    var names := PotentialNames(lower, es[i], minComponents);
    chosen := "";
    var j := FirstUnique(lower, es, minComponents, es[i], names, counts);
    if j < |names| {
      chosen := names[j];
    }
    if chosen == "" {
      chosen := names[|names| - 1] + ":" + Decimal(i);
    }
  }

  function UniqueNames(lower: char -> char, es: seq<Entity>, minComponents: nat): (r: seq<string>)
    requires 1 <= minComponents <= 4
    ensures |r| == |es| && forall i :: 0 <= i < |es| ==> r[i] == UniqueName(lower, es, minComponents, i)
  {
    seq(|es|, i requires 0 <= i < |es| => UniqueName(lower, es, minComponents, i))
  }

  ghost predicate NamedSoFar(lower: char -> char, es: seq<Entity>, minComponents: nat, names: seq<string>)
    requires 1 <= minComponents <= 4
  {
    |names| <= |es| && names == UniqueNames(lower, es, minComponents)[..|names|]
  }

  lemma OneMoreNamed(lower: char -> char, es: seq<Entity>, minComponents: nat, names: seq<string>)
    requires 1 <= minComponents <= 4 && NamedSoFar(lower, es, minComponents, names) && |names| < |es|
    ensures NamedSoFar(lower, es, minComponents, names + [UniqueName(lower, es, minComponents, |names|)])
  {
    var all := UniqueNames(lower, es, minComponents);
    assert all[..|names| + 1] == all[..|names|] + [all[|names|]];
  }

  lemma AllNamed(lower: char -> char, es: seq<Entity>, minComponents: nat, names: seq<string>)
    requires 1 <= minComponents <= 4 && NamedSoFar(lower, es, minComponents, names) && |names| == |es|
    ensures names == UniqueNames(lower, es, minComponents)
  {
  }

  method UniqueNamesMeta(lower: char -> char, es: seq<Entity>, minComponents: nat) returns (ret: seq<string>)
    requires 1 <= minComponents <= 4
    ensures ret == UniqueNames(lower, es, minComponents)
  {
    var counts := CountNames(lower, es, minComponents);
    ret := [];
    for i := 0 to |es|
      invariant |ret| == i && NamedSoFar(lower, es, minComponents, ret)
    {
      OneMoreNamed(lower, es, minComponents, ret);
      var chosen := ChooseName(lower, es, minComponents, i, counts);
      ret := ret + [chosen];
    }
    AllNamed(lower, es, minComponents, ret);
  }

  /** The entities that ask for a name, in order. */
  function Wanting(lower: char -> char, es: seq<Entity>, name: string): seq<Entity> {
    if es == [] then []
    else
      var before, e := Wanting(lower, es[..|es| - 1], name), es[|es| - 1];
      if Wants(lower, e, 1, name) then before + [e] else before
  }

  // ---- names and their parts ----

  lemma ToLowerPlus(lower: char -> char, a: string, b: string)
    ensures ToLower(lower, a + b) == ToLower(lower, a) + ToLower(lower, b)
  {
  }

  lemma {:induction false} LowerReplaced(lower: char -> char, s: string, c: char)
    requires Folds(lower) && (c == Delimiter || c == EscapeChar)
    ensures ToLower(lower, ReplaceAll(s, c)) == ReplaceAll(ToLower(lower, s), c)
    decreases |s|
  {
    if s != "" {
      var q, x := s[..|s| - 1], s[|s| - 1];
      LowerReplaced(lower, q, c);
      ToLowerPlus(lower, ReplaceAll(q, c), if x == c then [EscapeChar, x] else [x]);
      assert ToLower(lower, s)[..|s| - 1] == ToLower(lower, q);
      assert lower(EscapeChar) == EscapeChar && (lower(x) == c <==> x == c);
    }
  }

  function LowerParts(lower: char -> char, parts: seq<string>): (r: seq<string>)
    ensures |r| == |parts| && forall i :: 0 <= i < |parts| ==> r[i] == ToLower(lower, parts[i])
  {
    seq(|parts|, i requires 0 <= i < |parts| => ToLower(lower, parts[i]))
  }

  lemma {:induction false} LowerJoined(lower: char -> char, parts: seq<string>)
    requires Folds(lower)
    ensures ToLower(lower, EscapeAndJoin(parts)) == EscapeAndJoin(LowerParts(lower, parts))
    decreases |parts|
  {
    if parts != [] {
      var before, last := parts[..|parts| - 1], parts[|parts| - 1];
      LowerReplaced(lower, last, EscapeChar);
      LowerReplaced(lower, ReplaceAll(last, EscapeChar), Delimiter);
      if |parts| > 1 {
        LowerJoined(lower, before);
        ToLowerPlus(lower, EscapeAndJoin(before), [Delimiter]);
        ToLowerPlus(lower, EscapeAndJoin(before) + [Delimiter], QuotePart(last));
        assert LowerParts(lower, parts)[..|parts| - 1] == LowerParts(lower, before);
        assert ToLower(lower, [Delimiter]) == [Delimiter];
      }
    }
  }

  function LowerComponents(lower: char -> char, e: Entity): (r: seq<string>)
    ensures |r| == 4
  {
    LowerParts(lower, Components(e))
  }

  lemma NameIsJoined(lower: char -> char, e: Entity, k: nat)
    requires Folds(lower) && k <= 4
    ensures NameOf(lower, e, k) == EscapeAndJoin(LowerComponents(lower, e)[..k])
  {
    LowerJoined(lower, Components(e)[..k]);
    assert LowerParts(lower, Components(e)[..k]) == LowerComponents(lower, e)[..k];
  }

  /** Names agree exactly when they have the same components, folded. */
  lemma NamesAgree(lower: char -> char, d: Entity, j: nat, e: Entity, k: nat)
    requires Folds(lower) && 1 <= j <= 4 && 1 <= k <= 4
    ensures NameOf(lower, d, j) == NameOf(lower, e, k) <==> j == k && LowerComponents(lower, d)[..j] == LowerComponents(lower, e)[..k]
  {
    NameIsJoined(lower, d, j);
    NameIsJoined(lower, e, k);
    if NameOf(lower, d, j) == NameOf(lower, e, k) {
      JoinInjective(LowerComponents(lower, d)[..j], LowerComponents(lower, e)[..k]);
    }
  }

  lemma {:induction false} DigitsUnquoted(s: string)
    requires forall i :: 0 <= i < |s| ==> '0' <= s[i] <= '9'
    ensures QuotePart(s) == s
    decreases |s|
  {
    if s != "" {
      var q := s[..|s| - 1];
      DigitsUnquoted(q);
      assert s == q + [s[|s| - 1]];
      QuotePartSnoc(q, s[|s| - 1]);
    }
  }

  lemma FallbackIsJoined(lower: char -> char, e: Entity, i: nat)
    requires Folds(lower)
    ensures Fallback(lower, e, i) == EscapeAndJoin(LowerComponents(lower, e) + [Decimal(i)])
  {
    var parts := LowerComponents(lower, e);
    NameIsJoined(lower, e, 4);
    assert parts[..4] == parts;
    DecimalIsDigits(i);
    DigitsUnquoted(Decimal(i));
    assert (parts + [Decimal(i)])[..4] == parts;
  }

  // ---- counting ----

  lemma OwnNamesDiffer(lower: char -> char, e: Entity, minComponents: nat)
    requires Folds(lower) && 1 <= minComponents <= 4
    ensures var names := PotentialNamesOf(lower, e, minComponents);
            forall i, j :: 0 <= i < j < |names| ==> names[i] != names[j]
  {
    var names := PotentialNamesOf(lower, e, minComponents);
    forall i, j | 0 <= i < j < |names|
      ensures names[i] != names[j]
    {
      NamesAgree(lower, e, minComponents + i, e, minComponents + j);
    }
  }

  lemma NamesOfOneEntity(lower: char -> char, e: Entity, minComponents: nat, name: string)
    requires Folds(lower) && 1 <= minComponents <= 4
    ensures multiset(PotentialNamesOf(lower, e, minComponents))[name] == if Wants(lower, e, minComponents, name) then 1 else 0
  {
    OwnNamesDiffer(lower, e, minComponents);
    OnceIfDistinct(PotentialNamesOf(lower, e, minComponents), name);
  }

  lemma {:induction false} OnceIfDistinct(names: seq<string>, name: string)
    requires forall i, j :: 0 <= i < j < |names| ==> names[i] != names[j]
    ensures multiset(names)[name] == if name in names then 1 else 0
    decreases |names|
  {
    if names != [] {
      OnceIfDistinct(names[..|names| - 1], name);
      assert names == names[..|names| - 1] + [names[|names| - 1]];
    }
  }

  /** No entity but the one at skip asks for the name. */
  ghost predicate NoOther(lower: char -> char, es: seq<Entity>, minComponents: nat, name: string, skip: int)
    requires 1 <= minComponents <= 4
  {
    forall j :: 0 <= j < |es| && j != skip ==> !Wants(lower, es[j], minComponents, name)
  }

  lemma NoOtherSnoc(lower: char -> char, es: seq<Entity>, e: Entity, minComponents: nat, name: string, skip: int)
    requires 1 <= minComponents <= 4
    ensures NoOther(lower, es + [e], minComponents, name, skip) <==>
            NoOther(lower, es, minComponents, name, skip) && (skip == |es| || !Wants(lower, e, minComponents, name))
  {
    var all := es + [e];
    forall j | 0 <= j < |es|
      ensures all[j] == es[j]
    {
    }
    assert all[|es|] == e;
  }

  lemma CountSnoc(lower: char -> char, es: seq<Entity>, e: Entity, minComponents: nat, name: string)
    requires Folds(lower) && 1 <= minComponents <= 4
    ensures Count(lower, es + [e], minComponents, name) ==
            Count(lower, es, minComponents, name) + if Wants(lower, e, minComponents, name) then 1 else 0
  {
    NamesOfOneEntity(lower, e, minComponents, name);
    assert (es + [e])[..|es|] == es;
  }

  ghost predicate ZeroAgrees(lower: char -> char, es: seq<Entity>, minComponents: nat, name: string)
    requires 1 <= minComponents <= 4
  {
    Count(lower, es, minComponents, name) == 0 <==> NoOther(lower, es, minComponents, name, -1)
  }

  lemma {:induction false} CountZero(lower: char -> char, es: seq<Entity>, minComponents: nat, name: string)
    requires Folds(lower) && 1 <= minComponents <= 4
    ensures ZeroAgrees(lower, es, minComponents, name)
    decreases |es|
  {
    if es != [] {
      var init, e := es[..|es| - 1], es[|es| - 1];
      CountZero(lower, init, minComponents, name);
      CountZeroSnoc(lower, init, e, minComponents, name);
      assert es == init + [e];
    }
  }

  lemma CountZeroSnoc(lower: char -> char, es: seq<Entity>, e: Entity, minComponents: nat, name: string)
    requires Folds(lower) && 1 <= minComponents <= 4
    requires ZeroAgrees(lower, es, minComponents, name)
    ensures ZeroAgrees(lower, es + [e], minComponents, name)
  {
    CountSnoc(lower, es, e, minComponents, name);
    NoOtherSnoc(lower, es, e, minComponents, name, -1);
  }

  /** A name one entity asks for is counted once exactly when no other does. */
  lemma {:induction false} CountsWants(lower: char -> char, es: seq<Entity>, minComponents: nat, name: string, i: nat)
    requires Folds(lower) && 1 <= minComponents <= 4 && i < |es| && Wants(lower, es[i], minComponents, name)
    ensures Count(lower, es, minComponents, name) >= 1
    ensures Count(lower, es, minComponents, name) == 1 <==> NoOther(lower, es, minComponents, name, i)
    decreases |es|
  {
    var init, e := es[..|es| - 1], es[|es| - 1];
    assert es == init + [e];
    CountSnoc(lower, init, e, minComponents, name);
    NoOtherSnoc(lower, init, e, minComponents, name, i);
    if i == |es| - 1 {
      CountZero(lower, init, minComponents, name);
    } else {
      CountsWants(lower, init, minComponents, name, i);
    }
  }

  /** The first k components agree, up to case. */
  predicate Same(lower: char -> char, d: Entity, e: Entity, k: nat)
    requires k <= 4
  {
    LowerComponents(lower, d)[..k] == LowerComponents(lower, e)[..k]
  }

  /** No other entity has the first k components of this one. */
  ghost predicate Alone(lower: char -> char, es: seq<Entity>, i: nat, k: nat)
    requires i < |es| && k <= 4
  {
    forall j :: 0 <= j < |es| && j != i ==> !Same(lower, es[j], es[i], k)
  }

  lemma WantsExactly(lower: char -> char, e: Entity, minComponents: nat, d: Entity, k: nat)
    requires Folds(lower) && 1 <= minComponents <= k <= 4
    ensures Wants(lower, e, minComponents, NameOf(lower, d, k)) <==> Same(lower, e, d, k)
  {
    var names := PotentialNamesOf(lower, e, minComponents);
    NamesAgree(lower, e, k, d, k);
    assert names[k - minComponents] == NameOf(lower, e, k);
    forall j | 0 <= j < |names|
      ensures names[j] == NameOf(lower, d, k) ==> minComponents + j == k
    {
      NamesAgree(lower, e, minComponents + j, d, k);
    }
  }

  lemma AloneExactly(lower: char -> char, es: seq<Entity>, minComponents: nat, i: nat, k: nat)
    requires Folds(lower) && 1 <= minComponents <= k <= 4 && i < |es|
    ensures NoOther(lower, es, minComponents, NameOf(lower, es[i], k), i) <==> Alone(lower, es, i, k)
    ensures Count(lower, es, minComponents, NameOf(lower, es[i], k)) == 1 <==> Alone(lower, es, i, k)
  {
    forall j | 0 <= j < |es|
      ensures Wants(lower, es[j], minComponents, NameOf(lower, es[i], k)) <==> Same(lower, es[j], es[i], k)
    {
      WantsExactly(lower, es[j], minComponents, es[i], k);
    }
    OwnNameIsWanted(lower, es[i], minComponents, k);
    CountsWants(lower, es, minComponents, NameOf(lower, es[i], k), i);
  }

  // ---- main results ----

  /** The name chosen has the fewest components that no other entity has; for
      every shorter one another entity has them. */
  lemma ShortestIsShortest(lower: char -> char, es: seq<Entity>, minComponents: nat, i: nat)
    requires Folds(lower) && 1 <= minComponents <= 4 && i < |es|
    ensures var k := Shortest(lower, es, minComponents, es[i]);
            && (k < 5 ==> Alone(lower, es, i, k))
            && (forall m :: minComponents <= m < k ==> !Alone(lower, es, i, m))
  {
    var k := Shortest(lower, es, minComponents, es[i]);
    var counts := Counts(lower, es, minComponents, es[i]);
    if k < 5 {
      assert counts[k] == 1;
      AloneExactly(lower, es, minComponents, i, k);
    }
    forall m | minComponents <= m < k
      ensures !Alone(lower, es, i, m)
    {
      assert counts[m] != 1;
      AloneExactly(lower, es, minComponents, i, m);
    }
  }

  /** The fewest components give no name. */
  predicate Falls(lower: char -> char, es: seq<Entity>, minComponents: nat, i: nat)
    requires 1 <= minComponents <= 4 && i < |es|
  {
    var k := Shortest(lower, es, minComponents, es[i]);
    k == 5 || NameOf(lower, es[i], k) == ""
  }

  /** How many components a name has, and which; a fallback has five. */
  lemma NameHasParts(lower: char -> char, es: seq<Entity>, minComponents: nat, i: nat) returns (parts: seq<string>, k: nat)
    requires Folds(lower) && 1 <= minComponents <= 4 && i < |es|
    ensures UniqueName(lower, es, minComponents, i) == EscapeAndJoin(parts)
    ensures minComponents <= k <= 5 && |parts| == k
    ensures k == 5 <==> UniqueName(lower, es, minComponents, i) == Fallback(lower, es[i], i)
    ensures k == 5 <==> Falls(lower, es, minComponents, i)
    ensures k == 5 ==> parts[4] == Decimal(i)
    ensures k < 5 ==> UniqueName(lower, es, minComponents, i) == NameOf(lower, es[i], k) != ""
    ensures k < 5 ==> k == Shortest(lower, es, minComponents, es[i])
  {
    k := Shortest(lower, es, minComponents, es[i]);
    FallbackIsJoined(lower, es[i], i);
    if k < 5 && NameOf(lower, es[i], k) != "" {
      NameIsJoined(lower, es[i], k);
      parts := LowerComponents(lower, es[i])[..k];
      if EscapeAndJoin(parts) == Fallback(lower, es[i], i) {
        JoinInjective(parts, LowerComponents(lower, es[i]) + [Decimal(i)]);
      }
    } else {
      k := 5;
      parts := LowerComponents(lower, es[i]) + [Decimal(i)];
    }
  }

  /** Different entities get different names, fallbacks included. */
  lemma NamesAreDistinct(lower: char -> char, es: seq<Entity>, minComponents: nat, i: nat, j: nat)
    requires Folds(lower) && 1 <= minComponents <= 4 && i < j < |es|
    ensures UniqueName(lower, es, minComponents, i) != UniqueName(lower, es, minComponents, j)
  {
    var p, k := NameHasParts(lower, es, minComponents, i);
    var q, m := NameHasParts(lower, es, minComponents, j);
    if EscapeAndJoin(p) == EscapeAndJoin(q) {
      JoinInjective(p, q);
      if k == 5 {
        DecimalInjective(i, j);
      } else {
        ShortestIsShortest(lower, es, minComponents, i);
        NamesAgree(lower, es[j], m, es[i], k);
      }
    }
  }

  ghost predicate HasTwin(lower: char -> char, es: seq<Entity>, i: nat)
    requires i < |es|
  {
    exists j :: 0 <= j < |es| && j != i && LowerComponents(lower, es[j]) == LowerComponents(lower, es[i])
  }

  /** An entity without a name, and the only one. */
  ghost predicate AloneUnnamed(es: seq<Entity>, i: nat)
    requires i < |es|
  {
    es[i].name == "" && forall j :: 0 <= j < |es| && j != i ==> es[j].name != ""
  }

  lemma TwinIsNotAlone(lower: char -> char, es: seq<Entity>, i: nat)
    requires i < |es|
    ensures HasTwin(lower, es, i) <==> !Alone(lower, es, i, 4)
    ensures HasTwin(lower, es, i) ==> forall k :: 0 <= k <= 4 ==> !Alone(lower, es, i, k)
  {
    var parts := LowerComponents(lower, es[i]);
    assert parts[..4] == parts;
    forall j | 0 <= j < |es|
      ensures Same(lower, es[j], es[i], 4) <==> LowerComponents(lower, es[j]) == parts
    {
      assert LowerComponents(lower, es[j])[..4] == LowerComponents(lower, es[j]);
    }
    if HasTwin(lower, es, i) {
      var j :| 0 <= j < |es| && j != i && LowerComponents(lower, es[j]) == parts;
      forall k | 0 <= k <= 4
        ensures !Alone(lower, es, i, k)
      {
        assert Same(lower, es[j], es[i], k);
      }
    }
  }

  lemma NameIsEmptyExactlyWhen(lower: char -> char, e: Entity, k: nat)
    requires Folds(lower) && 1 <= k <= 4
    ensures NameOf(lower, e, k) == "" <==> k == 1 && e.name == ""
  {
    NameIsJoined(lower, e, k);
    var parts := LowerComponents(lower, e)[..k];
    assert |parts[0]| == |e.name|;
    assert EscapeAndJoin([""]) == "";
    if EscapeAndJoin(parts) == "" {
      JoinInjective(parts, [""]);
    }
    assert k == 1 && e.name == "" ==> parts == [""];
  }

  lemma UnnamedIsAlone(lower: char -> char, es: seq<Entity>, i: nat)
    requires i < |es| && es[i].name == ""
    ensures Alone(lower, es, i, 1) <==> AloneUnnamed(es, i)
  {
    forall j | 0 <= j < |es|
      ensures Same(lower, es[j], es[i], 1) <==> es[j].name == ""
    {
      var a, b := LowerComponents(lower, es[j])[..1], LowerComponents(lower, es[i])[..1];
      assert |a[0]| == |es[j].name| && |b[0]| == 0;
      assert es[j].name == "" ==> a == b;
    }
  }

  lemma NoneLeftExactlyWhenTwin(lower: char -> char, es: seq<Entity>, minComponents: nat, i: nat)
    requires Folds(lower) && 1 <= minComponents <= 4 && i < |es|
    ensures Shortest(lower, es, minComponents, es[i]) == 5 <==> HasTwin(lower, es, i)
  {
    ShortestIsShortest(lower, es, minComponents, i);
    TwinIsNotAlone(lower, es, i);
  }

  lemma UnnamedChoice(lower: char -> char, es: seq<Entity>, i: nat)
    requires Folds(lower) && i < |es| && es[i].name == ""
    ensures Shortest(lower, es, 1, es[i]) == 1 <==> AloneUnnamed(es, i)
  {
    AloneExactly(lower, es, 1, i, 1);
    UnnamedIsAlone(lower, es, i);
  }

  /** An entity falls back to its index exactly when another has the same name,
      kind, namespace and group up to case; or, where one component is enough,
      when it has no name and every other entity has. */
  lemma FallsBackExactlyWhen(lower: char -> char, es: seq<Entity>, minComponents: nat, i: nat)
    requires Folds(lower) && 1 <= minComponents <= 4 && i < |es|
    ensures UniqueName(lower, es, minComponents, i) == Fallback(lower, es[i], i) <==>
            HasTwin(lower, es, i) || (minComponents == 1 && AloneUnnamed(es, i))
  {
    var parts, n := NameHasParts(lower, es, minComponents, i);
    FallsExactlyWhen(lower, es, minComponents, i);
  }

  lemma FallsExactlyWhen(lower: char -> char, es: seq<Entity>, minComponents: nat, i: nat)
    requires Folds(lower) && 1 <= minComponents <= 4 && i < |es|
    ensures Falls(lower, es, minComponents, i) <==> HasTwin(lower, es, i) || (minComponents == 1 && AloneUnnamed(es, i))
  {
    var k := Shortest(lower, es, minComponents, es[i]);
    NoneLeftExactlyWhenTwin(lower, es, minComponents, i);
    if k < 5 {
      NameIsEmptyExactlyWhen(lower, es[i], k);
    }
    if minComponents == 1 && es[i].name == "" {
      UnnamedChoice(lower, es, i);
    }
  }

  // ---- looking a name up ----

  function EntitiesAt(m: map<string, seq<Entity>>, name: string): seq<Entity> {
    if name in m then m[name] else []
  }

  ghost predicate Added(ret: map<string, seq<Entity>>, m: map<string, seq<Entity>>, names: seq<string>, e: Entity) {
    forall name {:trigger EntitiesAt(ret, name)} ::
      EntitiesAt(ret, name) == if name in names then EntitiesAt(m, name) + [e] else EntitiesAt(m, name)
  }

  lemma InNext(names: seq<string>, j: nat, name: string)
    requires j < |names|
    ensures name in names[..j + 1] <==> name in names[..j] || name == names[j]
  {
    assert names[..j + 1] == names[..j] + [names[j]];
  }

  lemma AddedNext(ret: map<string, seq<Entity>>, m: map<string, seq<Entity>>, names: seq<string>, j: nat, e: Entity)
    requires j < |names| && Added(ret, m, names[..j], e) && names[j] !in names[..j]
    ensures Added(ret[names[j] := EntitiesAt(ret, names[j]) + [e]], m, names[..j + 1], e)
  {
    var next := ret[names[j] := EntitiesAt(ret, names[j]) + [e]];
    forall name
      ensures EntitiesAt(next, name) == if name in names[..j + 1] then EntitiesAt(m, name) + [e] else EntitiesAt(m, name)
    {
      InNext(names, j, name);
      assert EntitiesAt(next, name) == if name == names[j] then EntitiesAt(ret, name) + [e] else EntitiesAt(ret, name);
    }
  }

  method AddFragments(m: map<string, seq<Entity>>, names: seq<string>, e: Entity) returns (ret: map<string, seq<Entity>>)
    requires forall i, j :: 0 <= i < j < |names| ==> names[i] != names[j]
    ensures Added(ret, m, names, e)
  {
    ret := m;
    for j := 0 to |names|
      invariant Added(ret, m, names[..j], e)
    {
      AddedNext(ret, m, names, j, e);
      if names[j] in ret {
        ret := ret[names[j] := ret[names[j]] + [e]];
      } else {
        assert [] + [e] == [e];
        ret := ret[names[j] := [e]];
      }
    }
    assert names[..|names|] == names;
  }

  method FragmentsToEntities(lower: char -> char, es: seq<Entity>) returns (ret: map<string, seq<Entity>>)
    requires Folds(lower)
    ensures forall name :: EntitiesAt(ret, name) == Wanting(lower, es, name)
  {
    ret := map[];
    for i := 0 to |es|
      invariant forall name :: EntitiesAt(ret, name) == Wanting(lower, es[..i], name)
    {
      assert es[..i + 1][..i] == es[..i];
      var names := PotentialNames(lower, es[i], 1);
      OwnNamesDiffer(lower, es[i], 1);
      ret := AddFragments(ret, names, es[i]);
    }
    assert es[..|es|] == es;
  }

  lemma {:induction false} WantingOne(lower: char -> char, es: seq<Entity>, name: string, i: int)
    requires -1 <= i < |es| && NoOther(lower, es, 1, name, i) && (i >= 0 ==> Wants(lower, es[i], 1, name))
    ensures Wanting(lower, es, name) == if i >= 0 then [es[i]] else []
    decreases |es|
  {
    if es != [] {
      var init, e := es[..|es| - 1], es[|es| - 1];
      assert es == init + [e];
      NoOtherSnoc(lower, init, e, 1, name, i);
      WantingOne(lower, init, name, if i == |es| - 1 then -1 else i);
    }
  }

  /** Every name that is not a fallback finds its own entity, and no other. */
  lemma NameFindsItsEntity(lower: char -> char, es: seq<Entity>, minComponents: nat, i: nat)
    requires Folds(lower) && 1 <= minComponents <= 4 && i < |es|
    requires UniqueName(lower, es, minComponents, i) != Fallback(lower, es[i], i)
    ensures Wanting(lower, es, UniqueName(lower, es, minComponents, i)) == [es[i]]
  {
    var parts, k := NameHasParts(lower, es, minComponents, i);
    ShortestIsShortest(lower, es, minComponents, i);
    AloneExactly(lower, es, 1, i, k);
    OwnNameIsWanted(lower, es[i], 1, k);
    WantingOne(lower, es, NameOf(lower, es[i], k), i);
  }

  lemma OwnNameIsWanted(lower: char -> char, e: Entity, minComponents: nat, k: nat)
    requires 1 <= minComponents <= k <= 4
    ensures Wants(lower, e, minComponents, NameOf(lower, e, k))
  {
    assert PotentialNamesOf(lower, e, minComponents)[k - minComponents] == NameOf(lower, e, k);
  }

  // ---- names by the fields of their entities ----

  function GroupOf(e: Entity): string {
    if e.group == "" then "core" else e.group
  }

  /** The components are name, kind, namespace and group, in this order. */
  lemma ComponentsAreFields(lower: char -> char, e: Entity)
    ensures var parts := LowerComponents(lower, e);
            && parts[0] == ToLower(lower, e.name) && parts[1] == ToLower(lower, e.kind)
            && parts[2] == ToLower(lower, e.namespace) && parts[3] == ToLower(lower, GroupOf(e))
  {
  }

  lemma SplitName(lower: char -> char, e: Entity, k: nat)
    requires Folds(lower) && 1 <= k <= 4
    ensures Parts(NameOf(lower, e, k)) == Some(LowerComponents(lower, e)[..k])
  {
    NameIsJoined(lower, e, k);
    SplitUndoesJoin(LowerComponents(lower, e)[..k]);
  }

  /** A name of k components is taken apart into the first k of the entity's name,
      kind, namespace and group, in this order, all folded. */
  lemma NameSplitsIntoFields(lower: char -> char, e: Entity, k: nat)
    requires Folds(lower) && 1 <= k <= 4
    ensures Parts(NameOf(lower, e, k)).Some?
    ensures var parts := Parts(NameOf(lower, e, k)).value;
            && |parts| == k && parts[0] == ToLower(lower, e.name)
            && (k >= 2 ==> parts[1] == ToLower(lower, e.kind))
            && (k >= 3 ==> parts[2] == ToLower(lower, e.namespace))
            && (k == 4 ==> parts[3] == ToLower(lower, GroupOf(e)))
  {
    SplitName(lower, e, k);
  }

  /** A fallback is taken apart into all four, and the entity's index. */
  lemma FallbackSplitsIntoFields(lower: char -> char, e: Entity, i: nat)
    requires Folds(lower)
    ensures Parts(Fallback(lower, e, i)).Some?
    ensures var parts := Parts(Fallback(lower, e, i)).value;
            && |parts| == 5 && parts[0] == ToLower(lower, e.name) && parts[1] == ToLower(lower, e.kind)
            && parts[2] == ToLower(lower, e.namespace) && parts[3] == ToLower(lower, GroupOf(e)) && parts[4] == Decimal(i)
  {
    FallbackIsJoined(lower, e, i);
    SplitUndoesJoin(LowerComponents(lower, e) + [Decimal(i)]);
    ComponentsAreFields(lower, e);
  }

  /** The first k fields agree, up to case. */
  predicate ShareFields(lower: char -> char, d: Entity, e: Entity, k: nat) {
    && ToLower(lower, d.name) == ToLower(lower, e.name)
    && (k >= 2 ==> ToLower(lower, d.kind) == ToLower(lower, e.kind))
    && (k >= 3 ==> ToLower(lower, d.namespace) == ToLower(lower, e.namespace))
    && (k >= 4 ==> ToLower(lower, GroupOf(d)) == ToLower(lower, GroupOf(e)))
  }

  lemma PrefixesAgree(a: seq<string>, b: seq<string>, k: nat)
    requires |a| == |b| == 4 && 1 <= k <= 4
    ensures a[..k] == b[..k] <==>
            a[0] == b[0] && (k >= 2 ==> a[1] == b[1]) && (k >= 3 ==> a[2] == b[2]) && (k == 4 ==> a[3] == b[3])
  {
    if a[..k] == b[..k] {
      assert forall i :: 0 <= i < k ==> a[i] == a[..k][i] && b[i] == b[..k][i];
    }
  }

  lemma SameExactlyWhen(lower: char -> char, d: Entity, e: Entity, k: nat)
    requires 1 <= k <= 4
    ensures Same(lower, d, e, k) <==> ShareFields(lower, d, e, k)
  {
    PrefixesAgree(LowerComponents(lower, d), LowerComponents(lower, e), k);
    ComponentsAreFields(lower, d);
    ComponentsAreFields(lower, e);
  }

  ghost predicate NoneShares(lower: char -> char, es: seq<Entity>, i: nat, k: nat)
    requires i < |es|
  {
    forall j :: 0 <= j < |es| && j != i ==> !ShareFields(lower, es[j], es[i], k)
  }

  lemma AloneExactlyWhen(lower: char -> char, es: seq<Entity>, i: nat, k: nat)
    requires i < |es| && 1 <= k <= 4
    ensures Alone(lower, es, i, k) <==> NoneShares(lower, es, i, k)
  {
    forall j | 0 <= j < |es|
      ensures Same(lower, es[j], es[i], k) <==> ShareFields(lower, es[j], es[i], k)
    {
      SameExactlyWhen(lower, es[j], es[i], k);
    }
  }

  /** An entity's name is that of its first k fields, k at least the least number
      of components, if and only if no other entity has these, some other has any
      fewer, and the name is not empty. */
  lemma NamedExactlyWhen(lower: char -> char, es: seq<Entity>, minComponents: nat, i: nat, k: nat)
    requires Folds(lower) && 1 <= minComponents <= k <= 4 && i < |es|
    ensures UniqueName(lower, es, minComponents, i) == NameOf(lower, es[i], k) <==>
              && NoneShares(lower, es, i, k)
              && (forall m :: minComponents <= m < k ==> !NoneShares(lower, es, i, m))
              && (k >= 2 || es[i].name != "")
  {
    var parts, n := NameHasParts(lower, es, minComponents, i);
    NameIsEmptyExactlyWhen(lower, es[i], k);
    ShortestExactlyWhen(lower, es, minComponents, i, k);
    if n < 5 {
      NamesAgree(lower, es[i], n, es[i], k);
    } else {
      FallbackIsNoName(lower, es[i], k, i);
    }
  }

  lemma FallbackIsNoName(lower: char -> char, e: Entity, k: nat, i: nat)
    requires Folds(lower) && 1 <= k <= 4
    ensures NameOf(lower, e, k) != Fallback(lower, e, i)
  {
    SplitName(lower, e, k);
    FallbackSplitsIntoFields(lower, e, i);
  }

  lemma ShortestExactlyWhen(lower: char -> char, es: seq<Entity>, minComponents: nat, i: nat, k: nat)
    requires Folds(lower) && 1 <= minComponents <= k <= 4 && i < |es|
    ensures Shortest(lower, es, minComponents, es[i]) == k <==>
              NoneShares(lower, es, i, k) && forall m :: minComponents <= m < k ==> !NoneShares(lower, es, i, m)
  {
    ShortestIsShortest(lower, es, minComponents, i);
    forall m | minComponents <= m <= 4
      ensures Alone(lower, es, i, m) <==> NoneShares(lower, es, i, m)
    {
      AloneExactlyWhen(lower, es, i, m);
    }
    var n := Shortest(lower, es, minComponents, es[i]);
    if n < 5 {
      assert NoneShares(lower, es, i, n);
    }
  }

  /** Of two entities of one name and different kinds, with no other of that name,
      each is called by its name and kind. */
  lemma KindTellsApart(lower: char -> char, es: seq<Entity>, minComponents: nat, i: nat, j: nat)
    requires Folds(lower) && 1 <= minComponents <= 2 && i < |es| && j < |es| && i != j
    requires ToLower(lower, es[i].name) == ToLower(lower, es[j].name) && ToLower(lower, es[i].kind) != ToLower(lower, es[j].kind)
    requires forall m :: 0 <= m < |es| && m != i && m != j ==> ToLower(lower, es[m].name) != ToLower(lower, es[i].name)
    ensures UniqueName(lower, es, minComponents, i) == EscapeAndJoin([ToLower(lower, es[i].name), ToLower(lower, es[i].kind)])
    ensures UniqueName(lower, es, minComponents, j) == EscapeAndJoin([ToLower(lower, es[j].name), ToLower(lower, es[j].kind)])
  {
    assert ShareFields(lower, es[j], es[i], 1) && ShareFields(lower, es[i], es[j], 1);
    NamedByKind(lower, es, minComponents, i);
    NamedByKind(lower, es, minComponents, j);
  }

  lemma NamedByKind(lower: char -> char, es: seq<Entity>, minComponents: nat, i: nat)
    requires Folds(lower) && 1 <= minComponents <= 2 && i < |es|
    requires NoneShares(lower, es, i, 2) && !NoneShares(lower, es, i, 1)
    ensures UniqueName(lower, es, minComponents, i) == EscapeAndJoin([ToLower(lower, es[i].name), ToLower(lower, es[i].kind)])
  {
    NamedExactlyWhen(lower, es, minComponents, i, 2);
    NameAndKind(lower, es[i]);
  }

  lemma NameAndKind(lower: char -> char, e: Entity)
    requires Folds(lower)
    ensures NameOf(lower, e, 2) == EscapeAndJoin([ToLower(lower, e.name), ToLower(lower, e.kind)])
  {
    NameIsJoined(lower, e, 2);
    ComponentsAreFields(lower, e);
    var parts := LowerComponents(lower, e);
    assert parts[..2] == [parts[0], parts[1]];
  }

  lemma {:induction false} PlainPart(s: string)
    requires Delimiter !in s && EscapeChar !in s
    ensures QuotePart(s) == s
    decreases |s|
  {
    if s != "" {
      var q := s[..|s| - 1];
      PlainPart(q);
      assert s == q + [s[|s| - 1]];
      QuotePartSnoc(q, s[|s| - 1]);
    }
  }

  /** Names without colons and backslashes are joined as they are. */
  lemma PlainNamesAreJoined(lower: char -> char, e: Entity)
    requires Folds(lower) && ':' !in e.name && '\\' !in e.name && ':' !in e.kind && '\\' !in e.kind
    ensures NameOf(lower, e, 1) == ToLower(lower, e.name)
    ensures NameOf(lower, e, 2) == ToLower(lower, e.name) + ":" + ToLower(lower, e.kind)
  {
    var name, kind := ToLower(lower, e.name), ToLower(lower, e.kind);
    assert forall i :: 0 <= i < |e.name| ==> e.name[i] in e.name;
    assert forall i :: 0 <= i < |e.kind| ==> e.kind[i] in e.kind;
    PlainPart(name);
    PlainPart(kind);
    NameAndKind(lower, e);
    NameIsJoined(lower, e, 1);
    ComponentsAreFields(lower, e);
    JoinTwo(name, kind);
    assert LowerComponents(lower, e)[..1] == [name];
  }

  lemma JoinTwo(a: string, b: string)
    ensures EscapeAndJoin([a, b]) == QuotePart(a) + [Delimiter] + QuotePart(b)
  {
    assert [a, b][..1] == [a];
  }
}
