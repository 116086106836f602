/** Injecting labels into an object, its pods and the selectors that pick them.
    The code reads the flag overwrite as "replace what is there"; its comment
    has it the other way round. */
module Labels {
  import opened Shared

  type LabelMap = map<string, string>

  datatype LabelPair = LabelPair(key: string, value: string)

  /** The value of the last label for a key. */
  function LastValue(labels: seq<LabelPair>, key: string): Option<string> {
    if labels == [] then None
    else if labels[|labels| - 1].key == key then Some(labels[|labels| - 1].value)
    else LastValue(labels[..|labels| - 1], key)
  }

  function ValueAt(m: LabelMap, key: string): Option<string> {
    if key in m then Some(m[key]) else None
  }

  /** What a key should end up as. */
  function Wanted(dest: LabelMap, labels: seq<LabelPair>, overwrite: bool, addNew: bool, key: string): Option<string> {
    if LastValue(labels, key).Some? && (addNew || key in dest) then LastValue(labels, key)
    else if overwrite then None
    else ValueAt(dest, key)
  }

  method ApplyLabelsToMap(dest: LabelMap, labels: seq<LabelPair>, overwrite: bool, addNew: bool) returns (r: LabelMap)
    ensures r == Applied(dest, labels, overwrite, addNew)
  {
    r := if overwrite then map[] else dest;
    for i := 0 to |labels|
      invariant r == Applied(dest, labels[..i], overwrite, addNew)
    {
      assert labels[..i + 1][..i] == labels[..i];
      var preexisting := labels[i].key in dest;
      if addNew || preexisting {
        r := r[labels[i].key := labels[i].value];
      }
    }
    assert labels[..|labels|] == labels;
  }

  function Applied(dest: LabelMap, labels: seq<LabelPair>, overwrite: bool, addNew: bool): LabelMap {
    if labels == [] then (if overwrite then map[] else dest)
    else
      var before, last := Applied(dest, labels[..|labels| - 1], overwrite, addNew), labels[|labels| - 1];
      if addNew || last.key in dest then before[last.key := last.value] else before
  }

  lemma {:induction false} AppliedIsWanted(dest: LabelMap, labels: seq<LabelPair>, overwrite: bool, addNew: bool)
    ensures forall key :: ValueAt(Applied(dest, labels, overwrite, addNew), key) == Wanted(dest, labels, overwrite, addNew, key)
    decreases |labels|
  {
    if labels != [] {
      var init, last := labels[..|labels| - 1], labels[|labels| - 1];
      AppliedIsWanted(dest, init, overwrite, addNew);
      forall key
        ensures ValueAt(Applied(dest, labels, overwrite, addNew), key) == Wanted(dest, labels, overwrite, addNew, key)
      {
        assert ValueAt(Applied(dest, init, overwrite, addNew), key) == Wanted(dest, init, overwrite, addNew, key);
        assert last.key == key ==> LastValue(labels, key) == Some(last.value);
        assert last.key != key ==> LastValue(labels, key) == LastValue(init, key);
      }
    }
  }

  // ---- selection ----

  predicate Selects(selector: LabelMap, labels: LabelMap) {
    forall k :: k in selector ==> k in labels && labels[k] == selector[k]
  }

  /** A service's selector must not be empty. */
  predicate SelectorMatchesLabels(selector: LabelMap, labels: LabelMap) {
    selector != map[] && Selects(selector, labels)
  }

  /** Pods that were selected stay selected, and a selector asks for no new key. */
  lemma InjectionKeepsSelection(selector: LabelMap, pod: LabelMap, labels: seq<LabelPair>, overwrite: bool)
    requires Selects(selector, pod)
    ensures Selects(Applied(selector, labels, overwrite, false), Applied(pod, labels, overwrite, true))
    ensures Applied(selector, labels, overwrite, false).Keys <= selector.Keys
  {
    var s, p := Applied(selector, labels, overwrite, false), Applied(pod, labels, overwrite, true);
    AppliedIsWanted(selector, labels, overwrite, false);
    AppliedIsWanted(pod, labels, overwrite, true);
    forall k | k in s
      ensures k in selector && k in p && p[k] == s[k]
    {
      assert ValueAt(s, k) == Wanted(selector, labels, overwrite, false, k);
      assert ValueAt(p, k) == Wanted(pod, labels, overwrite, true, k);
    }
  }

  ghost predicate Mentions(labels: seq<LabelPair>, selector: LabelMap) {
    exists i :: 0 <= i < |labels| && labels[i].key in selector
  }

  lemma {:induction false} LastValueExactly(labels: seq<LabelPair>, key: string)
    ensures LastValue(labels, key).Some? <==> exists i :: 0 <= i < |labels| && labels[i].key == key
    decreases |labels|
  {
    if labels != [] {
      var init := labels[..|labels| - 1];
      LastValueExactly(init, key);
      if i :| 0 <= i < |labels| && labels[i].key == key && i < |init| {
        assert init[i].key == key;
      }
      if i :| 0 <= i < |init| && init[i].key == key {
        assert labels[i].key == key;
      }
    }
  }

  /** A service that matched its pods still does, exactly when labels are merged
      in or some label is for a key the service selects on: replacing all of its
      keys leaves it without a selector. */
  lemma ServiceStillMatchesExactlyWhen(selector: LabelMap, pod: LabelMap, labels: seq<LabelPair>, overwrite: bool)
    requires SelectorMatchesLabels(selector, pod)
    ensures SelectorMatchesLabels(Applied(selector, labels, overwrite, false), Applied(pod, labels, overwrite, true))
            <==> !overwrite || Mentions(labels, selector)
  {
    InjectionKeepsSelection(selector, pod, labels, overwrite);
    var s := Applied(selector, labels, overwrite, false);
    AppliedIsWanted(selector, labels, overwrite, false);
    var key :| key in selector;
    assert ValueAt(s, key) == Wanted(selector, labels, overwrite, false, key);
    if Mentions(labels, selector) {
      var i :| 0 <= i < |labels| && labels[i].key in selector;
      LastValueExactly(labels, labels[i].key);
      assert ValueAt(s, labels[i].key) == Wanted(selector, labels, overwrite, false, labels[i].key);
    }
    if k :| k in s {
      assert ValueAt(s, k) == Wanted(selector, labels, overwrite, false, k);
      LastValueExactly(labels, k);
    }
  }

  // ---- a whole object ----

  datatype Selector = Selector(matchLabels: LabelMap, hasExpressions: bool)

  /** A workload with the labels of its own and its pods' metadata; infers says
      that its API version takes a missing selector from the pods' labels. */
  datatype Workload = Workload(own: LabelMap, pod: LabelMap, selector: Option<Selector>, infers: bool)

  predicate Unset(selector: Option<Selector>) {
    selector == None || (selector.value.matchLabels == map[] && !selector.value.hasExpressions)
  }

  method InjectLabels(w: Workload, labels: seq<LabelPair>, overwrite: bool) returns (r: Workload)
    ensures r == Injected(w, labels, overwrite)
  {
    var own := ApplyLabelsToMap(w.own, labels, overwrite, true);
    var pod := ApplyLabelsToMap(w.pod, labels, overwrite, true);
    var selector := w.selector;
    if w.infers && Unset(selector) {
      selector := Some(Selector(pod, false));
    }
    if selector.Some? {
      var matchLabels := ApplyLabelsToMap(selector.value.matchLabels, labels, overwrite, false);
      selector := Some(selector.value.(matchLabels := matchLabels));
    }
    r := Workload(own, pod, selector, w.infers);
  }

  function Injected(w: Workload, labels: seq<LabelPair>, overwrite: bool): Workload {
    var pod := Applied(w.pod, labels, overwrite, true);
    var selector := if w.infers && Unset(w.selector) then Some(Selector(pod, false)) else w.selector;
    Workload(Applied(w.own, labels, overwrite, true), pod,
             if selector == None then None
             else Some(selector.value.(matchLabels := Applied(selector.value.matchLabels, labels, overwrite, false))),
             w.infers)
  }

  predicate PicksItsPods(w: Workload) {
    w.selector == None || Selects(w.selector.value.matchLabels, w.pod)
  }

  /** A workload goes on picking its own pods, and one whose selector was
      inferred begins to. */
  lemma WorkloadKeepsItsPods(w: Workload, labels: seq<LabelPair>, overwrite: bool)
    requires PicksItsPods(w)
    ensures PicksItsPods(Injected(w, labels, overwrite))
    ensures w.infers && Unset(w.selector) ==> Injected(w, labels, overwrite).selector == Some(Selector(Injected(w, labels, overwrite).pod, false))
  {
    var pod := Applied(w.pod, labels, overwrite, true);
    if w.infers && Unset(w.selector) {
      AppliedTwice(w.pod, labels, overwrite);
    } else if w.selector.Some? {
      InjectionKeepsSelection(w.selector.value.matchLabels, w.pod, labels, overwrite);
    }
  }

  lemma AppliedTwice(dest: LabelMap, labels: seq<LabelPair>, overwrite: bool)
    ensures var once := Applied(dest, labels, overwrite, true); Applied(once, labels, overwrite, false) == once
  {
    var once := Applied(dest, labels, overwrite, true);
    var twice := Applied(once, labels, overwrite, false);
    AppliedIsWanted(dest, labels, overwrite, true);
    AppliedIsWanted(once, labels, overwrite, false);
    forall k
      ensures ValueAt(once, k) == ValueAt(twice, k)
    {
      assert ValueAt(once, k) == Wanted(dest, labels, overwrite, true, k);
      assert ValueAt(twice, k) == Wanted(once, labels, overwrite, false, k);
    }
    forall k
      ensures k in once <==> k in twice
      ensures k in once ==> once[k] == twice[k]
    {
      assert ValueAt(once, k) == ValueAt(twice, k);
    }
  }

  /** The position holds the last label for the key. */
  predicate IsLastFor(labels: seq<LabelPair>, key: string, i: nat) {
    i < |labels| && labels[i].key == key && forall j :: i < j < |labels| ==> labels[j].key != key
  }

  lemma {:induction false} LastValueIsLast(labels: seq<LabelPair>, key: string, i: nat)
    requires IsLastFor(labels, key, i)
    ensures LastValue(labels, key) == Some(labels[i].value)
    decreases |labels|
  {
    if i < |labels| - 1 {
      var init := labels[..|labels| - 1];
      assert forall j :: 0 <= j < |init| ==> init[j] == labels[j];
      LastValueIsLast(init, key, i);
    }
  }

  /** After injection every key of the object's own labels and of its pods' is as
      wanted, new keys allowed; and every key of the selector, new ones not: of the
      selector there was, or, where it is inferred, of the pods' new labels. */
  lemma InjectedIsWanted(w: Workload, labels: seq<LabelPair>, overwrite: bool, key: string)
    ensures var r := Injected(w, labels, overwrite);
            var inferred := w.infers && (w.selector == None || (w.selector.value.matchLabels == map[] && !w.selector.value.hasExpressions));
            && ValueAt(r.own, key) == Wanted(w.own, labels, overwrite, true, key)
            && ValueAt(r.pod, key) == Wanted(w.pod, labels, overwrite, true, key)
            && r.infers == w.infers
            && (r.selector.Some? <==> w.selector.Some? || inferred)
            && (!inferred && w.selector.Some? ==>
                  && r.selector.value.hasExpressions == w.selector.value.hasExpressions
                  && ValueAt(r.selector.value.matchLabels, key) == Wanted(w.selector.value.matchLabels, labels, overwrite, false, key))
            && (inferred ==>
                  && !r.selector.value.hasExpressions
                  && ValueAt(r.selector.value.matchLabels, key) == Wanted(w.pod, labels, overwrite, true, key))
  {
    AppliedIsWanted(w.own, labels, overwrite, true);
    AppliedIsWanted(w.pod, labels, overwrite, true);
    var r := Injected(w, labels, overwrite);
    assert ValueAt(r.own, key) == Wanted(w.own, labels, overwrite, true, key);
    assert ValueAt(r.pod, key) == Wanted(w.pod, labels, overwrite, true, key);
    if w.infers && Unset(w.selector) {
      AppliedTwice(w.pod, labels, overwrite);
    } else if w.selector.Some? {
      AppliedIsWanted(w.selector.value.matchLabels, labels, overwrite, false);
      assert ValueAt(r.selector.value.matchLabels, key) == Wanted(w.selector.value.matchLabels, labels, overwrite, false, key);
    }
  }
}
