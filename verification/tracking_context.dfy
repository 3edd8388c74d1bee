/**
  The hierarchy stack the tracking provider keeps: components register on
  mount (appended, so the stack runs root to leaf) and their cleanup
  removes them again; `getHierarchy` and `getCurrentDepth` read it.
 */
module TrackingContext {
  import opened JsSemantics
  import opened HierarchyHelpers

  type Stack = seq<Element>

  /** `registerComponent`: the component goes on top of the stack. */
  function Register(s: Stack, e: Element): (r: Stack)
    ensures |r| == |s| + 1
    ensures r[..|s|] == s && r[|s|] == e
  {
    s + [e]
  }

  /**
    The cleanup `registerComponent` returns: the first entry identical to the
    component is spliced out and the rest keep their order; an absent
    component leaves the stack alone.
   */
  function Unregister(s: Stack, e: Element): (r: Stack)
    ensures e !in s ==> r == s
    ensures e in s ==> (|r| == |s| - 1
      && r[..ElementDepth(e, s)] == s[..ElementDepth(e, s)]
      && r[ElementDepth(e, s)..] == s[ElementDepth(e, s) + 1..])
    ensures multiset(r) == multiset(s) - multiset{e}
  {
    var index := ElementDepth(e, s);
    if index >= 0 then
      SpliceMultiset(s, index);
      s[..index] + s[index + 1..]
    else
      assert multiset(s) - multiset{e} == multiset(s) by {
        assert multiset(s)[e] == 0;
      }
      s
  }

  /** Splicing out position `i` removes exactly one occurrence of the element there. */
  lemma SpliceMultiset(s: Stack, i: int)
    requires 0 <= i < |s|
    ensures var r := s[..i] + s[i + 1..];
      |r| == |s| - 1 && r[..i] == s[..i] && r[i..] == s[i + 1..]
    ensures multiset(s[..i] + s[i + 1..]) == multiset(s) - multiset{s[i]}
  {
    assert s == s[..i] + [s[i]] + s[i + 1..];
    assert multiset(s) == multiset(s[..i]) + multiset{s[i]} + multiset(s[i + 1..]);
  }

  /** `getCurrentDepth`: the number of registered components. */
  function CurrentDepth(s: Stack): (n: nat)
    ensures n == |s|
  {
    |s|
  }

  /** Registering a fresh component deepens the stack by one, and its cleanup restores the stack exactly. */
  lemma RegisterThenCleanup(s: Stack, e: Element)
    requires e !in s
    ensures CurrentDepth(Register(s, e)) == CurrentDepth(s) + 1
    ensures Unregister(Register(s, e), e) == s
  {
    assert ElementDepth(e, s + [e]) == |s| by {
      assert (s + [e])[|s|] == e;
      assert (s + [e])[..|s|] == s;
    }
  }

  /** Running a cleanup a second time changes nothing, as long as the component was registered at most once. */
  lemma CleanupTwiceIsCleanupOnce(s: Stack, e: Element)
    requires multiset(s)[e] <= 1
    ensures Unregister(Unregister(s, e), e) == Unregister(s, e)
  {
    var r := Unregister(s, e);
    assert multiset(r)[e] == 0;
  }

  /** The arrays `getHierarchy` returns. */
  datatype HierarchyData = HierarchyData(
    componentNames: seq<string>,
    sameTagIndexes: seq<nat>,
    testIDs: seq<string>,
    trackingIds: seq<string>)

  /** The same-tag column of `getHierarchy`: the running `componentCounts` value after each component. */
  method SameTagIndexes(s: Stack) returns (indexes: seq<nat>)
    ensures |indexes| == |s|
    ensures forall i :: 0 <= i < |s| ==> indexes[i] == CountName(s[..i + 1], s[i].componentName) >= 1
  {
    var componentCounts: map<string, nat> := map[];
    indexes := [];
    var i := 0;
    while i < |s|
      invariant 0 <= i <= |s|
      invariant |indexes| == i
      invariant CountsOfPrefix(componentCounts, s, i)
      invariant forall k :: 0 <= k < i ==> indexes[k] == CountName(s[..k + 1], s[k].componentName) >= 1
    {
      var count;
      componentCounts, count := CountComponent(componentCounts, s, i);
      indexes := indexes + [count];
      i := i + 1;
    }
  }

  /**
    `getHierarchy`: one entry per registered component in every array; a
    missing or empty testID or trackingId reads "null" (the tracking ids are
    NOT filtered here, unlike `getHierarchyTrackingIds`), and the same-tag
    indexes agree with `buildHierarchyData`.
   */
  method GetHierarchy(s: Stack) returns (d: HierarchyData)
    ensures |d.componentNames| == |d.sameTagIndexes| == |d.testIDs| == |d.trackingIds| == |s|
    ensures d.componentNames == ComponentNames(s)
    ensures d.testIDs == TestIds(s)
    ensures forall i :: 0 <= i < |s| ==> d.trackingIds[i] == OrElse(s[i].trackingId, "null")
    ensures forall i :: 0 <= i < |s| ==> d.sameTagIndexes[i] == CountName(s[..i + 1], s[i].componentName) >= 1
  {
    var indexes := SameTagIndexes(s);
    var trackingIds := seq(|s|, i requires 0 <= i < |s| => OrElse(s[i].trackingId, "null"));
    d := HierarchyData(ComponentNames(s), indexes, TestIds(s), trackingIds);
  }
}
