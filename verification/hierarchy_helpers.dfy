/**
  Component-hierarchy analytics over a stack of registered elements, the
  root first. Elements are compared by identity (`===` on objects): an
  `Element` carries a reference number, so two registrations with equal
  fields are still distinct elements.
 */
module HierarchyHelpers {
  import opened JsSemantics

  datatype Element = Element(
    ref: nat,
    componentName: string,
    testID: Option<string>,
    accessibilityLabel: Option<string>,
    trackingId: Option<string>)

  /**
    `getElementDepth`, i.e. `hierarchy.findIndex(h => h === element)`: the
    first position holding the element, or -1 when it is absent.
   */
  function ElementDepth(e: Element, h: seq<Element>): (r: int)
    ensures -1 <= r < |h|
    ensures r == -1 <==> e !in h
    ensures 0 <= r < |h| ==> h[r] == e && e !in h[..r]
    decreases |h|
  {
    if |h| == 0 then -1
    else if h[0] == e then 0
    else if ElementDepth(e, h[1..]) < 0 then -1
    else ElementDepth(e, h[1..]) + 1
  }

  /** How many elements of `h` are named `name`. */
  function CountName(h: seq<Element>, name: string): (n: nat)
    ensures n <= |h|
    decreases |h|
  {
    if |h| == 0 then 0
    else CountName(h[..|h| - 1], name) + (if h[|h| - 1].componentName == name then 1 else 0)
  }

  lemma CountNameStep(h: seq<Element>, i: int, name: string)
    requires 0 <= i < |h|
    ensures CountName(h[..i + 1], name) == CountName(h[..i], name) + (if h[i].componentName == name then 1 else 0)
  {
    assert h[..i + 1][..i] == h[..i];
  }

  /** Counting over a longer prefix never gives less. */
  lemma {:induction false} CountNamePrefixMonotone(h: seq<Element>, i: int, j: int, name: string)
    requires 0 <= i <= j <= |h|
    ensures CountName(h[..i], name) <= CountName(h[..j], name)
    decreases j - i
  {
    if i < j {
      CountNameStep(h, j - 1, name);
      CountNamePrefixMonotone(h, i, j - 1, name);
    }
  }

  /** A prefix that ends with an element counts that element's name at least once. */
  lemma CountOwnName(h: seq<Element>, i: int)
    requires 0 <= i < |h|
    ensures CountName(h[..i + 1], h[i].componentName) >= 1
  {
    CountNameStep(h, i, h[i].componentName);
  }

  /** `siblings.filter(h => h.componentName === name).length`. */
  method CountSameName(siblings: seq<Element>, name: string) returns (n: nat)
    ensures n == CountName(siblings, name)
  {
    n := 0;
    var i := 0;
    while i < |siblings|
      invariant 0 <= i <= |siblings|
      invariant n == CountName(siblings[..i], name)
    {
      CountNameStep(siblings, i, name);
      if siblings[i].componentName == name {
        n := n + 1;
      }
      i := i + 1;
    }
    assert siblings[..i] == siblings;
  }

  /**
    `calculateNthChildPosition`: empty when the element is absent; otherwise
    one entry per depth up to the element's, entry `d` counting the elements
    named like it among the first `d + 1`.
   */
  method CalculateNthChildPosition(e: Element, h: seq<Element>) returns (positions: seq<nat>)
    ensures e !in h ==> positions == []
    ensures e in h ==> |positions| == ElementDepth(e, h) + 1
    ensures forall d :: 0 <= d < |positions| ==> positions[d] == CountName(h[..d + 1], e.componentName)
    ensures e in h ==> positions[|positions| - 1] >= 1
  {
    positions := [];
    var elementIndex := ElementDepth(e, h);
    if elementIndex >= 0 {
      var depth := 0;
      while depth <= elementIndex
        invariant 0 <= depth <= elementIndex + 1
        invariant |positions| == depth
        invariant forall d :: 0 <= d < depth ==> positions[d] == CountName(h[..d + 1], e.componentName)
      {
        var siblings := h[..depth + 1];
        var position := CountSameName(siblings, e.componentName);
        positions := positions + [position];
        depth := depth + 1;
      }
      CountOwnName(h, elementIndex);
    }
  }

  /** The nth-child positions never decrease with depth. */
  lemma NthChildPositionsAscend(h: seq<Element>, name: string, d: int, d': int)
    requires 0 <= d <= d' < |h|
    ensures CountName(h[..d + 1], name) <= CountName(h[..d' + 1], name)
  {
    CountNamePrefixMonotone(h, d + 1, d' + 1, name);
  }

  /**
    `calculateSameTagNthChild`: empty when the element is absent; otherwise
    the single 1-based rank of the element among the elements named like it,
    which is the last nth-child position.
   */
  method CalculateSameTagNthChild(e: Element, h: seq<Element>) returns (positions: seq<nat>)
    ensures e !in h ==> positions == []
    ensures e in h ==> positions == [CountName(h[..ElementDepth(e, h) + 1], e.componentName)]
    ensures e in h ==> positions[0] >= 1
  {
    positions := [];
    var elementIndex := ElementDepth(e, h);
    if elementIndex >= 0 {
      var sameTagCount := 0;
      var i := 0;
      while i <= elementIndex
        invariant 0 <= i <= elementIndex + 1
        invariant sameTagCount == CountName(h[..i], e.componentName)
        invariant positions == (if i == elementIndex + 1 then [sameTagCount] else [])
      {
        CountNameStep(h, i, e.componentName);
        if h[i].componentName == e.componentName {
          sameTagCount := sameTagCount + 1;
          if i == elementIndex {
            positions := positions + [sameTagCount];
          }
        }
        i := i + 1;
      }
      CountOwnName(h, elementIndex);
    }
  }

  /**
    `getElementPosition` without the bounding box: both position lists, the
    same-tag list being exactly the last nth-child entry.
   */
  method GetElementPosition(e: Element, h: seq<Element>) returns (nthChild: seq<nat>, sameTagIndex: seq<nat>)
    ensures e !in h ==> nthChild == [] && sameTagIndex == []
    ensures e in h ==> |nthChild| == ElementDepth(e, h) + 1 && sameTagIndex == [nthChild[|nthChild| - 1]]
  {
    nthChild := CalculateNthChildPosition(e, h);
    sameTagIndex := CalculateSameTagNthChild(e, h);
  }

  /** Whether `getHierarchyTrackingIds` keeps this element's id: it is set, non-empty and not the text "null". */
  predicate KeepsTrackingId(x: Element) {
    Truthy(x.trackingId) && x.trackingId.value != "null"
  }

  /** `id` is the id of some element of `h` that is kept. */
  predicate IdFromKept(id: string, h: seq<Element>) {
    exists j :: 0 <= j < |h| && KeepsTrackingId(h[j]) && id == h[j].trackingId.value
  }

  /** Every id in `ids` is the id of some element of `h` that is kept. */
  predicate IdsFromKept(ids: seq<string>, h: seq<Element>) {
    forall i :: 0 <= i < |ids| ==> IdFromKept(ids[i], h)
  }

  /** The id of every kept element of `h` is in `ids`. */
  predicate KeptIdsIn(h: seq<Element>, ids: seq<string>) {
    forall j :: 0 <= j < |h| && KeepsTrackingId(h[j]) ==> h[j].trackingId.value in ids
  }

  /** `getHierarchyTrackingIds`: `trackingId || 'null'`, then every `'null'` dropped. */
  function TrackingIds(h: seq<Element>): (r: seq<string>)
    ensures |r| <= |h|
    ensures forall i :: 0 <= i < |r| ==> r[i] != "null" && r[i] != ""
    ensures |r| == |h| <==> forall i :: 0 <= i < |h| ==> KeepsTrackingId(h[i])
    ensures IdsFromKept(r, h) && KeptIdsIn(h, r)
    decreases |h|
  {
    if |h| == 0 then []
    else
      var rest := TrackingIds(h[1..]);
      assert forall i :: 1 <= i < |h| ==> h[1..][i - 1] == h[i];
      var head := if KeepsTrackingId(h[0]) then [h[0].trackingId.value] else [];
      ConsKeepsProvenance(h, head, rest);
      head + rest
  }

  /** Putting the first element's id (when kept) before the ids of the rest keeps both directions of provenance. */
  lemma ConsKeepsProvenance(h: seq<Element>, head: seq<string>, rest: seq<string>)
    requires |h| > 0
    requires head == if KeepsTrackingId(h[0]) then [h[0].trackingId.value] else []
    requires IdsFromKept(rest, h[1..]) && KeptIdsIn(h[1..], rest)
    ensures IdsFromKept(head + rest, h) && KeptIdsIn(h, head + rest)
  {
    var r := head + rest;
    forall i | 0 <= i < |r|
      ensures IdFromKept(r[i], h)
    {
      if i < |head| {
        assert KeepsTrackingId(h[0]) && r[i] == h[0].trackingId.value;
      } else {
        assert r[i] == rest[i - |head|] && IdFromKept(rest[i - |head|], h[1..]);
        var j :| 0 <= j < |h[1..]| && KeepsTrackingId(h[1..][j]) && rest[i - |head|] == h[1..][j].trackingId.value;
        assert h[1..][j] == h[j + 1];
      }
    }
    forall j | 0 <= j < |h| && KeepsTrackingId(h[j])
      ensures h[j].trackingId.value in r
    {
      if j > 0 {
        assert h[1..][j - 1] == h[j];
        assert h[j].trackingId.value in rest;
      }
    }
  }

  /** A single element contributes its id exactly when it is kept; with `TrackingIdsAppend` this determines the filter. */
  lemma TrackingIdsSingleton(x: Element)
    ensures TrackingIds([x]) == if KeepsTrackingId(x) then [x.trackingId.value] else []
  {
    assert [x][1..] == [];
  }

  /** The ids of a concatenation are the ids of each part in order: order is kept and nothing is reordered. */
  lemma {:induction false} TrackingIdsAppend(a: seq<Element>, b: seq<Element>)
    ensures TrackingIds(a + b) == TrackingIds(a) + TrackingIds(b)
    decreases |a|
  {
    if |a| == 0 {
      assert a + b == b;
    } else {
      assert (a + b)[1..] == a[1..] + b;
      TrackingIdsAppend(a[1..], b);
    }
  }

  /** `getHierarchyComponentNames`. */
  function ComponentNames(h: seq<Element>): (r: seq<string>)
    ensures |r| == |h|
    ensures forall i :: 0 <= i < |h| ==> r[i] == h[i].componentName
  {
    seq(|h|, i requires 0 <= i < |h| => h[i].componentName)
  }

  /** `getHierarchyTestIds`: a missing or empty testID reads "null" in its place. */
  function TestIds(h: seq<Element>): (r: seq<string>)
    ensures |r| == |h|
    ensures forall i :: 0 <= i < |h| ==> r[i] == OrElse(h[i].testID, "null")
    ensures forall i :: 0 <= i < |h| ==> (r[i] == "null" <==> !Truthy(h[i].testID) || h[i].testID.value == "null")
  {
    seq(|h|, i requires 0 <= i < |h| => OrElse(h[i].testID, "null"))
  }

  /** One entry of `buildHierarchyData`. */
  datatype HierarchyEntry = HierarchyEntry(
    componentName: string,
    testID: Option<string>,
    trackingId: Option<string>,
    accessibilityLabel: Option<string>,
    sameTagIndex: nat)

  /** The running per-name counts agree with counting the prefix. */
  ghost predicate CountsOfPrefix(counts: map<string, nat>, h: seq<Element>, i: int)
    requires 0 <= i <= |h|
  {
    forall n :: CountName(h[..i], n) == (if n in counts then counts[n] else 0)
  }

  lemma CountsStep(counts: map<string, nat>, h: seq<Element>, i: int)
    requires 0 <= i < |h| && CountsOfPrefix(counts, h, i)
    ensures var name := h[i].componentName;
      CountsOfPrefix(counts[name := (if name in counts then counts[name] else 0) + 1], h, i + 1)
  {
    forall n
      ensures CountName(h[..i + 1], n) == CountName(h[..i], n) + (if h[i].componentName == n then 1 else 0)
    {
      CountNameStep(h, i, n);
    }
  }

  /** One step of `componentCounts[name] = (componentCounts[name] || 0) + 1`, giving the new count. */
  method CountComponent(counts: map<string, nat>, s: seq<Element>, i: int) returns (counts': map<string, nat>, count: nat)
    requires 0 <= i < |s| && CountsOfPrefix(counts, s, i)
    ensures CountsOfPrefix(counts', s, i + 1)
    ensures count == CountName(s[..i + 1], s[i].componentName) >= 1
  {
    var name := s[i].componentName;
    CountsStep(counts, s, i);
    count := (if name in counts then counts[name] else 0) + 1;
    counts' := counts[name := count];
  }

  /**
    `buildHierarchyData`: the same elements in the same order, each with its
    1-based rank among the elements named like it so far.
   */
  method BuildHierarchyData(h: seq<Element>) returns (entries: seq<HierarchyEntry>)
    ensures |entries| == |h|
    ensures forall i :: 0 <= i < |h| ==>
      && entries[i].componentName == h[i].componentName
      && entries[i].testID == h[i].testID
      && entries[i].trackingId == h[i].trackingId
      && entries[i].accessibilityLabel == h[i].accessibilityLabel
      && entries[i].sameTagIndex == CountName(h[..i + 1], h[i].componentName)
      && entries[i].sameTagIndex >= 1
  {
    var counts: map<string, nat> := map[];
    entries := [];
    var i := 0;
    while i < |h|
      invariant 0 <= i <= |h|
      invariant |entries| == i
      invariant CountsOfPrefix(counts, h, i)
      invariant forall k :: 0 <= k < i ==>
        && entries[k].componentName == h[k].componentName
        && entries[k].testID == h[k].testID
        && entries[k].trackingId == h[k].trackingId
        && entries[k].accessibilityLabel == h[k].accessibilityLabel
        && entries[k].sameTagIndex == CountName(h[..k + 1], h[k].componentName)
        && entries[k].sameTagIndex >= 1
    {
      var component := h[i];
      var next;
      counts, next := CountComponent(counts, h, i);
      entries := entries + [HierarchyEntry(component.componentName, component.testID, component.trackingId,
                                           component.accessibilityLabel, next)];
      i := i + 1;
    }
  }

  /** The nearest earlier position below `bound` holding an element named `name`, or -1. */
  function LastNamedBefore(h: seq<Element>, name: string, bound: int): (j: int)
    requires 0 <= bound <= |h|
    ensures -1 <= j < bound
    ensures j >= 0 ==> h[j].componentName == name
    ensures forall k :: j < k < bound ==> h[k].componentName != name
    decreases bound
  {
    if bound == 0 then -1
    else if h[bound - 1].componentName == name then bound - 1
    else LastNamedBefore(h, name, bound - 1)
  }

  /**
    `findClosestAncestor`: the element named `name` at the greatest position
    before the element's own, or nothing when there is none or the element
    is absent.
   */
  function FindClosestAncestor(e: Element, h: seq<Element>, name: string): (r: Option<Element>)
    ensures e !in h ==> r.None?
    ensures e in h && r.None? ==> forall k :: 0 <= k < ElementDepth(e, h) ==> h[k].componentName != name
    ensures r.Some? ==> e in h && r.value.componentName == name
    ensures r.Some? ==> exists j :: (0 <= j < ElementDepth(e, h) && h[j] == r.value
      && forall k :: j < k < ElementDepth(e, h) ==> h[k].componentName != name)
  {
    var elementIndex := ElementDepth(e, h);
    if elementIndex < 0 then None
    else
      var j := LastNamedBefore(h, name, elementIndex);
      if j < 0 then None else Some(h[j])
  }

  /** `isDescendantOf`: both are present and the descendant's position is after the ancestor's. */
  predicate IsDescendantOf(descendant: Element, ancestor: Element, h: seq<Element>) {
    var descendantIndex := ElementDepth(descendant, h);
    var ancestorIndex := ElementDepth(ancestor, h);
    descendantIndex > ancestorIndex && descendantIndex >= 0 && ancestorIndex >= 0
  }

  /** Being a descendant means the ancestor occurs before the descendant's first occurrence. */
  lemma DescendantMeansAncestorEarlier(d: Element, a: Element, h: seq<Element>)
    ensures IsDescendantOf(d, a, h) <==> d in h && a in h[..ElementDepth(d, h)]
  {
    if d in h && a in h[..ElementDepth(d, h)] {
      var di := ElementDepth(d, h);
      var k :| 0 <= k < di && h[..di][k] == a;
    }
  }

  /** The relation is irreflexive, asymmetric and transitive: a strict order on the elements present. */
  lemma DescendantIsStrictOrder(x: Element, y: Element, z: Element, h: seq<Element>)
    ensures !IsDescendantOf(x, x, h)
    ensures IsDescendantOf(x, y, h) ==> !IsDescendantOf(y, x, h)
    ensures IsDescendantOf(x, y, h) && IsDescendantOf(y, z, h) ==> IsDescendantOf(x, z, h)
  {
  }

  /** The closest ancestor found is an ancestor in the sense of `isDescendantOf`. */
  lemma ClosestAncestorIsAncestor(e: Element, h: seq<Element>, name: string)
    requires FindClosestAncestor(e, h, name).Some?
    ensures IsDescendantOf(e, FindClosestAncestor(e, h, name).value, h)
  {
    var a := FindClosestAncestor(e, h, name).value;
    var j :| 0 <= j < ElementDepth(e, h) && h[j] == a;
    assert h[..ElementDepth(e, h)][j] == a;
    DescendantMeansAncestorEarlier(e, a, h);
  }
}
