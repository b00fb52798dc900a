// merge_and_adjust_regions as the loop it is: it consumes the caller's list
// of regions in place (pop(0) for each seed, remove for each absorbed
// region) and appends one adjusted box per cluster to a new list.

module ImageDifferenceFinder {
  import opened Regions
  import opened RegionMerge

  /** The list without its first element equal to x; the list itself when
      no element equals x. */
  function RemoveFirst(s: seq<Region>, x: Region): (r: seq<Region>)
    ensures x in s ==> |r| == |s| - 1
    ensures x !in s ==> r == s
  {
    if s == [] then []
    else if s[0] == x then s[1..] else [s[0]] + RemoveFirst(s[1..], x)
  }

  /** When the first occurrence of x follows the prefix a, removing x
      removes exactly that occurrence. */
  lemma {:induction false} RemoveFirstAfterPrefix(a: seq<Region>, x: Region, b: seq<Region>)
    requires x !in a
    ensures RemoveFirst(a + [x] + b, x) == a + b
  {
    var s := a + [x] + b;
    if a == [] {
      assert s == [x] + b && s[1..] == b;
    } else {
      RemoveFirstAfterPrefix(a[1..], x, b);
      assert s[0] == a[0] != x;
      assert s[1..] == a[1..] + [x] + b;
      assert RemoveFirst(s, x) == [a[0]] + RemoveFirst(s[1..], x);
      assert a == [a[0]] + a[1..];
      ConcatAssociative([a[0]], a[1..], b);
    }
  }

  /** One step of the inner scan: the scanned prefix grows by the next
      region, which goes to the absorbed side iff it is near the seed. */
  lemma AbsorbedStep(seed: Region, s: seq<Region>, i: int, t: int)
    requires 0 <= i < |s|
    ensures Absorbed(seed, s[..i + 1], t) ==
      Absorbed(seed, s[..i], t) + (if Near(seed, s[i], t) then [s[i]] else [])
  {
    var done, x := s[..i], s[i];
    assert s[..i + 1] == done + [x];
    AbsorbedConcat(seed, done, [x], t);
    assert [x][1..] == [];
    assert Absorbed(seed, [x], t) == if Near(seed, x, t) then [x] else [];
  }

  lemma KeptStep(seed: Region, s: seq<Region>, i: int, t: int)
    requires 0 <= i < |s|
    ensures Kept(seed, s[..i + 1], t) ==
      Kept(seed, s[..i], t) + (if Near(seed, s[i], t) then [] else [s[i]])
  {
    var done, x := s[..i], s[i];
    assert s[..i + 1] == done + [x];
    KeptConcat(seed, done, [x], t);
    assert [x][1..] == [];
    assert Kept(seed, [x], t) == if Near(seed, x, t) then [] else [x];
  }

  /** A Python list of regions, changed in place. */
  class RegionList {
    var items: seq<Region>

    constructor (init: seq<Region>)
      ensures items == init
    {
      items := init;
    }

    /** list.pop(0) */
    method PopFront() returns (r: Region)
      requires items != []
      modifies this
      ensures r == old(items)[0] && items == old(items)[1..]
    {
      r := items[0];
      items := items[1..];
    }

    /** list.remove(x): drops the first element equal to x. */
    method Remove(x: Region)
      requires x in items
      modifies this
      ensures items == RemoveFirst(old(items), x)
    {
      items := RemoveFirst(items, x);
    }
  }

  /** The inner scan of one pass: every region still in the list whose
      centre is within distanceThreshold of the seed's is appended to the
      cluster and removed from the list; the others stay, in order. */
  method AbsorbNearRegions(regions: RegionList, region: Region, distanceThreshold: int)
    returns (overlapping: seq<Region>)
    modifies regions
    ensures overlapping == [region] + Absorbed(region, old(regions.items), distanceThreshold)
    ensures regions.items == Kept(region, old(regions.items), distanceThreshold)
  {
    overlapping := [region];
    var snapshot := regions.items;
    for i := 0 to |snapshot|
      invariant overlapping == [region] + Absorbed(region, snapshot[..i], distanceThreshold)
      invariant regions.items == Kept(region, snapshot[..i], distanceThreshold) + snapshot[i..]
    {
      var other := snapshot[i];
      ghost var absorbed := Absorbed(region, snapshot[..i], distanceThreshold);
      ghost var kept := Kept(region, snapshot[..i], distanceThreshold);
      AbsorbedStep(region, snapshot, i, distanceThreshold);
      KeptStep(region, snapshot, i, distanceThreshold);
      SuffixFrom(snapshot, i);
      ConcatAssociative(kept, [other], snapshot[i + 1..]);
      if Near(region, other, distanceThreshold) {
        ConcatAssociative([region], absorbed, [other]);
        overlapping := overlapping + [other];
        // Every region equal to other has the same verdict, so none is
        // left among the kept ones: remove takes other itself.
        assert other !in kept;
        RemoveFirstAfterPrefix(kept, other, snapshot[i + 1..]);
        regions.Remove(other);
        assert kept + [] == kept;
      } else {
        assert absorbed + [] == absorbed;
      }
    }
    assert snapshot[..|snapshot|] == snapshot;
  }

  /** Clusters the regions of the list around successive seeds, returns one
      padded, canvas-clamped box per cluster in seed order, and leaves the
      caller's list empty. */
  method MergeAndAdjustRegions(regions: RegionList, distanceThreshold: int, margin: int, width: int, height: int)
    returns (merged: seq<Region>)
    modifies regions
    ensures regions.items == []
    ensures merged == Merge(old(regions.items), distanceThreshold, margin, width, height)
  {
    merged := [];
    while regions.items != []
      invariant merged + Merge(regions.items, distanceThreshold, margin, width, height)
             == Merge(old(regions.items), distanceThreshold, margin, width, height)
      decreases |regions.items|
    {
      ghost var before := regions.items;
      var region := regions.PopFront();
      var overlapping := AbsorbNearRegions(regions, region, distanceThreshold);
      var box := AdjustedBox(overlapping, margin, width, height);
      MergeStep(before, distanceThreshold, margin, width, height);
      ghost var later := Merge(regions.items, distanceThreshold, margin, width, height);
      ConcatAssociative(merged, [box], later);
      merged := merged + [box];
    }
  }

  /** On an empty list the merge returns an empty list. */
  method MergeOfEmptyList(distanceThreshold: int, margin: int, width: int, height: int)
    returns (merged: seq<Region>)
    ensures merged == []
  {
    var regions := new RegionList([]);
    merged := MergeAndAdjustRegions(regions, distanceThreshold, margin, width, height);
  }
}
