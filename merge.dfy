// The greedy, seed-only clustering of merge_and_adjust_regions as pure
// functions: what one pass over the worklist absorbs and keeps, the
// sequence of clusters, and the list of boxes finally returned. The lemmas
// state the partition, membership, order and bounds properties.

module RegionMerge {
  import opened Regions

  /** The regions of rest, in order, that join the cluster seeded by seed. */
  function Absorbed(seed: Region, rest: seq<Region>, t: int): (a: seq<Region>)
    ensures |a| <= |rest|
    ensures forall x :: x in a ==> x in rest && Near(seed, x, t)
  {
    if rest == [] then []
    else (if Near(seed, rest[0], t) then [rest[0]] else []) + Absorbed(seed, rest[1..], t)
  }

  /** The regions of rest, in order, that stay in the worklist. */
  function Kept(seed: Region, rest: seq<Region>, t: int): (k: seq<Region>)
    ensures |k| <= |rest|
    ensures forall x :: x in k ==> x in rest && !Near(seed, x, t)
  {
    if rest == [] then []
    else (if Near(seed, rest[0], t) then [] else [rest[0]]) + Kept(seed, rest[1..], t)
  }

  /** The clusters in creation order: each seed is the first region still
      in the worklist, and its cluster is the seed followed by the regions
      absorbed from the rest of the worklist. */
  function Clusters(regions: seq<Region>, t: int): (cs: seq<seq<Region>>)
    ensures |cs| <= |regions|
    ensures regions != [] ==> |cs| >= 1
    ensures forall k :: 0 <= k < |cs| ==> |cs[k]| > 0
    decreases |regions|
  {
    if regions == [] then []
    else
      var seed, rest := regions[0], regions[1..];
      [[seed] + Absorbed(seed, rest, t)] + Clusters(Kept(seed, rest, t), t)
  }

  /** The list returned by merge_and_adjust_regions: one adjusted box per
      cluster, in cluster order. */
  function Merge(regions: seq<Region>, t: int, margin: int, width: int, height: int): (out: seq<Region>)
    ensures |out| <= |regions|
    ensures out == [] <==> regions == []
    ensures forall k :: 0 <= k < |out| ==> InCanvas(out[k], width, height)
  {
    var cs := Clusters(regions, t);
    seq(|cs|, k requires 0 <= k < |cs| => AdjustedBox(cs[k], margin, width, height))
  }

  /** The worklist left after k passes of the outer loop. */
  function Worklist(regions: seq<Region>, t: int, k: nat): seq<Region>
    decreases k
  {
    if k == 0 || regions == [] then regions
    else Worklist(Kept(regions[0], regions[1..], t), t, k - 1)
  }

  /** All members of all clusters, in order. */
  function Flatten(cs: seq<seq<Region>>): seq<Region>
  {
    if cs == [] then [] else cs[0] + Flatten(cs[1..])
  }

  /** The first member, the seed, of every cluster. */
  function Seeds(cs: seq<seq<Region>>): seq<Region>
    requires forall k :: 0 <= k < |cs| ==> |cs[k]| > 0
  {
    seq(|cs|, k requires 0 <= k < |cs| => cs[k][0])
  }

  /** a is obtained from b by deleting elements; order is preserved. */
  predicate Subsequence(a: seq<Region>, b: seq<Region>)
    decreases |b|
  {
    if a == [] then true
    else if b == [] then false
    else (a[0] == b[0] && Subsequence(a[1..], b[1..])) || Subsequence(a, b[1..])
  }

  // ---------------------------------------------------------------------
  // One pass of the inner scan

  /** Every scanned region goes to exactly one side: the scan splits rest
      into two parts whose multisets add up to rest. */
  lemma {:induction false} ScanSplits(seed: Region, rest: seq<Region>, t: int)
    ensures multiset(Absorbed(seed, rest, t)) + multiset(Kept(seed, rest, t)) == multiset(rest)
  {
    if rest != [] {
      var a, k := Absorbed(seed, rest[1..], t), Kept(seed, rest[1..], t);
      ScanSplits(seed, rest[1..], t);
      assert rest == [rest[0]] + rest[1..];
      if Near(seed, rest[0], t) {
        assert Absorbed(seed, rest, t) == [rest[0]] + a && Kept(seed, rest, t) == k;
      } else {
        assert Absorbed(seed, rest, t) == a && Kept(seed, rest, t) == [rest[0]] + k;
      }
    }
  }

  /** A region of rest is absorbed iff it is near the seed, and kept iff it
      is not. */
  lemma ScanDecidesByDistance(seed: Region, rest: seq<Region>, t: int, x: Region)
    requires x in rest
    ensures x in Absorbed(seed, rest, t) <==> Near(seed, x, t)
    ensures x in Kept(seed, rest, t) <==> !Near(seed, x, t)
  {
    ScanSplits(seed, rest, t);
    assert x in multiset(rest);
  }

  /** Scanning a concatenation scans each part in turn; this is what lets
      the imperative scan extend its result one region at a time. */
  lemma {:induction false} AbsorbedConcat(seed: Region, a: seq<Region>, b: seq<Region>, t: int)
    ensures Absorbed(seed, a + b, t) == Absorbed(seed, a, t) + Absorbed(seed, b, t)
  {
    if a == [] {
      assert a + b == b;
    } else {
      AbsorbedConcat(seed, a[1..], b, t);
      var head := if Near(seed, a[0], t) then [a[0]] else [];
      ConcatTail(a, b);
      assert Absorbed(seed, a + b, t) == head + Absorbed(seed, a[1..] + b, t);
      assert Absorbed(seed, a, t) == head + Absorbed(seed, a[1..], t);
      var rest, tail := Absorbed(seed, a[1..], t), Absorbed(seed, b, t);
      ConcatAssociative(head, rest, tail);
    }
  }

  lemma {:induction false} KeptConcat(seed: Region, a: seq<Region>, b: seq<Region>, t: int)
    ensures Kept(seed, a + b, t) == Kept(seed, a, t) + Kept(seed, b, t)
  {
    if a == [] {
      assert a + b == b;
    } else {
      KeptConcat(seed, a[1..], b, t);
      var head := if Near(seed, a[0], t) then [] else [a[0]];
      ConcatTail(a, b);
      assert Kept(seed, a + b, t) == head + Kept(seed, a[1..] + b, t);
      assert Kept(seed, a, t) == head + Kept(seed, a[1..], t);
      var rest, tail := Kept(seed, a[1..], t), Kept(seed, b, t);
      ConcatAssociative(head, rest, tail);
    }
  }

  lemma {:induction false} KeptIsSubsequence(seed: Region, rest: seq<Region>, t: int)
    ensures Subsequence(Kept(seed, rest, t), rest)
  {
    if rest != [] {
      var k := Kept(seed, rest[1..], t);
      KeptIsSubsequence(seed, rest[1..], t);
      if Near(seed, rest[0], t) {
        assert Kept(seed, rest, t) == k;
        SubsequenceOfTail(rest);
        SubsequenceTransitive(k, rest[1..], rest);
      } else {
        assert Kept(seed, rest, t) == [rest[0]] + k;
        assert ([rest[0]] + k)[1..] == k;
      }
    }
  }

  // ---------------------------------------------------------------------
  // Sequence helpers

  lemma ConcatAssociative(a: seq<Region>, b: seq<Region>, c: seq<Region>)
    ensures a + (b + c) == (a + b) + c
  {
  }

  lemma ConcatTail(a: seq<Region>, b: seq<Region>)
    requires a != []
    ensures a + b != [] && (a + b)[0] == a[0] && (a + b)[1..] == a[1..] + b
  {
  }

  lemma SuffixFrom(s: seq<Region>, i: int)
    requires 0 <= i < |s|
    ensures s[i..] == [s[i]] + s[i + 1..]
  {
  }

  lemma {:induction false} SubsequenceTransitive(a: seq<Region>, b: seq<Region>, c: seq<Region>)
    requires Subsequence(a, b) && Subsequence(b, c)
    ensures Subsequence(a, c)
    decreases |c|
  {
    if a == [] || b == [] {
    } else if b[0] == c[0] && Subsequence(b[1..], c[1..]) {
      if a[0] == b[0] && Subsequence(a[1..], b[1..]) {
        SubsequenceTransitive(a[1..], b[1..], c[1..]);
      } else {
        SubsequenceTransitive(a, b[1..], c[1..]);
      }
    } else {
      SubsequenceTransitive(a, b, c[1..]);
    }
  }

  lemma {:induction false} SubsequenceReflexive(a: seq<Region>)
    ensures Subsequence(a, a)
  {
    if a != [] {
      SubsequenceReflexive(a[1..]);
    }
  }

  lemma SubsequenceOfTail(a: seq<Region>)
    requires a != []
    ensures Subsequence(a[1..], a)
  {
    SubsequenceReflexive(a[1..]);
  }

  // ---------------------------------------------------------------------
  // Properties of the clustering

  /** Every input region ends up in exactly one cluster: the clusters,
      concatenated, are a permutation of the input. */
  lemma {:induction false} ClustersPartition(regions: seq<Region>, t: int)
    ensures multiset(Flatten(Clusters(regions, t))) == multiset(regions)
    decreases |regions|
  {
    if regions != [] {
      var seed, rest := regions[0], regions[1..];
      var cs := Clusters(regions, t);
      ScanSplits(seed, rest, t);
      ClustersPartition(Kept(seed, rest, t), t);
      assert cs[1..] == Clusters(Kept(seed, rest, t), t);
      assert regions == [seed] + rest;
    }
  }

  lemma MemberOfClusters(cs: seq<seq<Region>>, k: int, x: Region)
    requires 0 <= k < |cs| && x in cs[k]
    ensures x in Flatten(cs)
  {
    if k > 0 {
      MemberOfClusters(cs[1..], k - 1, x);
    }
  }

  /** Membership is decided against the seed alone: every member after the
      first is near the first. */
  lemma {:induction false} MembersNearSeed(regions: seq<Region>, t: int)
    ensures var cs := Clusters(regions, t);
      forall k, j :: 0 <= k < |cs| && 0 < j < |cs[k]| ==> Near(cs[k][0], cs[k][j], t)
    decreases |regions|
  {
    if regions != [] {
      var seed, rest := regions[0], regions[1..];
      var cs := Clusters(regions, t);
      MembersNearSeed(Kept(seed, rest, t), t);
      assert cs[1..] == Clusters(Kept(seed, rest, t), t);
      forall k, j | 0 <= k < |cs| && 0 < j < |cs[k]|
        ensures Near(cs[k][0], cs[k][j], t)
      {
        if k == 0 {
          assert cs[0][j] in Absorbed(seed, rest, t);
        } else {
          assert cs[k] == cs[1..][k - 1];
        }
      }
    }
  }

  /** The converse: a region that lands in a later cluster was still in the
      worklist when an earlier seed was picked, and it was not taken because
      it is not near that seed. Together with MembersNearSeed, a region
      remaining in the worklist joins a cluster iff it is near its seed. */
  lemma {:induction false} LaterClustersFarFromSeed(regions: seq<Region>, t: int)
    ensures var cs := Clusters(regions, t);
      forall k, l, x :: 0 <= k < l < |cs| && x in cs[l] ==> !Near(cs[k][0], x, t)
    decreases |regions|
  {
    if regions != [] {
      var seed, rest := regions[0], regions[1..];
      var kept := Kept(seed, rest, t);
      var cs := Clusters(regions, t);
      var tail := Clusters(kept, t);
      LaterClustersFarFromSeed(kept, t);
      ClustersPartition(kept, t);
      assert cs[1..] == tail;
      forall k, l, x | 0 <= k < l < |cs| && x in cs[l]
        ensures !Near(cs[k][0], x, t)
      {
        assert cs[l] == tail[l - 1];
        if k == 0 {
          MemberOfClusters(tail, l - 1, x);
          assert x in multiset(Flatten(tail));
          assert x in kept;
        } else {
          assert cs[k] == tail[k - 1];
        }
      }
    }
  }

  /** Seed-only membership is not transitive: C is near B and B is near the
      seed A, yet C is far from A and forms a cluster of its own. */
  lemma NoChaining()
    ensures var a, b, c := Region(0, 0, 10, 10), Region(8, 0, 10, 10), Region(16, 0, 10, 10);
      Near(a, b, 10) && Near(b, c, 10) && !Near(a, c, 10) &&
      Clusters([a, b, c], 10) == [[a, b], [c]]
  {
    var a, b, c := Region(0, 0, 10, 10), Region(8, 0, 10, 10), Region(16, 0, 10, 10);
    assert DistanceSquared4(a, b) == 256 && DistanceSquared4(b, c) == 256;
    assert DistanceSquared4(a, c) == 1024;
    assert Absorbed(a, [b, c], 10) == [b] && Kept(a, [b, c], 10) == [c] by {
      var bc := [b, c];
      assert bc[0] == b && bc[1..] == [c] && [c][1..] == [];
      assert Absorbed(a, [c], 10) == [] && Kept(a, [c], 10) == [c];
    }
    ClustersStep([a, b, c], 10);
    assert [a, b, c][1..] == [b, c];
    ClustersOfOne(c, 10);
    assert [a] + [b] == [a, b];
  }

  /** Output order follows seed order: the k-th cluster is seeded by the
      first region of the worklist left after k passes, and consists of that
      seed and what it absorbs from the rest of that worklist. */
  lemma {:induction false} ClusterComesFromWorklist(regions: seq<Region>, t: int, k: nat)
    requires k < |Clusters(regions, t)|
    ensures var w := Worklist(regions, t, k);
      w != [] && Clusters(regions, t)[k] == [w[0]] + Absorbed(w[0], w[1..], t)
    decreases k
  {
    if k > 0 {
      var kept := Kept(regions[0], regions[1..], t);
      assert Clusters(regions, t)[1..] == Clusters(kept, t);
      ClusterComesFromWorklist(kept, t, k - 1);
    }
  }

  /** The worklist keeps the input's relative order, so its first region is
      the earliest input region not yet clustered. */
  lemma {:induction false} WorklistIsSubsequence(regions: seq<Region>, t: int, k: nat)
    ensures Subsequence(Worklist(regions, t, k), regions)
    decreases k
  {
    if k == 0 || regions == [] {
      SubsequenceReflexive(regions);
    } else {
      var kept := Kept(regions[0], regions[1..], t);
      WorklistIsSubsequence(kept, t, k - 1);
      KeptIsSubsequence(regions[0], regions[1..], t);
      SubsequenceTransitive(Worklist(kept, t, k - 1), kept, regions[1..]);
      SubsequenceOfTail(regions);
      SubsequenceTransitive(Worklist(kept, t, k - 1), regions[1..], regions);
    }
  }

  /** The worklist after k passes holds exactly the regions not in the first
      k clusters. */
  lemma {:induction false} WorklistIsUnclustered(regions: seq<Region>, t: int, k: nat)
    requires k <= |Clusters(regions, t)|
    ensures multiset(Worklist(regions, t, k)) + multiset(Flatten(Clusters(regions, t)[..k])) == multiset(regions)
    decreases k
  {
    if k > 0 {
      var seed, rest := regions[0], regions[1..];
      var absorbed, kept := Absorbed(seed, rest, t), Kept(seed, rest, t);
      var cs := Clusters(regions, t);
      var tail := Clusters(kept, t);
      ClustersStep(regions, t);
      var w := Worklist(kept, t, k - 1);
      var done := Flatten(tail[..k - 1]);
      assert |tail| == |cs| - 1;
      WorklistIsUnclustered(kept, t, k - 1);
      ScanSplits(seed, rest, t);
      FlattenConsPrefix(cs, k);
      MultisetBookkeeping(w, done, kept, absorbed, rest, cs[0], multiset(Flatten(cs[..k])), regions, seed);
    }
  }

  /** One unfolding of Clusters, as two facts about its head and tail. */
  lemma ClustersStep(regions: seq<Region>, t: int)
    requires regions != []
    ensures var cs, seed, rest := Clusters(regions, t), regions[0], regions[1..];
      cs[0] == [seed] + Absorbed(seed, rest, t) && cs[1..] == Clusters(Kept(seed, rest, t), t)
  {
  }

  lemma MultisetOfCons(s: seq<Region>)
    requires s != []
    ensures multiset(s) == multiset{s[0]} + multiset(s[1..])
  {
    assert s == [s[0]] + s[1..];
  }

  lemma MultisetBookkeeping(w: seq<Region>, done: seq<Region>, kept: seq<Region>,
    absorbed: seq<Region>, rest: seq<Region>, first: seq<Region>, clustered: multiset<Region>,
    regions: seq<Region>, seed: Region)
    requires multiset(w) + multiset(done) == multiset(kept)
    requires multiset(absorbed) + multiset(kept) == multiset(rest)
    requires first == [seed] + absorbed && clustered == multiset(first) + multiset(done)
    requires regions != [] && regions[0] == seed && regions[1..] == rest
    ensures multiset(w) + clustered == multiset(regions)
  {
    assert regions == [seed] + rest;
  }

  lemma FlattenConsPrefix(cs: seq<seq<Region>>, k: int)
    requires 0 < k <= |cs|
    ensures multiset(Flatten(cs[..k])) == multiset(cs[0]) + multiset(Flatten(cs[1..][..k - 1]))
  {
    assert cs[..k][1..] == cs[1..][..k - 1];
  }

  /** The seeds appear in the same order as in the input. */
  lemma {:induction false} SeedsInInputOrder(regions: seq<Region>, t: int)
    ensures Subsequence(Seeds(Clusters(regions, t)), regions)
    decreases |regions|
  {
    if regions != [] {
      var seed, rest := regions[0], regions[1..];
      var kept := Kept(seed, rest, t);
      var cs := Clusters(regions, t);
      SeedsInInputOrder(kept, t);
      KeptIsSubsequence(seed, rest, t);
      SubsequenceTransitive(Seeds(Clusters(kept, t)), kept, rest);
      assert cs[1..] == Clusters(kept, t);
      assert Seeds(cs)[1..] == Seeds(Clusters(kept, t));
      assert Seeds(cs)[0] == regions[0];
    }
  }

  // ---------------------------------------------------------------------
  // Properties of the returned boxes

  /** The k-th box is the adjusted bounding box of the k-th cluster. */
  lemma BoxOfCluster(regions: seq<Region>, t: int, margin: int, width: int, height: int, k: int)
    requires 0 <= k < |Merge(regions, t, margin, width, height)|
    ensures var cs := Clusters(regions, t);
      k < |cs| && Merge(regions, t, margin, width, height)[k] == AdjustedBox(cs[k], margin, width, height)
  {
  }

  /** Containment: with a non-negative margin, every input region,
      intersected with the canvas, lies inside the box of its cluster. */
  lemma ClusterMembersInsideBox(regions: seq<Region>, t: int, margin: int, width: int, height: int, k: int, j: int)
    requires 0 <= margin
    requires 0 <= k < |Clusters(regions, t)| && 0 <= j < |Clusters(regions, t)[k]|
    ensures var r, m := Merge(regions, t, margin, width, height)[k], Clusters(regions, t)[k][j];
      r.x <= Max(m.x, 0) && r.y <= Max(m.y, 0) &&
      Min(Right(m), width) <= Right(r) && Min(Bottom(m), height) <= Bottom(r)
  {
    MemberInsideBox(Clusters(regions, t)[k], margin, width, height, j);
  }

  /** One pass of the outer loop: the first box comes from the first
      region's cluster, and the rest are the merge of what is kept. */
  lemma MergeStep(regions: seq<Region>, t: int, margin: int, width: int, height: int)
    requires regions != []
    ensures var seed, rest := regions[0], regions[1..];
      Merge(regions, t, margin, width, height) ==
        [AdjustedBox([seed] + Absorbed(seed, rest, t), margin, width, height)] +
        Merge(Kept(seed, rest, t), t, margin, width, height)
  {
    var seed, rest := regions[0], regions[1..];
    var cs, tail := Clusters(regions, t), Clusters(Kept(seed, rest, t), t);
    var m := Merge(regions, t, margin, width, height);
    var box := AdjustedBox([seed] + Absorbed(seed, rest, t), margin, width, height);
    var later := Merge(Kept(seed, rest, t), t, margin, width, height);
    assert |m| == 1 + |later| by {
      ClustersStep(regions, t);
    }
    forall k | 0 <= k < |m|
      ensures m[k] == ([box] + later)[k]
    {
      ClustersStep(regions, t);
      if k > 0 {
        assert cs[k] == tail[k - 1];
      }
    }
  }

  /** A lone region with a margin that stays inside the canvas is padded
      by the margin on every side. */
  lemma SingleRegionIsPadded()
    ensures Merge([Region(50, 50, 10, 10)], 250, 20, 500, 500) == [Region(30, 30, 50, 50)]
  {
    var r := Region(50, 50, 10, 10);
    var m := Merge([r], 250, 20, 500, 500);
    ClustersOfOne(r, 250);
    assert AdjustedBox([r], 20, 500, 500) == Region(30, 30, 50, 50) by {
      BoxOfOne(r, 20, 500, 500);
    }
    BoxOfCluster([r], 250, 20, 500, 500, 0);
  }

  /** Two regions whose centres are close merge into their bounding box. */
  lemma NearRegionsMerge(a: Region, b: Region)
    requires a == Region(10, 10, 10, 10) && b == Region(20, 20, 10, 10)
    ensures Merge([a, b], 250, 0, 1000, 1000) == [Region(10, 10, 20, 20)]
  {
    assert DistanceSquared4(a, b) == 800;
    PairClusters(a, b, 250);
    PairBox(a, b);
    MergeOfClusters([a, b], 250, 0, 1000, 1000);
  }

  /** With a threshold of one the same two regions stay apart, and with no
      margin each box is its region. */
  lemma FarRegionsStayApart(a: Region, b: Region)
    requires a == Region(10, 10, 10, 10) && b == Region(20, 20, 10, 10)
    ensures Merge([a, b], 1, 0, 1000, 1000) == [a, b]
  {
    assert DistanceSquared4(a, b) == 800;
    PairClusters(a, b, 1);
    BoxOfOne(a, 0, 1000, 1000);
    BoxOfOne(b, 0, 1000, 1000);
    MergeOfClusters([a, b], 1, 0, 1000, 1000);
  }

  lemma MergeOfClusters(regions: seq<Region>, t: int, margin: int, width: int, height: int)
    ensures var cs, m := Clusters(regions, t), Merge(regions, t, margin, width, height);
      (|cs| == 1 ==> m == [AdjustedBox(cs[0], margin, width, height)]) &&
      (|cs| == 2 ==> m == [AdjustedBox(cs[0], margin, width, height), AdjustedBox(cs[1], margin, width, height)])
  {
  }

  lemma PairClusters(a: Region, b: Region, t: int)
    ensures Near(a, b, t) ==> Clusters([a, b], t) == [[a, b]]
    ensures !Near(a, b, t) ==> Clusters([a, b], t) == [[a], [b]]
  {
    ClustersStep([a, b], t);
    assert [a, b][1..] == [b] && [b][1..] == [];
    if Near(a, b, t) {
      assert Absorbed(a, [b], t) == [b] && Kept(a, [b], t) == [];
      assert [a] + [b] == [a, b];
    } else {
      assert Absorbed(a, [b], t) == [] && Kept(a, [b], t) == [b];
      assert [a] + [] == [a];
      ClustersOfOne(b, t);
    }
  }

  lemma PairBox(a: Region, b: Region)
    requires a == Region(10, 10, 10, 10) && b == Region(20, 20, 10, 10)
    ensures AdjustedBox([a, b], 0, 1000, 1000) == Region(10, 10, 20, 20)
  {
    assert Lefts([a, b]) == [10, 20] && Tops([a, b]) == [10, 20];
    assert Rights([a, b]) == [20, 30] && Bottoms([a, b]) == [20, 30];
  }

  lemma ClustersOfOne(r: Region, t: int)
    ensures Clusters([r], t) == [[r]]
  {
    ClustersStep([r], t);
    assert [r][1..] == [];
    assert Absorbed(r, [], t) == [] && Kept(r, [], t) == [];
    assert [r] + [] == [r];
  }

  lemma BoxOfOne(r: Region, margin: int, width: int, height: int)
    ensures var box := AdjustedBox([r], margin, width, height);
      box.x == Max(r.x - margin, 0) && box.y == Max(r.y - margin, 0) &&
      Right(box) == Min(Right(r) + margin, width) && Bottom(box) == Min(Bottom(r) + margin, height)
  {
    assert Lefts([r]) == [r.x] && Tops([r]) == [r.y];
    assert Rights([r]) == [Right(r)] && Bottoms([r]) == [Bottom(r)];
  }
}
