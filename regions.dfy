// Rectangles as the detector reports them, the centre-distance test used to
// decide whether two rectangles belong to one cluster, and the padded,
// canvas-clamped bounding box emitted for a cluster.

module Regions {

  /** A rectangle with keys position_x, position_y, width and height.
      Coordinates are integers; width and height are not required to be
      positive, since nothing in the merge rejects degenerate rectangles. */
  datatype Region = Region(x: int, y: int, width: int, height: int)

  function Min(a: int, b: int): int { if a <= b then a else b }

  function Max(a: int, b: int): int { if a >= b then a else b }

  /** Right edge, position_x + width. */
  function Right(r: Region): int { r.x + r.width }

  /** Bottom edge, position_y + height. */
  function Bottom(r: Region): int { r.y + r.height }

  /** Twice the centre of a rectangle: (2x + w, 2y + h) is the centre
      (x + w/2, y + h/2) scaled by two, so that it stays an integer. */
  function CenterX2(r: Region): int { 2 * r.x + r.width }

  function CenterY2(r: Region): int { 2 * r.y + r.height }

  /** Four times the squared Euclidean distance between the two centres. */
  function DistanceSquared4(a: Region, b: Region): (d: int)
    ensures d >= 0
  {
    var dx := CenterX2(a) - CenterX2(b);
    var dy := CenterY2(a) - CenterY2(b);
    dx * dx + dy * dy
  }

  /** The membership test of the merge: the Euclidean distance between the
      centres of a and b is at most t. A distance is never negative, so a
      negative threshold admits nothing. */
  predicate Near(a: Region, b: Region, t: int)
  {
    0 <= t && DistanceSquared4(a, b) <= 4 * t * t
  }

  // ---------------------------------------------------------------------
  // The distance test against the real-valued centres of the source

  ghost function RealCenterX(r: Region): real { r.x as real + r.width as real / 2.0 }

  ghost function RealCenterY(r: Region): real { r.y as real + r.height as real / 2.0 }

  /** The squared Euclidean distance between the real centres. */
  ghost function RealSquaredDistance(a: Region, b: Region): real
  {
    var dx := RealCenterX(a) - RealCenterX(b);
    var dy := RealCenterY(a) - RealCenterY(b);
    dx * dx + dy * dy
  }

  /** The integer quantity is exactly four times the real squared distance. */
  lemma DistanceSquared4IsScaled(a: Region, b: Region)
    ensures DistanceSquared4(a, b) as real == 4.0 * RealSquaredDistance(a, b)
  {
    var dx := CenterX2(a) - CenterX2(b);
    var dy := CenterY2(a) - CenterY2(b);
    var rx := RealCenterX(a) - RealCenterX(b);
    var ry := RealCenterY(a) - RealCenterY(b);
    assert dx as real == 2.0 * rx;
    assert dy as real == 2.0 * ry;
    assert (dx * dx) as real == (dx as real) * (dx as real);
    assert (dy * dy) as real == (dy as real) * (dy as real);
    assert (2.0 * rx) * (2.0 * rx) == 4.0 * (rx * rx);
    assert (2.0 * ry) * (2.0 * ry) == 4.0 * (ry * ry);
  }

  /** Near is the source's test "square root of the squared distance is at
      most the threshold": for the non-negative square root d of the squared
      distance between the real centres, Near holds exactly when d <= t. */
  lemma NearIffDistanceAtMost(a: Region, b: Region, t: int, d: real)
    requires 0.0 <= d && d * d == RealSquaredDistance(a, b)
    ensures Near(a, b, t) <==> d <= t as real
  {
    DistanceSquared4IsScaled(a, b);
    var tr := t as real;
    assert (4 * t * t) as real == 4.0 * (tr * tr);
    assert DistanceSquared4(a, b) as real == 4.0 * (d * d);
    assert (DistanceSquared4(a, b) <= 4 * t * t) <==> d * d <= tr * tr;
    if t < 0 {
      assert !(d <= tr);
    } else {
      if d <= tr {
        assert d * d <= d * tr <= tr * tr;
      } else {
        assert 0.0 <= tr < d;
        calc {
          tr * tr;
        <=  { assert tr * (d - tr) >= 0.0; }
          tr * d;
        <   { assert (d - tr) * d > 0.0; }
          d * d;
        }
      }
    }
  }

  // ---------------------------------------------------------------------
  // Extremes over the members of a cluster

  /** The smallest value of a non-empty sequence, as Python's min. */
  function MinOf(s: seq<int>): (m: int)
    requires |s| > 0
    ensures m in s
    ensures forall i :: 0 <= i < |s| ==> m <= s[i]
  {
    if |s| == 1 then s[0] else Min(s[0], MinOf(s[1..]))
  }

  /** The largest value of a non-empty sequence, as Python's max. */
  function MaxOf(s: seq<int>): (m: int)
    requires |s| > 0
    ensures m in s
    ensures forall i :: 0 <= i < |s| ==> s[i] <= m
  {
    if |s| == 1 then s[0] else Max(s[0], MaxOf(s[1..]))
  }

  function Lefts(c: seq<Region>): seq<int> { seq(|c|, i requires 0 <= i < |c| => c[i].x) }

  function Tops(c: seq<Region>): seq<int> { seq(|c|, i requires 0 <= i < |c| => c[i].y) }

  function Rights(c: seq<Region>): seq<int> { seq(|c|, i requires 0 <= i < |c| => Right(c[i])) }

  function Bottoms(c: seq<Region>): seq<int> { seq(|c|, i requires 0 <= i < |c| => Bottom(c[i])) }

  /** The rectangle lies inside the canvas [0, width] x [0, height]. */
  predicate InCanvas(r: Region, width: int, height: int)
  {
    0 <= r.x && 0 <= r.y && Right(r) <= width && Bottom(r) <= height
  }

  /** The rectangle emitted for one cluster: the bounding box of its
      members, grown by margin on every side, then clamped to the canvas.
      Its width and height are taken after clamping and are emitted as they
      are, even when not positive. */
  function AdjustedBox(cluster: seq<Region>, margin: int, width: int, height: int): (r: Region)
    requires |cluster| > 0
    ensures InCanvas(r, width, height)
    ensures forall i :: 0 <= i < |cluster| ==>
      r.x <= Max(cluster[i].x - margin, 0) && r.y <= Max(cluster[i].y - margin, 0) &&
      Min(Right(cluster[i]) + margin, width) <= Right(r) &&
      Min(Bottom(cluster[i]) + margin, height) <= Bottom(r)
  {
    assert forall i :: 0 <= i < |cluster| ==>
      Lefts(cluster)[i] == cluster[i].x && Tops(cluster)[i] == cluster[i].y &&
      Rights(cluster)[i] == Right(cluster[i]) && Bottoms(cluster)[i] == Bottom(cluster[i]);
    var minX := Max(MinOf(Lefts(cluster)) - margin, 0);
    var minY := Max(MinOf(Tops(cluster)) - margin, 0);
    var maxX := Min(MaxOf(Rights(cluster)) + margin, width);
    var maxY := Min(MaxOf(Bottoms(cluster)) + margin, height);
    Region(minX, minY, maxX - minX, maxY - minY)
  }

  /** Each edge of the box is attained: it is the clamped, padded edge of
      some member, so the box is the smallest one satisfying AdjustedBox's
      bounds. */
  lemma AdjustedBoxIsTight(cluster: seq<Region>, margin: int, width: int, height: int)
    requires |cluster| > 0
    ensures var r := AdjustedBox(cluster, margin, width, height);
      (exists i :: 0 <= i < |cluster| && r.x == Max(cluster[i].x - margin, 0)) &&
      (exists i :: 0 <= i < |cluster| && r.y == Max(cluster[i].y - margin, 0)) &&
      (exists i :: 0 <= i < |cluster| && Right(r) == Min(Right(cluster[i]) + margin, width)) &&
      (exists i :: 0 <= i < |cluster| && Bottom(r) == Min(Bottom(cluster[i]) + margin, height))
  {
    var lefts, tops, rights, bottoms := Lefts(cluster), Tops(cluster), Rights(cluster), Bottoms(cluster);
    var a :| 0 <= a < |lefts| && lefts[a] == MinOf(lefts);
    var b :| 0 <= b < |tops| && tops[b] == MinOf(tops);
    var c :| 0 <= c < |rights| && rights[c] == MaxOf(rights);
    var d :| 0 <= d < |bottoms| && bottoms[d] == MaxOf(bottoms);
    assert cluster[a].x == lefts[a];
    assert cluster[b].y == tops[b];
    assert Right(cluster[c]) == rights[c];
    assert Bottom(cluster[d]) == bottoms[d];
  }

  /** With a non-negative margin, every member, intersected with the canvas,
      lies inside the box emitted for its cluster. */
  lemma MemberInsideBox(cluster: seq<Region>, margin: int, width: int, height: int, i: int)
    requires |cluster| > 0 && 0 <= margin && 0 <= i < |cluster|
    ensures var r := AdjustedBox(cluster, margin, width, height);
      r.x <= Max(cluster[i].x, 0) && r.y <= Max(cluster[i].y, 0) &&
      Min(Right(cluster[i]), width) <= Right(r) && Min(Bottom(cluster[i]), height) <= Bottom(r)
  {
  }

  /** No guard rejects degenerate output: a canvas narrower than a member's
      left edge yields a box of negative width. */
  lemma DegenerateBoxIsEmitted()
    ensures AdjustedBox([Region(50, 50, 10, 10)], 0, 20, 100).width == -30
  {
    assert Lefts([Region(50, 50, 10, 10)]) == [50];
    assert Rights([Region(50, 50, 10, 10)]) == [60];
  }
}
