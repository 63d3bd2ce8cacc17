/**
 * Which pixels the one region sent for many damaged rectangles holds, and when
 * it is the least that will do. Arithmetic is 32 bit and saturates.
 */
module ClientDamage {
  import opened Basics

  const MIN := -0x8000_0000
  const MAX := 0x7FFF_FFFF

  type I32 = x: int | MIN <= x <= MAX

  /** One reported rectangle, in units of `scale` pixels for `Surface` and of one pixel for `Buffer`. */
  datatype Damage =
    | Surface(x: I32, y: I32, w: I32, h: I32)
    | Buffer(x: I32, y: I32, w: I32, h: I32)

  /** A box, up to its far edges. */
  datatype Box = Box(x: I32, y: I32, right: I32, bottom: I32)

  /** The pixels from (`x`, `y`) on, `width` across and `height` down. */
  datatype Region = Region(x: nat, y: nat, width: nat, height: nat)

  datatype Pixel = Pixel(x: int, y: int)

  function Saturated(x: int): I32 {
    if x < MIN then MIN else if x > MAX then MAX else x
  }

  function ScaleOf(d: Damage, scale: int): int {
    if d.Surface? then Max(scale, 1) else 1
  }

  /** The box of damage that has a size. */
  function BoxOf(d: Damage, scale: I32): Option<Box> {
    var s := ScaleOf(d, scale);
    var x, y, w, h := Saturated(d.x * s), Saturated(d.y * s), Saturated(d.w * s), Saturated(d.h * s);
    if w > 0 && h > 0 then Some(Box(x, y, Saturated(x + w), Saturated(y + h))) else None
  }

  function Boxes(damage: seq<Damage>, scale: I32): seq<Box> {
    if damage == [] then []
    else
      var box := BoxOf(damage[0], scale);
      (if box.Some? then [box.value] else []) + Boxes(damage[1..], scale)
  }

  function Around(a: Box, b: Box): Box {
    Box(Min(a.x, b.x), Min(a.y, b.y), Max(a.right, b.right), Max(a.bottom, b.bottom))
  }

  /** The box around `first` and `boxes`. */
  function Bounds(first: Box, boxes: seq<Box>): Box
    decreases |boxes|
  {
    if boxes == [] then first else Bounds(Around(first, boxes[0]), boxes[1..])
  }

  /** The part of a box on the buffer. Its subtractions stay in 32 bits. */
  function Clipped(box: Box): Region {
    var x, y := Max(box.x, 0), Max(box.y, 0);
    Region(x, y, Max(box.right - x, 0), Max(box.bottom - y, 0))
  }

  function BoundsOf(boxes: seq<Box>): (r: Option<Region>)
    ensures r.None? <==> boxes == []
  {
    if boxes == [] then None else Some(Clipped(Bounds(boxes[0], boxes[1..])))
  }

  function DamageBounds(damage: seq<Damage>, scale: I32): Option<Region> {
    BoundsOf(Boxes(damage, scale))
  }

  /** The damage of a surface, collected until it is taken. */
  class SurfaceDamage {
    var damage: seq<Damage>

    constructor ()
      ensures damage == []
    {
      damage := [];
    }

    /** Gives what `DamageBounds` says of all reports collected, and starts collecting anew. */
    method TakeDamage(scale: I32) returns (r: Option<Region>)
      modifies this
      ensures r == DamageBounds(old(damage), scale) && damage == []
    {
      var taken := damage;
      damage := [];
      r := DamageBounds(taken, scale);
    }
  }

  // What the bounds are.

  predicate In(p: Pixel, r: Region) {
    r.x <= p.x < r.x + r.width && r.y <= p.y < r.y + r.height
  }

  predicate InBox(p: Pixel, b: Box) {
    b.x <= p.x < b.right && b.y <= p.y < b.bottom
  }

  predicate Within(a: Box, b: Box) {
    b.x <= a.x && b.y <= a.y && a.right <= b.right && a.bottom <= b.bottom
  }

  /** Whether each edge of `box` is an edge of one of `boxes`. */
  predicate Touches(box: Box, boxes: seq<Box>) {
    && (exists i :: 0 <= i < |boxes| && boxes[i].x == box.x)
    && (exists i :: 0 <= i < |boxes| && boxes[i].y == box.y)
    && (exists i :: 0 <= i < |boxes| && boxes[i].right == box.right)
    && (exists i :: 0 <= i < |boxes| && boxes[i].bottom == box.bottom)
  }

  /** The bounds hold every box, and touch one at each edge. */
  lemma {:induction false} BoundsHold(boxes: seq<Box>)
    requires boxes != []
    ensures var b := Bounds(boxes[0], boxes[1..]);
            (forall i :: 0 <= i < |boxes| ==> Within(boxes[i], b)) && Touches(b, boxes)
    decreases |boxes|
  {
    if |boxes| > 1 {
      var rest := [Around(boxes[0], boxes[1])] + boxes[2..];
      var b := Bounds(boxes[0], boxes[1..]);
      assert rest[1..] == boxes[1..][1..];
      BoundsHold(rest);
      forall i | 0 <= i < |boxes| ensures Within(boxes[i], b) {
        assert Within(if i < 2 then rest[0] else rest[i - 1], b);
      }
      EdgeOf(boxes, rest, b);
    }
  }

  lemma EdgeOf(boxes: seq<Box>, rest: seq<Box>, b: Box)
    requires |boxes| > 1 && rest == [Around(boxes[0], boxes[1])] + boxes[2..] && Touches(b, rest)
    ensures Touches(b, boxes)
  {
    var i :| 0 <= i < |rest| && rest[i].x == b.x;
    var j :| 0 <= j < |rest| && rest[j].y == b.y;
    var k :| 0 <= k < |rest| && rest[k].right == b.right;
    var l :| 0 <= l < |rest| && rest[l].bottom == b.bottom;
    assert boxes[if i > 0 then i + 1 else if boxes[0].x <= boxes[1].x then 0 else 1].x == b.x;
    assert boxes[if j > 0 then j + 1 else if boxes[0].y <= boxes[1].y then 0 else 1].y == b.y;
    assert boxes[if k > 0 then k + 1 else if boxes[0].right >= boxes[1].right then 0 else 1].right == b.right;
    assert boxes[if l > 0 then l + 1 else if boxes[0].bottom >= boxes[1].bottom then 0 else 1].bottom == b.bottom;
  }

  /** The bounds depend on the set of boxes alone, not on how they are listed. */
  lemma BoundsOfSame(a: seq<Box>, b: seq<Box>)
    requires forall box :: box in a <==> box in b
    ensures BoundsOf(a) == BoundsOf(b)
  {
    HeadIn(a);
    HeadIn(b);
    if a != [] && b != [] {
      EdgesBeyond(a, b);
      EdgesBeyond(b, a);
    }
  }

  lemma EdgesBeyond(a: seq<Box>, b: seq<Box>)
    requires a != [] && b != [] && forall box :: box in a ==> box in b
    ensures Within(Bounds(a[0], a[1..]), Bounds(b[0], b[1..]))
  {
    var of, all := Bounds(a[0], a[1..]), Bounds(b[0], b[1..]);
    BoundsHold(a);
    BoundsHold(b);
    assert forall i :: 0 <= i < |a| ==> a[i] in b && Within(a[i], all);
  }

  lemma {:induction false} BoxesOf(damage: seq<Damage>, scale: I32, box: Box)
    ensures box in Boxes(damage, scale) <==> exists i :: 0 <= i < |damage| && BoxOf(damage[i], scale) == Some(box)
  {
    if damage != [] {
      BoxesOf(damage[1..], scale, box);
      assert forall i :: 0 <= i < |damage[1..]| ==> damage[1..][i] == damage[i + 1];
      assert forall i :: 0 < i < |damage| ==> damage[i] == damage[1..][i - 1];
    }
  }

  /** Damage reported in another order has the same bounds. */
  lemma OrderDoesNotMatter(a: seq<Damage>, b: seq<Damage>, scale: I32)
    requires multiset(a) == multiset(b)
    ensures DamageBounds(a, scale) == DamageBounds(b, scale)
  {
    forall box ensures box in Boxes(a, scale) <==> box in Boxes(b, scale) {
      BoxesOf(a, scale, box);
      BoxesOf(b, scale, box);
      forall i | 0 <= i < |a| ensures exists j :: 0 <= j < |b| && b[j] == a[i] {
        assert a[i] in multiset(b);
      }
      forall j | 0 <= j < |b| ensures exists i :: 0 <= i < |a| && a[i] == b[j] {
        assert b[j] in multiset(a);
      }
    }
    BoundsOfSame(Boxes(a, scale), Boxes(b, scale));
  }

  /** The subtractions that give a region its size stay in 32 bits. */
  lemma SizesDoNotOverflow(damage: seq<Damage>, scale: I32)
    requires Boxes(damage, scale) != []
    ensures var boxes := Boxes(damage, scale);
            var b := Bounds(boxes[0], boxes[1..]);
            MIN <= b.right - Max(b.x, 0) <= MAX && MIN <= b.bottom - Max(b.y, 0) <= MAX
  {
    var boxes := Boxes(damage, scale);
    BoundsHold(boxes);
    BoxesOf(damage, scale, boxes[0]);
    assert boxes[0].x <= boxes[0].right && boxes[0].y <= boxes[0].bottom;
  }

  // No reported pixel is missed.

  /** Whether a client reports `p`: numbers here are as large as they come. */
  predicate Reported(d: Damage, scale: I32, p: Pixel) {
    var s := ScaleOf(d, scale);
    d.x * s <= p.x < d.x * s + d.w * s && d.y * s <= p.y < d.y * s + d.h * s
  }

  /** One axis of a box: a position up to `bound` off the buffer, and a pixel not so near its far end. */
  lemma AxisHolds(at: int, size: int, p: int, bound: int)
    requires bound >= 0 && at <= p < at + size && -bound <= at && 0 <= p < MAX - bound
    ensures Saturated(size) > 0 && Saturated(at) <= p < Saturated(Saturated(at) + Saturated(size))
  {
  }

  /** The bounds hold every reported pixel of the buffer, but those so near the end of an axis that they are
      past where a huge size that starts off the buffer saturates. */
  lemma ReportedIsInside(damage: seq<Damage>, scale: I32, i: nat, p: Pixel, bound: int)
    requires bound >= 0 && i < |damage| && Reported(damage[i], scale, p)
    requires -bound <= damage[i].x * ScaleOf(damage[i], scale) && -bound <= damage[i].y * ScaleOf(damage[i], scale)
    requires 0 <= p.x < MAX - bound && 0 <= p.y < MAX - bound
    ensures DamageBounds(damage, scale).Some? && In(p, DamageBounds(damage, scale).value)
  {
    var d, s := damage[i], ScaleOf(damage[i], scale);
    AxisHolds(d.x * s, d.w * s, p.x, bound);
    AxisHolds(d.y * s, d.h * s, p.y, bound);
    var box, boxes := BoxOf(d, scale).value, Boxes(damage, scale);
    BoxesOf(damage, scale, box);
    var k :| 0 <= k < |boxes| && boxes[k] == box;
    BoundsHold(boxes);
  }

  // The least bounds.

  /** Whether nothing saturates, so that the box is what was reported. */
  predicate Fits(d: Damage, scale: I32) {
    var s := ScaleOf(d, scale);
    var x, y, w, h := d.x * s, d.y * s, d.w * s, d.h * s;
    && MIN <= x <= MAX && MIN <= y <= MAX && w <= MAX && h <= MAX
    && x + w <= MAX && y + h <= MAX
  }

  predicate HasSize(box: Box) {
    box.x < box.right && box.y < box.bottom
  }

  lemma FitsAsReported(d: Damage, scale: I32, p: Pixel)
    requires Fits(d, scale)
    ensures Reported(d, scale, p) <==> BoxOf(d, scale).Some? && InBox(p, BoxOf(d, scale).value)
    ensures BoxOf(d, scale).Some? ==> HasSize(BoxOf(d, scale).value)
  {
    hide ScaleOf;
    AxisFits(d.x * ScaleOf(d, scale), d.w * ScaleOf(d, scale));
    AxisFits(d.y * ScaleOf(d, scale), d.h * ScaleOf(d, scale));
  }

  lemma AxisFits(at: int, size: int)
    requires MIN <= at <= MAX && size <= MAX && at + size <= MAX
    ensures Saturated(at) == at && (size > 0 <==> Saturated(size) > 0)
    ensures size > 0 ==> Saturated(size) == size && Saturated(at + size) == at + size
  {
  }

  /** Whether a box has pixels on the buffer. */
  predicate OnBuffer(box: Box) {
    box.right > 0 && box.bottom > 0
  }

  ghost predicate Holds(r: Region, boxes: seq<Box>) {
    forall i, p :: 0 <= i < |boxes| && InBox(p, boxes[i]) && p.x >= 0 && p.y >= 0 ==> In(p, r)
  }

  ghost predicate Inside(a: Region, b: Region) {
    forall p :: In(p, a) ==> In(p, b)
  }

  /** Whether `r` holds each pixel of `boxes` on the buffer, and no region that does has less. */
  ghost predicate IsLeast(r: Region, boxes: seq<Box>) {
    Holds(r, boxes) && forall other :: Holds(other, boxes) ==> Inside(r, other)
  }

  lemma BoundsHoldPixels(boxes: seq<Box>)
    requires boxes != []
    ensures Holds(BoundsOf(boxes).value, boxes)
  {
    BoundsHold(boxes);
  }

  lemma CornersHeld(boxes: seq<Box>, other: Region, i: nat)
    requires i < |boxes| && HasSize(boxes[i]) && OnBuffer(boxes[i]) && Holds(other, boxes)
    ensures other.x <= Max(boxes[i].x, 0) && boxes[i].right <= other.x + other.width
    ensures other.y <= Max(boxes[i].y, 0) && boxes[i].bottom <= other.y + other.height
  {
    var b := boxes[i];
    var near, far := Pixel(Max(b.x, 0), Max(b.y, 0)), Pixel(b.right - 1, b.bottom - 1);
    assert InBox(near, b) && InBox(far, b);
    assert In(near, other) && In(far, other);
  }

  predicate NoneAsFarLeft(boxes: seq<Box>, b: Box) {
    forall i :: 0 <= i < |boxes| && OnBuffer(boxes[i]) ==> Max(boxes[i].x, 0) > Max(b.x, 0)
  }

  predicate NoneAsFarUp(boxes: seq<Box>, b: Box) {
    forall i :: 0 <= i < |boxes| && OnBuffer(boxes[i]) ==> Max(boxes[i].y, 0) > Max(b.y, 0)
  }

  predicate NoneAsFarRight(boxes: seq<Box>, b: Box) {
    forall i :: 0 <= i < |boxes| && OnBuffer(boxes[i]) ==> boxes[i].right < b.right
  }

  predicate NoneAsFarDown(boxes: seq<Box>, b: Box) {
    forall i :: 0 <= i < |boxes| && OnBuffer(boxes[i]) ==> boxes[i].bottom < b.bottom
  }

  /** Whether boxes on the buffer go as far each way as the part of `b` that is clipped to it. */
  predicate IsReached(boxes: seq<Box>, b: Box) {
    !NoneAsFarLeft(boxes, b) && !NoneAsFarUp(boxes, b) && !NoneAsFarRight(boxes, b) && !NoneAsFarDown(boxes, b)
  }

  /** Whether no box goes further than those on the buffer, or, with none on it, all are off the same side. */
  predicate NoneSticksOut(boxes: seq<Box>) {
    if exists i :: 0 <= i < |boxes| && OnBuffer(boxes[i]) then
      forall k :: 0 <= k < |boxes| ==> IsReached(boxes, boxes[k])
    else
      (forall k :: 0 <= k < |boxes| ==> boxes[k].right <= 0) || (forall k :: 0 <= k < |boxes| ==> boxes[k].bottom <= 0)
  }

  /** A region that holds the pixels of all boxes goes as far as a box that is reached. */
  lemma ReachedIsHeld(boxes: seq<Box>, b: Box, other: Region)
    requires (forall i :: 0 <= i < |boxes| ==> HasSize(boxes[i])) && IsReached(boxes, b) && Holds(other, boxes)
    ensures other.x <= Max(b.x, 0) && b.right <= other.x + other.width
    ensures other.y <= Max(b.y, 0) && b.bottom <= other.y + other.height
  {
    hide Holds;
    var i :| 0 <= i < |boxes| && OnBuffer(boxes[i]) && Max(boxes[i].x, 0) <= Max(b.x, 0);
    var j :| 0 <= j < |boxes| && OnBuffer(boxes[j]) && Max(boxes[j].y, 0) <= Max(b.y, 0);
    var k :| 0 <= k < |boxes| && OnBuffer(boxes[k]) && b.right <= boxes[k].right;
    var l :| 0 <= l < |boxes| && OnBuffer(boxes[l]) && b.bottom <= boxes[l].bottom;
    CornersHeld(boxes, other, i);
    CornersHeld(boxes, other, j);
    CornersHeld(boxes, other, k);
    CornersHeld(boxes, other, l);
  }

  lemma LeastWhenReached(boxes: seq<Box>, other: Region)
    requires boxes != [] && forall i :: 0 <= i < |boxes| ==> HasSize(boxes[i])
    requires forall k :: 0 <= k < |boxes| ==> IsReached(boxes, boxes[k])
    requires Holds(other, boxes)
    ensures Inside(BoundsOf(boxes).value, other)
  {
    hide Holds, IsReached, Bounds;
    BoundsHold(boxes);
    var b := Bounds(boxes[0], boxes[1..]);
    var i :| 0 <= i < |boxes| && boxes[i].x == b.x;
    var j :| 0 <= j < |boxes| && boxes[j].y == b.y;
    var k :| 0 <= k < |boxes| && boxes[k].right == b.right;
    var l :| 0 <= l < |boxes| && boxes[l].bottom == b.bottom;
    ReachedIsHeld(boxes, boxes[i], other);
    ReachedIsHeld(boxes, boxes[j], other);
    ReachedIsHeld(boxes, boxes[k], other);
    ReachedIsHeld(boxes, boxes[l], other);
  }

  /** Whether `other` holds what `boxes` have on the buffer without a pixel of the bounds. */
  ghost predicate LeavesOut(boxes: seq<Box>, other: Region)
    requires boxes != []
  {
    Holds(other, boxes) && !Inside(BoundsOf(boxes).value, other)
  }

  lemma StillOneSide(boxes: seq<Box>, b: Box)
    requires !IsReached(boxes, b)
    ensures NoneAsFarLeft(boxes, b) || NoneAsFarUp(boxes, b) || NoneAsFarRight(boxes, b) || NoneAsFarDown(boxes, b)
  {
  }

  /** Where a box goes further than those on the buffer, a line of pixels can be left out. */
  lemma LineLeftOut(boxes: seq<Box>, b: Box, on: nat) returns (other: Region)
    requires b in boxes && !IsReached(boxes, b) && on < |boxes| && OnBuffer(boxes[on])
    requires forall i :: 0 <= i < |boxes| ==> HasSize(boxes[i])
    ensures LeavesOut(boxes, other)
  {
    hide IsReached, Bounds;
    BoundsHold(boxes);
    var r, all := BoundsOf(boxes).value, Bounds(boxes[0], boxes[1..]);
    assert Within(boxes[on], all) && Within(b, all);
    if NoneAsFarLeft(boxes, b) {
      other := Region(r.x + 1, r.y, r.width - 1, r.height);
      assert In(Pixel(r.x, r.y), r) && !In(Pixel(r.x, r.y), other);
    } else if NoneAsFarUp(boxes, b) {
      other := Region(r.x, r.y + 1, r.width, r.height - 1);
      assert In(Pixel(r.x, r.y), r) && !In(Pixel(r.x, r.y), other);
    } else if NoneAsFarRight(boxes, b) {
      other := Region(r.x, r.y, r.width - 1, r.height);
      var p := Pixel(r.x + r.width - 1, r.y);
      assert In(p, r) && !In(p, other);
    } else {
      assert NoneAsFarDown(boxes, b) by {
        StillOneSide(boxes, b);
      }
      other := Region(r.x, r.y, r.width, r.height - 1);
      var p := Pixel(r.x, r.y + r.height - 1);
      assert In(p, r) && !In(p, other);
    }
  }

  lemma LeastWithNoneOnBuffer(boxes: seq<Box>)
    requires boxes != [] && forall i :: 0 <= i < |boxes| ==> HasSize(boxes[i]) && !OnBuffer(boxes[i])
    ensures IsLeast(BoundsOf(boxes).value, boxes) <==> NoneSticksOut(boxes)
  {
    BoundsHold(boxes);
    BoundsHoldPixels(boxes);
    var r, b, nothing := BoundsOf(boxes).value, Bounds(boxes[0], boxes[1..]), Region(0, 0, 0, 0);
    assert Within(boxes[0], b);
    assert Holds(nothing, boxes);
    if IsLeast(r, boxes) {
      assert Inside(r, nothing);
      assert !In(Pixel(r.x, r.y), nothing);
    }
  }

  /** The bounds of boxes are the least that hold their pixels on the buffer exactly when no box sticks out. */
  lemma LeastBoundsExactly(boxes: seq<Box>)
    requires boxes != [] && forall i :: 0 <= i < |boxes| ==> HasSize(boxes[i])
    ensures IsLeast(BoundsOf(boxes).value, boxes) <==> NoneSticksOut(boxes)
  {
    hide BoundsOf, IsReached, Holds;
    if forall i :: 0 <= i < |boxes| ==> !OnBuffer(boxes[i]) {
      LeastWithNoneOnBuffer(boxes);
    } else if k :| 0 <= k < |boxes| && !IsReached(boxes, boxes[k]) {
      var on :| 0 <= on < |boxes| && OnBuffer(boxes[on]);
      var other := LineLeftOut(boxes, boxes[k], on);
    } else {
      BoundsHoldPixels(boxes);
      forall other | Holds(other, boxes) ensures Inside(BoundsOf(boxes).value, other) {
        LeastWhenReached(boxes, other);
      }
    }
  }

  /** When every box has pixels on the buffer, the bounds are the least that hold them. */
  lemma LeastWhenAllOnBuffer(boxes: seq<Box>)
    requires boxes != [] && forall i :: 0 <= i < |boxes| ==> HasSize(boxes[i]) && OnBuffer(boxes[i])
    ensures IsLeast(BoundsOf(boxes).value, boxes)
  {
    hide BoundsOf, IsLeast, IsReached;
    forall k | 0 <= k < |boxes| ensures IsReached(boxes, boxes[k]) {
      ReachesItself(boxes, k);
    }
    LeastBoundsExactly(boxes);
  }

  lemma ReachesItself(boxes: seq<Box>, k: nat)
    requires k < |boxes| && OnBuffer(boxes[k])
    ensures IsReached(boxes, boxes[k])
  {
  }

  /** When nothing saturates, the boxes hold the pixels reported, so the least bounds are the least for those. */
  lemma BoxesAreReported(damage: seq<Damage>, scale: I32, p: Pixel)
    requires forall i :: 0 <= i < |damage| ==> Fits(damage[i], scale)
    ensures (exists i :: 0 <= i < |damage| && Reported(damage[i], scale, p))
       <==> exists box :: box in Boxes(damage, scale) && InBox(p, box)
    ensures forall box :: box in Boxes(damage, scale) ==> HasSize(box)
  {
    hide Fits, Reported, BoxOf;
    forall i | 0 <= i < |damage|
      ensures Reported(damage[i], scale, p) <==>
                BoxOf(damage[i], scale).Some? && InBox(p, BoxOf(damage[i], scale).value)
      ensures BoxOf(damage[i], scale).Some? ==> HasSize(BoxOf(damage[i], scale).value)
    {
      FitsAsReported(damage[i], scale, p);
    }
    forall box
      ensures box in Boxes(damage, scale) <==> exists i :: 0 <= i < |damage| && BoxOf(damage[i], scale) == Some(box)
    {
      BoxesOf(damage, scale, box);
    }
  }

  ghost predicate HoldsReported(r: Region, damage: seq<Damage>, scale: I32) {
    forall i, p :: 0 <= i < |damage| && Reported(damage[i], scale, p) && p.x >= 0 && p.y >= 0 ==> In(p, r)
  }

  /** Whether `r` holds each reported pixel on the buffer, and no region that does has less. */
  ghost predicate IsLeastReported(r: Region, damage: seq<Damage>, scale: I32) {
    HoldsReported(r, damage, scale) && forall other :: HoldsReported(other, damage, scale) ==> Inside(r, other)
  }

  lemma HoldsAsReported(r: Region, damage: seq<Damage>, scale: I32)
    requires forall i :: 0 <= i < |damage| ==> Fits(damage[i], scale)
    ensures HoldsReported(r, damage, scale) <==> Holds(r, Boxes(damage, scale))
  {
    hide Fits, Reported, Boxes;
    var boxes := Boxes(damage, scale);
    if HoldsReported(r, damage, scale) {
      forall k, p | 0 <= k < |boxes| && InBox(p, boxes[k]) && p.x >= 0 && p.y >= 0 ensures In(p, r) {
        BoxesAreReported(damage, scale, p);
        assert boxes[k] in boxes;
      }
    }
    if Holds(r, boxes) {
      forall i, p | 0 <= i < |damage| && Reported(damage[i], scale, p) && p.x >= 0 && p.y >= 0 ensures In(p, r) {
        BoxesAreReported(damage, scale, p);
        var box :| box in boxes && InBox(p, box);
        var k :| 0 <= k < |boxes| && boxes[k] == box;
      }
    }
  }

  /** When nothing saturates, there are no bounds exactly when nothing with a size was reported, and the bounds
      are the least that hold each reported pixel on the buffer exactly when no rectangle sticks out. */
  lemma LeastExactly(damage: seq<Damage>, scale: I32)
    requires forall i :: 0 <= i < |damage| ==> Fits(damage[i], scale)
    ensures DamageBounds(damage, scale).None? <==>
              forall i :: 0 <= i < |damage| ==> damage[i].w <= 0 || damage[i].h <= 0
    ensures DamageBounds(damage, scale).Some? ==>
              (IsLeastReported(DamageBounds(damage, scale).value, damage, scale)
               <==> NoneSticksOut(Boxes(damage, scale)))
  {
    var boxes := Boxes(damage, scale);
    NoBoxes(damage, scale);
    if boxes != [] {
      hide Boxes, Fits, NoneSticksOut;
      BoxesAreReported(damage, scale, Pixel(0, 0));
      assert forall k :: 0 <= k < |boxes| ==> boxes[k] in boxes;
      LeastBoundsExactly(boxes);
      forall r ensures HoldsReported(r, damage, scale) <==> Holds(r, boxes) {
        HoldsAsReported(r, damage, scale);
      }
    }
  }

  lemma {:induction false} NoBoxes(damage: seq<Damage>, scale: I32)
    ensures Boxes(damage, scale) == [] <==> forall i :: 0 <= i < |damage| ==> damage[i].w <= 0 || damage[i].h <= 0
  {
    if damage != [] {
      NoBoxes(damage[1..], scale);
      assert forall i :: 0 < i < |damage| ==> damage[i] == damage[1..][i - 1];
      assert forall i :: 0 <= i < |damage[1..]| ==> damage[1..][i] == damage[i + 1];
      SizeScaled(damage[0].w, ScaleOf(damage[0], scale));
      SizeScaled(damage[0].h, ScaleOf(damage[0], scale));
    }
  }

  lemma SizeScaled(size: int, scale: int)
    requires scale >= 1
    ensures Saturated(size * scale) > 0 <==> size > 0
  {
    if size > 0 {
      assert size * scale >= 1 * scale;
    } else {
      assert size * scale <= 0;
    }
  }

  /** A box off the buffer can make the bounds larger than the pixels reported. */
  lemma OffBufferCounts()
    ensures !IsLeast(DamageBounds([Buffer(-10, 0, 5, 5), Buffer(10, 0, 5, 5)], 1).value,
                     Boxes([Buffer(-10, 0, 5, 5), Buffer(10, 0, 5, 5)], 1))
  {
    var off, on := Box(-10, 0, -5, 5), Box(10, 0, 15, 5);
    var damage := [Buffer(-10, 0, 5, 5), Buffer(10, 0, 5, 5)];
    assert damage[1..][1..] == [];
    assert Boxes(damage[1..], 1) == [on];
    assert Boxes(damage, 1) == [off, on];
    assert Bounds(off, [on]) == Bounds(Around(off, on), []) == Box(-10, 0, 15, 5);
    assert Holds(Region(10, 0, 5, 5), [off, on]);
    assert In(Pixel(0, 0), Region(0, 0, 15, 5)) && !In(Pixel(0, 0), Region(10, 0, 5, 5));
  }
}
