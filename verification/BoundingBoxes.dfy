/** The in-place bounding-box normaliser (apps/common/ai_service.py, _normalise_bboxes).

    Every arithmetic operation is rounded by `fl`: binary64 rounding is what the code
    computes with, the identity gives exact arithmetic.
 */
module BoundingBoxes {
  import opened Text
  import opened Binary64

  /** The least visible extent, as the rounding represents it. */
  function MinExtent(fl: real -> real): real {
    fl(0.06)
  }

  datatype Box = Box(xmin: real, ymin: real, xmax: real, ymax: real)

  /** An item's `image_bbox`: missing, None, not a dictionary, or a dictionary whose four
      values are numbers where `float` accepts them. */
  datatype BoxField =
    | Missing
    | NullBox
    | NotADict
    | Coordinates(xmin: Option<real>, ymin: Option<real>, xmax: Option<real>, ymax: Option<real>)

  datatype Item = Finding(bbox: BoxField, rest: string) | OtherItem(raw: string)

  function Numbers(f: BoxField): Option<Box> {
    match f
    case Coordinates(Some(a), Some(b), Some(c), Some(d)) => Some(Box(a, b, c, d))
    case _ => None
  }

  function FieldOf(b: Box): BoxField {
    Coordinates(Some(b.xmin), Some(b.ymin), Some(b.xmax), Some(b.ymax))
  }

  function Max(a: real, b: real): real {
    if a < b then b else a
  }

  function Min(a: real, b: real): real {
    if b < a then b else a
  }

  /** Any coordinate above 1 makes the whole box pixel coordinates. */
  predicate InPixels(b: Box) {
    b.xmin > 1.0 || b.ymin > 1.0 || b.xmax > 1.0 || b.ymax > 1.0
  }

  // ---------- specification, one axis at a time ----------

  /** A coordinate as a fraction of the image: pixels divided by the extent when known. */
  function Fraction(fl: real -> real, x: real, pixels: bool, extent: int): real {
    if pixels && extent > 0 then fl(x / extent as real) else x
  }

  function ClampUnit(x: real): real {
    Max(0.0, Min(1.0, x))
  }

  /** The ordered, clamped interval between two coordinates. */
  function Clamped(a: real, b: real): (real, real) {
    (ClampUnit(Min(a, b)), ClampUnit(Max(a, b)))
  }

  predicate Wide(fl: real -> real, edges: (real, real)) {
    fl(edges.1 - edges.0) >= MinExtent(fl)
  }

  function Centre(fl: real -> real, lo: real, hi: real): real {
    fl(fl(lo + hi) / 2.0)
  }

  function Half(fl: real -> real): real {
    fl(MinExtent(fl) / 2.0)
  }

  /** The least visible extent around the centre, as far as the image goes. */
  function Stretched(fl: real -> real, lo: real, hi: real): (real, real) {
    var c := Centre(fl, lo, hi);
    (Max(0.0, fl(c - Half(fl))), Min(1.0, fl(c + Half(fl))))
  }

  /** The strip at the image edge on the side of the centre. */
  function EdgeStrip(fl: real -> real, lo: real, hi: real): (real, real) {
    if Centre(fl, lo, hi) < 0.5 then (0.0, MinExtent(fl)) else (fl(1.0 - MinExtent(fl)), 1.0)
  }

  /** A sliver that is still too narrow once stretched is moved to the edge strip. */
  predicate MovesToEdge(fl: real -> real, lo: real, hi: real) {
    !Wide(fl, (lo, hi)) && !Wide(fl, Stretched(fl, lo, hi))
  }

  function Widened(fl: real -> real, lo: real, hi: real): (real, real) {
    if Wide(fl, (lo, hi)) then (lo, hi)
    else if Wide(fl, Stretched(fl, lo, hi)) then Stretched(fl, lo, hi)
    else EdgeStrip(fl, lo, hi)
  }

  /** The clamped original box: what the model reported, in image fractions. */
  function Original(fl: real -> real, b: Box, size: (int, int)): Box {
    var usable := InPixels(b) && size.0 > 0 && size.1 > 0;
    var x := Clamped(Fraction(fl, b.xmin, usable, size.0), Fraction(fl, b.xmax, usable, size.0));
    var y := Clamped(Fraction(fl, b.ymin, usable, size.1), Fraction(fl, b.ymax, usable, size.1));
    Box(x.0, y.0, x.1, y.1)
  }

  function Normalised(fl: real -> real, b: Box, size: (int, int)): Box {
    var o := Original(fl, b, size);
    var x, y := Widened(fl, o.xmin, o.xmax), Widened(fl, o.ymin, o.ymax);
    Box(x.0, y.0, x.1, y.1)
  }

  function NormalisedItem(fl: real -> real, item: Item, size: (int, int)): Item {
    match item
    case OtherItem(_) => item
    case Finding(bbox, rest) =>
      match Numbers(bbox)
      case None => Finding(NullBox, rest)
      case Some(b) => Finding(FieldOf(Normalised(fl, b, size)), rest)
  }

  predicate NeedsSize(item: Item) {
    item.Finding? && Numbers(item.bbox).Some? && InPixels(Numbers(item.bbox).value)
  }

  // ---------- the method ----------

  predicate AnyNeedsSize(items: seq<Item>) {
    exists i :: 0 <= i < |items| && NeedsSize(items[i])
  }

  /** `image` is the size the download would give, None when it fails; `lookups` counts
      the downloads made. */
  method NormaliseBoxes(fl: real -> real, items: array<Item>, image: Option<(int, int)>) returns (lookups: nat)
    modifies items
    ensures forall i :: 0 <= i < items.Length ==> items[i] == NormalisedItem(fl, old(items[i]), image.GetOr((0, 0)))
    ensures lookups == if AnyNeedsSize(old(items[..])) then 1 else 0
  {
    var size: Option<(int, int)> := None;
    lookups := 0;
    ghost var was := items[..];
    ghost var known := image.GetOr((0, 0));
    var i := 0;
    while i < items.Length
      invariant 0 <= i <= items.Length
      invariant forall j :: 0 <= j < i ==> items[j] == NormalisedItem(fl, was[j], known)
      invariant forall j :: i <= j < items.Length ==> items[j] == was[j]
      invariant size.Some? <==> AnyNeedsSize(was[..i])
      invariant size.Some? ==> size.value == known
      invariant lookups == if size.Some? then 1 else 0
    {
      assert was[..i + 1] == was[..i] + [was[i]];
      if NeedsSize(items[i]) && size.None? {
        size := Some(image.GetOr((0, 0)));
        lookups := lookups + 1;
      }
      assert AnyNeedsSize(was[..i + 1]) <==> AnyNeedsSize(was[..i]) || NeedsSize(was[i]) by {
        AnyNeedsSizeSplits(was[..i], was[i]);
      }
      items[i] := NormaliseItem(fl, items[i], size.GetOr((0, 0)), known);
      i := i + 1;
    }
    assert was[..i] == was;
  }

  lemma AnyNeedsSizeSplits(items: seq<Item>, last: Item)
    ensures AnyNeedsSize(items + [last]) <==> AnyNeedsSize(items) || NeedsSize(last)
  {
    if i :| 0 <= i < |items| && NeedsSize(items[i]) {
      assert NeedsSize((items + [last])[i]);
    }
    if NeedsSize(last) {
      assert NeedsSize((items + [last])[|items|]);
    }
  }

  /** The loop body: a box in fractions never looks at the size. */
  method NormaliseItem(fl: real -> real, item: Item, size: (int, int), ghost known: (int, int)) returns (r: Item)
    requires NeedsSize(item) ==> size == known
    ensures r == NormalisedItem(fl, item, known)
  {
    match item {
      case OtherItem(_) =>
        r := item;
      case Finding(bbox, rest) =>
        match Numbers(bbox) {
          case None =>
            r := Finding(NullBox, rest);
          case Some(b) =>
            var box := NormaliseBox(fl, b, size);
            assert Original(fl, b, size) == Original(fl, b, known);
            r := Finding(FieldOf(box), rest);
        }
    }
  }

  method WidenSliver(fl: real -> real, lo: real, hi: real) returns (min: real, max: real)
    ensures (min, max) == Widened(fl, lo, hi)
  {
    min, max := lo, hi;
    var extent := MinExtent(fl);
    if fl(max - min) < extent {
      var c := fl(fl(min + max) / 2.0);
      min := Max(0.0, fl(c - fl(extent / 2.0)));
      max := Min(1.0, fl(c + fl(extent / 2.0)));
      if fl(max - min) < extent {
        if c < 0.5 {
          min, max := 0.0, extent;
        } else {
          min, max := fl(1.0 - extent), 1.0;
        }
      }
    }
  }

  /** The loop body's arithmetic on one box, in the order the code performs it. */
  method NormaliseBox(fl: real -> real, b: Box, size: (int, int)) returns (r: Box)
    ensures r == Normalised(fl, b, size)
  {
    var xmin, ymin, xmax, ymax := b.xmin, b.ymin, b.xmax, b.ymax;
    if InPixels(b) && size.0 > 0 && size.1 > 0 {
      xmin, xmax := fl(xmin / size.0 as real), fl(xmax / size.0 as real);
      ymin, ymax := fl(ymin / size.1 as real), fl(ymax / size.1 as real);
    }
    if xmin > xmax {
      xmin, xmax := xmax, xmin;
    }
    if ymin > ymax {
      ymin, ymax := ymax, ymin;
    }
    xmin, xmax := Max(0.0, Min(1.0, xmin)), Max(0.0, Min(1.0, xmax));
    ymin, ymax := Max(0.0, Min(1.0, ymin)), Max(0.0, Min(1.0, ymax));
    assert (xmin, xmax) == (Original(fl, b, size).xmin, Original(fl, b, size).xmax);
    assert (ymin, ymax) == (Original(fl, b, size).ymin, Original(fl, b, size).ymax);
    xmin, xmax := WidenSliver(fl, xmin, xmax);
    ymin, ymax := WidenSliver(fl, ymin, ymax);
    r := Box(xmin, ymin, xmax, ymax);
  }

  // ---------- what a surviving box is ----------

  predicate InUnit(b: Box) {
    0.0 <= b.xmin <= b.xmax <= 1.0 && 0.0 <= b.ymin <= b.ymax <= 1.0
  }

  predicate Visible(fl: real -> real, b: Box) {
    Wide(fl, (b.xmin, b.xmax)) && Wide(fl, (b.ymin, b.ymax))
  }

  /** A rounding whose strip at the far edge is itself wide enough. */
  ghost predicate FitsEdge(fl: real -> real, unit: real) {
    IsRounding(fl, unit) && Wide(fl, (fl(1.0 - MinExtent(fl)), 1.0))
  }

  lemma ConstantsAreClose(fl: real -> real, unit: real)
    requires IsRounding(fl, unit)
    ensures 0.06 - unit <= MinExtent(fl) <= 0.06 + unit
    ensures 0.03 - 2.0 * unit <= Half(fl) <= 0.03 + 2.0 * unit
    ensures fl(MinExtent(fl)) == MinExtent(fl)
  {
    assert IsNear(fl, 0.06, unit) && IsNear(fl, MinExtent(fl) / 2.0, unit);
    assert RoundsOnce(fl, 0.06);
  }

  lemma CentreIsClose(fl: real -> real, unit: real, lo: real, hi: real)
    requires IsRounding(fl, unit) && 0.0 <= lo <= hi <= 1.0
    ensures 0.0 <= Centre(fl, lo, hi) <= 1.0
    ensures (lo + hi) / 2.0 - 2.0 * unit <= Centre(fl, lo, hi) <= (lo + hi) / 2.0 + 2.0 * unit
  {
    var sum := fl(lo + hi);
    assert KeepsOrder(fl, 0.0, lo + hi) && KeepsOrder(fl, lo + hi, 2.0);
    assert KeepsOrder(fl, 0.0, sum / 2.0) && KeepsOrder(fl, sum / 2.0, 1.0);
    assert IsNear(fl, lo + hi, unit) && IsNear(fl, sum / 2.0, unit);
  }

  lemma WidenedIsSound(fl: real -> real, unit: real, lo: real, hi: real)
    requires FitsEdge(fl, unit) && 0.0 <= lo <= hi <= 1.0
    ensures var w := Widened(fl, lo, hi); 0.0 <= w.0 <= w.1 <= 1.0 && Wide(fl, w)
  {
    ConstantsAreClose(fl, unit);
    CentreIsClose(fl, unit, lo, hi);
    var c := Centre(fl, lo, hi);
    var h, e := Half(fl), MinExtent(fl);
    assert KeepsOrder(fl, c - h, c + h) && KeepsOrder(fl, c - h, 1.0) && KeepsOrder(fl, 0.0, c + h);
    assert KeepsOrder(fl, 0.0, 1.0 - e) && KeepsOrder(fl, 1.0 - e, 1.0);
    assert e - 0.0 == e;
  }

  /** A normalised box lies in the image, is ordered and visible, whatever the rounding. */
  lemma SurvivingBoxIsSound(fl: real -> real, unit: real, b: Box, size: (int, int))
    requires FitsEdge(fl, unit)
    ensures InUnit(Original(fl, b, size))
    ensures InUnit(Normalised(fl, b, size)) && Visible(fl, Normalised(fl, b, size))
  {
    var o := Original(fl, b, size);
    WidenedIsSound(fl, unit, o.xmin, o.xmax);
    WidenedIsSound(fl, unit, o.ymin, o.ymax);
  }

  // ---------- where the original is enclosed ----------

  predicate Covers(w: (real, real), lo: real, hi: real, slack: real) {
    w.0 <= lo + slack && hi - slack <= w.1
  }

  /** The sliver lies in the strip it would be moved to. */
  predicate InEdgeStrip(fl: real -> real, lo: real, hi: real, slack: real) {
    if Centre(fl, lo, hi) < 0.5 then hi - slack <= MinExtent(fl) else fl(1.0 - MinExtent(fl)) <= lo + slack
  }

  lemma StretchedCovers(fl: real -> real, unit: real, lo: real, hi: real)
    requires IsRounding(fl, unit) && 0.0 <= lo <= hi <= 1.0
    requires !Wide(fl, (lo, hi))
    ensures Covers(Stretched(fl, lo, hi), lo, hi, 6.0 * unit)
  {
    ConstantsAreClose(fl, unit);
    CentreIsClose(fl, unit, lo, hi);
    assert KeepsOrder(fl, MinExtent(fl), hi - lo);
    var c := Centre(fl, lo, hi);
    assert IsNear(fl, c - Half(fl), unit) && IsNear(fl, c + Half(fl), unit);
  }

  /** Up to six rounding errors, the widened interval encloses the original exactly when
      the sliver is not moved to the edge, or lies in the strip it is moved to. */
  lemma WidenedCoversExactly(fl: real -> real, unit: real, lo: real, hi: real)
    requires FitsEdge(fl, unit) && 0.0 <= lo <= hi <= 1.0
    ensures Covers(Widened(fl, lo, hi), lo, hi, 6.0 * unit) <==>
      (MovesToEdge(fl, lo, hi) ==> InEdgeStrip(fl, lo, hi, 6.0 * unit))
  {
    if !Wide(fl, (lo, hi)) {
      StretchedCovers(fl, unit, lo, hi);
    }
  }

  predicate Encloses(outer: Box, inner: Box, slack: real) {
    && Covers((outer.xmin, outer.xmax), inner.xmin, inner.xmax, slack)
    && Covers((outer.ymin, outer.ymax), inner.ymin, inner.ymax, slack)
  }

  /** A normalised box encloses the clamped original, up to six rounding errors, exactly
      when on either axis the original is not moved to the edge or lies in that strip. */
  lemma BoxEnclosesExactly(fl: real -> real, unit: real, b: Box, size: (int, int))
    requires FitsEdge(fl, unit)
    ensures var o := Original(fl, b, size);
      Encloses(Normalised(fl, b, size), o, 6.0 * unit) <==>
        && (MovesToEdge(fl, o.xmin, o.xmax) ==> InEdgeStrip(fl, o.xmin, o.xmax, 6.0 * unit))
        && (MovesToEdge(fl, o.ymin, o.ymax) ==> InEdgeStrip(fl, o.ymin, o.ymax, 6.0 * unit))
  {
    var o := Original(fl, b, size);
    WidenedCoversExactly(fl, unit, o.xmin, o.xmax);
    WidenedCoversExactly(fl, unit, o.ymin, o.ymax);
  }

  /** In exact arithmetic only slivers at the edge are moved there. */
  lemma ExactMovesAtTheEdge(lo: real, hi: real)
    requires 0.0 <= lo <= hi <= 1.0
    ensures MovesToEdge(Exact, lo, hi) ==> InEdgeStrip(Exact, lo, hi, 0.0)
  {
    var c := Centre(Exact, lo, hi);
    assert c == (lo + hi) / 2.0 && Half(Exact) == 0.03 && MinExtent(Exact) == 0.06;
    assert Stretched(Exact, lo, hi) == (Max(0.0, c - 0.03), Min(1.0, c + 0.03));
  }

  /** So the original would always be enclosed. */
  lemma ExactBoxEncloses(b: Box, size: (int, int))
    ensures Encloses(Normalised(Exact, b, size), Original(Exact, b, size), 0.0)
  {
    ExactIsRounding();
    assert FitsEdge(Exact, 0.0);
    SurvivingBoxIsSound(Exact, 0.0, b, size);
    BoxEnclosesExactly(Exact, 0.0, b, size);
    var o := Original(Exact, b, size);
    ExactMovesAtTheEdge(o.xmin, o.xmax);
    ExactMovesAtTheEdge(o.ymin, o.ymax);
  }

  // ---------- binary64 ----------

  const EXTENT: real := 8646911284551352.0 / 144115188075855872.0
  const FAR_EDGE: real := 8466767299456532.0 / 9007199254740992.0

  lemma RoundedConstants()
    ensures MinExtent(Round) == EXTENT && Half(Round) == EXTENT / 2.0
    ensures Round(1.0 - MinExtent(Round)) == FAR_EDGE
    ensures FitsEdge(Round, HALF_UNIT)
  {
    RoundIsRounding();
    SmallScalings(0.06);
    RoundsTo(0.06, 5, 8646911284551352);
    SmallScalings(8646911284551352.0 / SCALE);
    SmallScalings(EXTENT / 2.0);
    RoundsTo(EXTENT / 2.0, 6, 8646911284551352);
    SmallScalings(1.0 - EXTENT);
    RoundsTo(1.0 - EXTENT, 1, 8466767299456532);
    SmallScalings(8466767299456532.0 / SCALE);
    SmallScalings(1.0 - FAR_EDGE);
    RoundsTo(1.0 - FAR_EDGE, 5, 8646911284551360);
    SmallScalings(8646911284551360.0 / SCALE);
  }

  const LEFT: real := 5224175567749775.0 / 18014398509481984.0
  const RIGHT: real := 5584463537939415.0 / 18014398509481984.0
  const MIDDLE: real := 5404319552844595.0 / 18014398509481984.0

  lemma RoundedSliver()
    ensures Round(0.29) == LEFT && Round(0.31) == RIGHT
    ensures Round(RIGHT - LEFT) == RIGHT - LEFT
    ensures Centre(Round, LEFT, RIGHT) == MIDDLE
  {
    SmallScalings(0.29);
    RoundsTo(0.29, 2, 5224175567749775);
    SmallScalings(5224175567749775.0 / SCALE);
    SmallScalings(0.31);
    RoundsTo(0.31, 2, 5584463537939415);
    SmallScalings(5584463537939415.0 / SCALE);
    SmallScalings(RIGHT - LEFT);
    RoundsTo(RIGHT - LEFT, 6, 5764607523034240);
    SmallScalings(5764607523034240.0 / SCALE);
    SmallScalings(LEFT + RIGHT);
    RoundsTo(LEFT + RIGHT, 1, 5404319552844595);
    SmallScalings(5404319552844595.0 / SCALE);
    SmallScalings(MIDDLE);
    RoundsTo(MIDDLE, 2, 5404319552844595);
  }

  lemma RoundedStretch()
    ensures Round(MIDDLE - EXTENT / 2.0) == 4863887597560136.0 / 18014398509481984.0
    ensures Round(MIDDLE + EXTENT / 2.0) == 5944751508129054.0 / 18014398509481984.0
    ensures Round(5944751508129054.0 / 18014398509481984.0 - 4863887597560136.0 / 18014398509481984.0) < EXTENT
  {
    SmallScalings(MIDDLE - EXTENT / 2.0);
    RoundsTo(MIDDLE - EXTENT / 2.0, 2, 4863887597560136);
    SmallScalings(4863887597560136.0 / SCALE);
    SmallScalings(MIDDLE + EXTENT / 2.0);
    RoundsTo(MIDDLE + EXTENT / 2.0, 2, 5944751508129054);
    SmallScalings(5944751508129054.0 / SCALE);
    var width := 5944751508129054.0 / 18014398509481984.0 - 4863887597560136.0 / 18014398509481984.0;
    SmallScalings(width);
    RoundsTo(width, 5, 8646911284551344);
    SmallScalings(8646911284551344.0 / SCALE);
  }

  /** In the code's own arithmetic a sliver from 0.29 to 0.31, nowhere near an edge, is
      stretched to an extent that rounds to less than 0.06 and so moved to the left edge,
      clear of what the model reported. */
  lemma InteriorSliverMovesToTheEdge()
    ensures var lo, hi := Round(0.29), Round(0.31);
      && MovesToEdge(Round, lo, hi)
      && Widened(Round, lo, hi) == (0.0, MinExtent(Round))
      && MinExtent(Round) < lo
  {
    RoundedConstants();
    RoundedSliver();
    RoundedStretch();
  }

  // ---------- normalising again ----------

  /** A box already ordered, inside the image and visible is left exactly as it is. */
  lemma SoundBoxIsUnchanged(fl: real -> real, b: Box, size: (int, int))
    requires InUnit(b) && Visible(fl, b)
    ensures Normalised(fl, b, size) == b && !InPixels(b)
  {}

  /** Normalising twice is normalising once, whatever image size the second pass would
      see, and the second pass looks nothing up. */
  lemma NormalisingTwiceIsOnce(fl: real -> real, unit: real, item: Item, first: (int, int), second: (int, int))
    requires FitsEdge(fl, unit)
    ensures NormalisedItem(fl, NormalisedItem(fl, item, first), second) == NormalisedItem(fl, item, first)
    ensures !NeedsSize(NormalisedItem(fl, item, first))
  {
    if item.Finding? && Numbers(item.bbox).Some? {
      var b := Numbers(item.bbox).value;
      SurvivingBoxIsSound(fl, unit, b, first);
      SoundBoxIsUnchanged(fl, Normalised(fl, b, first), second);
    }
  }

  /** Swapping a minimum with its maximum changes nothing. */
  lemma SwappedEdgesAreRepaired(fl: real -> real, b: Box, size: (int, int))
    ensures Normalised(fl, b.(xmin := b.xmax, xmax := b.xmin), size) == Normalised(fl, b, size)
    ensures Normalised(fl, b.(ymin := b.ymax, ymax := b.ymin), size) == Normalised(fl, b, size)
  {
    var usable := InPixels(b) && size.0 > 0 && size.1 > 0;
    ClampedIsSymmetric(Fraction(fl, b.xmin, usable, size.0), Fraction(fl, b.xmax, usable, size.0));
    ClampedIsSymmetric(Fraction(fl, b.ymin, usable, size.1), Fraction(fl, b.ymax, usable, size.1));
    assert Original(fl, b.(xmin := b.xmax, xmax := b.xmin), size) == Original(fl, b, size);
    assert Original(fl, b.(ymin := b.ymax, ymax := b.ymin), size) == Original(fl, b, size);
  }

  lemma ClampedIsSymmetric(a: real, b: real)
    ensures Clamped(a, b) == Clamped(b, a)
  {}

  /** A pixel box inside the image keeps its place: its corners become rounded fractions. */
  lemma PixelBoxBecomesFractions(fl: real -> real, unit: real, b: Box, w: int, h: int)
    requires IsRounding(fl, unit) && w > 0 && h > 0 && (b.xmax > 1.0 || b.ymax > 1.0)
    requires 0.0 <= b.xmin <= b.xmax <= w as real && 0.0 <= b.ymin <= b.ymax <= h as real
    ensures Original(fl, b, (w, h)) ==
      Box(fl(b.xmin / w as real), fl(b.ymin / h as real), fl(b.xmax / w as real), fl(b.ymax / h as real))
  {
    QuotientInUnit(fl, unit, b.xmin, b.xmax, w as real);
    QuotientInUnit(fl, unit, b.ymin, b.ymax, h as real);
  }

  lemma QuotientInUnit(fl: real -> real, unit: real, lo: real, hi: real, extent: real)
    requires IsRounding(fl, unit) && extent > 0.0 && 0.0 <= lo <= hi <= extent
    ensures 0.0 <= fl(lo / extent) <= fl(hi / extent) <= 1.0
  {
    ExactQuotientInUnit(lo, hi, extent);
    var a, b := lo / extent, hi / extent;
    assert KeepsOrder(fl, 0.0, a) && KeepsOrder(fl, a, b) && KeepsOrder(fl, b, 1.0);
  }

  lemma ExactQuotientInUnit(lo: real, hi: real, extent: real)
    requires extent > 0.0 && 0.0 <= lo <= hi <= extent
    ensures 0.0 <= lo / extent <= hi / extent <= 1.0
  {
    assert lo / extent * extent == lo && hi / extent * extent == hi;
  }

  /** A box none of whose coordinates exceeds 1 is taken as fractions, whatever the size of
      the image, and one that exceeds it is kept as it is when the size is unknown. */
  lemma FractionsAreKept(fl: real -> real, b: Box, size: (int, int))
    requires (b.xmin <= 1.0 && b.ymin <= 1.0 && b.xmax <= 1.0 && b.ymax <= 1.0) || size.0 <= 0 || size.1 <= 0
    ensures Original(fl, b, size) ==
      Box(ClampUnit(Min(b.xmin, b.xmax)), ClampUnit(Min(b.ymin, b.ymax)),
          ClampUnit(Max(b.xmin, b.xmax)), ClampUnit(Max(b.ymin, b.ymax)))
  {}

  /** Only a dictionary with four numbers keeps a box, the normal form of its own; any other
      finding ends with null, and what is not a dictionary stays as it is. */
  lemma ItemKeepsItsBox(fl: real -> real, bbox: BoxField, rest: string, raw: string, size: (int, int))
    ensures NormalisedItem(fl, OtherItem(raw), size) == OtherItem(raw)
    ensures bbox.Coordinates? && bbox.xmin.Some? && bbox.ymin.Some? && bbox.xmax.Some? && bbox.ymax.Some? ==>
      var n := Normalised(fl, Box(bbox.xmin.value, bbox.ymin.value, bbox.xmax.value, bbox.ymax.value), size);
      NormalisedItem(fl, Finding(bbox, rest), size) ==
        Finding(Coordinates(Some(n.xmin), Some(n.ymin), Some(n.xmax), Some(n.ymax)), rest)
    ensures !(bbox.Coordinates? && bbox.xmin.Some? && bbox.ymin.Some? && bbox.xmax.Some? && bbox.ymax.Some?) ==>
      NormalisedItem(fl, Finding(bbox, rest), size) == Finding(NullBox, rest)
  {}
}
