/** backend/side_view_processing.py: body depths at the hip, waist and bust
    lines of a side photograph, read off a foreground mask row by row, and
    Ramanujan's ellipse perimeter that turns a width and a depth into a
    circumference.  The OpenCV segmentation of each region of interest is
    foreign code: its resulting mask is an input of the model. */
module SideView {
  import opened Common

  /** The three measurement lines, in the order the source visits them. */
  datatype Level = Hip | Waist | Bust {
    /** The key the level's depth is stored under. */
    function Key(): string {
      match this
      case Hip => "hip_depth_px"
      case Waist => "waist_depth_px"
      case Bust => "bust_depth_px"
    }

    /** Share of the image width used when the level cannot be measured. */
    function DefaultShare(): real {
      match this
      case Hip => 0.15
      case Waist => 0.12
      case Bust => 0.14
    }

    /** Largest plausible depth, as a share of the image width. */
    function CapShare(): real {
      match this
      case Hip => 0.5
      case Bust => 0.4
      case Waist => 0.35
    }
  }

  /** Smallest plausible depth, as a share of the image width. */
  const MinShare: real := 0.05

  /** Half the height of the band of rows segmented around a level. */
  const RoiHalf: int := 15

  const Levels: seq<Level> := [Hip, Waist, Bust]

  /** The pixel rows of the three levels. */
  datatype LevelRows = LevelRows(hip: int, waist: int, bust: int) {
    function For(lv: Level): int {
      match lv
      case Hip => hip
      case Waist => waist
      case Bust => bust
    }
  }

  /** Rows from the side-view hip and shoulder heights: the waist sits
      `waistOffset` of the torso above the hip, the bust a quarter of the
      torso below the shoulder; each is truncated like Python's `int`. */
  function Rows(hipY: real, shoulderY: real, waistOffset: real): LevelRows {
    LevelRows(Trunc(hipY),
              Trunc(hipY - (hipY - shoulderY) * waistOffset),
              Trunc(shoulderY + (hipY - shoulderY) * 0.25))
  }

  lemma TruncMonotone()
    ensures forall u: real, v: real :: u <= v ==> Trunc(u) <= Trunc(v)
  {
  }

  /** The unrounded rows run top to bottom when the shoulder is above the
      hip and the waist offset is at most three quarters. */
  lemma TorsoOrder(s: real, h: real, off: real)
    requires s <= h && 0.0 <= off <= 0.75
    ensures s <= s + (h - s) * 0.25 <= h - (h - s) * off <= h
  {
    MulLeft(h - s, 0.0, off);
    MulLeft(h - s, off, 0.75);
  }

  /** With the shoulder above the hip (image rows grow downwards) and any
      waist offset up to three quarters, the lines run top to bottom:
      shoulder, bust, waist, hip. */
  lemma RowsTopToBottom(hipY: real, shoulderY: real, waistOffset: real)
    requires shoulderY <= hipY && 0.0 <= waistOffset <= 0.75
    ensures Trunc(shoulderY) <= Rows(hipY, shoulderY, waistOffset).bust
    ensures Rows(hipY, shoulderY, waistOffset).bust <= Rows(hipY, shoulderY, waistOffset).waist
    ensures Rows(hipY, shoulderY, waistOffset).waist <= Rows(hipY, shoulderY, waistOffset).hip
  {
    TorsoOrder(shoulderY, hipY, waistOffset);
    TruncMonotone();
  }

  /** First row of the segmented band, `max(0, y - 15)`. */
  function RoiStart(y: int): int {
    if 0 < y - RoiHalf then y - RoiHalf else 0
  }

  /** One past the last row of the band, `min(height, y + 15)`. */
  function RoiEnd(y: int, height: int): int {
    if height < y + RoiHalf then height else y + RoiHalf
  }

  /** For a row inside the image the band lies inside the image, holds at
      most 30 rows, and the level's own row is one of them, at most 15 rows
      from its top. */
  lemma BandHoldsLevelRow(y: int, height: int)
    requires 0 <= y < height
    ensures 0 <= RoiStart(y) <= y < RoiEnd(y, height) <= height
    ensures 0 <= y - RoiStart(y) <= RoiHalf
    ensures RoiEnd(y, height) - RoiStart(y) <= 2 * RoiHalf
  {
  }

  /** Row `r` of a mask, as a sequence. */
  function Row(m: array2<int>, r: nat): (row: seq<int>)
    requires r < m.Length0
    reads m
    ensures |row| == m.Length1
    ensures forall j :: 0 <= j < |row| ==> row[j] == m[r, j]
  {
    seq(m.Length1, j requires 0 <= j < m.Length1 reads m => m[r, j])
  }

  /** The column indices of the foreground pixels of a row, ascending:
      numpy's `np.where(row > 0)[0]`. */
  function NonZero(row: seq<int>): (ix: seq<nat>)
    ensures forall k :: 0 <= k < |ix| ==> ix[k] < |row| && row[ix[k]] > 0
    ensures forall a, b :: 0 <= a < b < |ix| ==> ix[a] < ix[b]
  {
    if |row| == 0 then []
    else
      var front := NonZero(row[..|row| - 1]);
      front + (if row[|row| - 1] > 0 then [|row| - 1] else [])
  }

  /** No foreground column is missed. */
  lemma {:induction false} NonZeroComplete(row: seq<int>)
    ensures forall j :: 0 <= j < |row| && row[j] > 0 ==> j in NonZero(row)
  {
    if |row| != 0 {
      var front := row[..|row| - 1];
      NonZeroComplete(front);
      forall j | 0 <= j < |row| && row[j] > 0
        ensures j in NonZero(row)
      {
        if j < |row| - 1 {
          assert front[j] == row[j];
          assert j in NonZero(front);
        }
      }
    }
  }

  /** The leftmost and rightmost foreground columns, if there are any. */
  function Extent(row: seq<int>): Option<(nat, nat)> {
    var ix := NonZero(row);
    if |ix| == 0 then None else Some((ix[0], ix[|ix| - 1]))
  }

  /** The extent is exactly the span from the first to the last
      foreground pixel: both ends are foreground, nothing outside them is,
      and there is no extent only when the row has no foreground at all. */
  lemma ExtentMeaning(row: seq<int>)
    ensures Extent(row).None? <==> forall j :: 0 <= j < |row| ==> row[j] <= 0
    ensures Extent(row).Some? ==>
              var (l, r) := Extent(row).value;
              && l <= r < |row| && row[l] > 0 && row[r] > 0
              && (forall j :: 0 <= j < l ==> row[j] <= 0)
              && (forall j :: r < j < |row| ==> row[j] <= 0)
  {
    var ix := NonZero(row);
    NonZeroComplete(row);
    if |ix| != 0 {
      SortedEnds(ix);
    }
  }

  /** In an ascending list every element lies between the first and the last. */
  lemma SortedEnds(ix: seq<nat>)
    requires |ix| != 0
    requires forall a, b :: 0 <= a < b < |ix| ==> ix[a] < ix[b]
    ensures forall j :: j in ix ==> ix[0] <= j <= ix[|ix| - 1]
  {
    forall j | j in ix
      ensures ix[0] <= j <= ix[|ix| - 1]
    {
      var k :| 0 <= k < |ix| && ix[k] == j;
      if 0 < k { assert ix[0] < ix[k]; }
      if k < |ix| - 1 { assert ix[k] < ix[|ix| - 1]; }
    }
  }

  /** One more column extends the index list by that column exactly when
      it is foreground. */
  lemma NonZeroSnoc(row: seq<int>, j: nat)
    requires j < |row|
    ensures NonZero(row[..j + 1]) == NonZero(row[..j]) + (if row[j] > 0 then [j] else [])
  {
    assert row[..j + 1][..j] == row[..j];
  }

  /** Scans row `r` of the mask once, collecting the foreground columns,
      and returns the first and the last of them. */
  method FindExtent(m: array2<int>, r: nat) returns (e: Option<(nat, nat)>)
    requires r < m.Length0
    ensures e == Extent(Row(m, r))
  {
    ghost var row := Row(m, r);
    var ix: seq<nat> := [];
    var j := 0;
    while j < m.Length1
      invariant 0 <= j <= m.Length1
      invariant ix == NonZero(row[..j])
    {
      NonZeroSnoc(row, j);
      assert row[j] == m[r, j];
      if m[r, j] > 0 {
        ix := ix + [j];
      }
      j := j + 1;
    }
    assert row[..m.Length1] == row;
    assert ix == NonZero(row);
    if |ix| == 0 {
      e := None;
    } else {
      e := Some((ix[0], ix[|ix| - 1]));
    }
  }

  /** The plausibility clamp: raise to `lo`, else lower to `hi`. */
  function Clamp(depth: real, lo: real, hi: real): real {
    if depth < lo then lo else if depth > hi then hi else depth
  }

  /** With `lo <= hi` the clamped depth lies in `[lo, hi]`, a depth already
      there is unchanged, and so clamping twice is clamping once. */
  lemma ClampProperties(depth: real, lo: real, hi: real)
    requires lo <= hi
    ensures lo <= Clamp(depth, lo, hi) <= hi
    ensures lo <= depth <= hi ==> Clamp(depth, lo, hi) == depth
    ensures Clamp(Clamp(depth, lo, hi), lo, hi) == Clamp(depth, lo, hi)
    ensures depth < lo ==> Clamp(depth, lo, hi) == lo
    ensures hi < depth ==> Clamp(depth, lo, hi) == hi
  {
  }

  /** The masks the segmentation produced for the three bands; `None`
      when it found no contour. */
  datatype Masks = Masks(hip: Option<array2<int>>, waist: Option<array2<int>>, bust: Option<array2<int>>) {
    function For(lv: Level): Option<array2<int>> {
      match lv
      case Hip => hip
      case Waist => waist
      case Bust => bust
    }

    function Objects(): set<object> {
      (if hip.Some? then {hip.value} else {})
      + (if waist.Some? then {waist.value} else {})
      + (if bust.Some? then {bust.value} else {})
    }
  }

  /** A mask covers the band it was computed from. */
  predicate FitsBand(m: array2<int>, y: int, height: int) {
    m.Length0 == RoiEnd(y, height) - RoiStart(y)
  }

  /** The measured depth at one level, or `None` when the level keeps its
      default: its row lies outside the image, no contour was found, the
      row falls outside the mask, or the row has no foreground. */
  function LevelDepth(lv: Level, y: int, width: nat, height: int, mask: Option<array2<int>>): (d: Option<real>)
    reads if mask.Some? then {mask.value} else {}
  {
    if !(0 <= y < height) || mask.None? then None
    else
      var center := y - RoiStart(y);
      if !(0 <= center < mask.value.Length0) then None
      else RowDepth(lv, width, Row(mask.value, center))
  }

  /** The clamped depth of the foreground of one mask row, if it has any. */
  function RowDepth(lv: Level, width: nat, row: seq<int>): Option<real> {
    match Extent(row)
    case None => None
    case Some((l, r)) => Some(Clamp((r - l) as real, width as real * MinShare, width as real * lv.CapShare()))
  }

  /** A measured depth lies between 5% of the width and the level's cap. */
  lemma LevelDepthInRange(lv: Level, y: int, width: nat, height: int, mask: Option<array2<int>>)
    requires LevelDepth(lv, y, width, height, mask).Some?
    ensures var d := LevelDepth(lv, y, width, height, mask).value;
            width as real * MinShare <= d <= width as real * lv.CapShare()
  {
    MulLeft(width as real, MinShare, lv.CapShare());
  }

  /** When the mask covers its band, only an out-of-image row, a missing
      contour or an empty row leave the default: the row check inside the
      mask always passes. */
  lemma LevelDepthWithFittingMask(lv: Level, y: int, width: nat, height: int, m: array2<int>)
    requires 0 <= y < height && FitsBand(m, y, height)
    ensures LevelDepth(lv, y, width, height, Some(m)).None?
            <==> Extent(Row(m, y - RoiStart(y))).None?
  {
    BandHoldsLevelRow(y, height);
  }

  /** The depth stored for a level: measured, or the level's default. */
  function StoredDepth(lv: Level, rows: LevelRows, width: nat, height: int, masks: Masks): real
    reads masks.Objects()
  {
    LevelDepth(lv, rows.For(lv), width, height, masks.For(lv)).GetOr(Default(lv, width))
  }

  /** The depth a level keeps when it cannot be measured. */
  function Default(lv: Level, width: nat): real {
    width as real * lv.DefaultShare()
  }

  /** The `measurements` dictionary the source returns. */
  function Depths(rows: LevelRows, width: nat, height: int, masks: Masks): (d: map<Level, real>)
    reads masks.Objects()
    ensures d.Keys == {Hip, Waist, Bust}
  {
    map[Hip := StoredDepth(Hip, rows, width, height, masks),
        Waist := StoredDepth(Waist, rows, width, height, masks),
        Bust := StoredDepth(Bust, rows, width, height, masks)]
  }

  /** Some level was measured, so the marked image exists. */
  predicate AnyMeasured(rows: LevelRows, width: nat, height: int, masks: Masks)
    reads masks.Objects()
  {
    exists lv: Level :: Measured(lv, rows, width, height, masks)
  }

  /** Every stored depth is either the level's default or lies in the
      plausible range; for a non-empty image the default is in range too. */
  lemma DepthsInRange(rows: LevelRows, width: nat, height: int, masks: Masks, lv: Level)
    ensures var d := Depths(rows, width, height, masks)[lv];
            var w := width as real;
            w * MinShare <= d <= w * lv.CapShare()
  {
    DepthsAt(rows, width, height, masks, lv);
    StoredDepthInRange(rows, width, height, masks, lv);
  }

  lemma DepthsAt(rows: LevelRows, width: nat, height: int, masks: Masks, lv: Level)
    ensures Depths(rows, width, height, masks)[lv] == StoredDepth(lv, rows, width, height, masks)
  {
  }

  lemma StoredDepthInRange(rows: LevelRows, width: nat, height: int, masks: Masks, lv: Level)
    ensures var d := StoredDepth(lv, rows, width, height, masks);
            var w := width as real;
            w * MinShare <= d <= w * lv.CapShare()
  {
    if LevelDepth(lv, rows.For(lv), width, height, masks.For(lv)).Some? {
      LevelDepthInRange(lv, rows.For(lv), width, height, masks.For(lv));
    } else {
      MulLeft(width as real, MinShare, lv.DefaultShare());
      MulLeft(width as real, lv.DefaultShare(), lv.CapShare());
    }
  }

  /** The dictionary after the first `i` levels were visited. */
  function VisitedDepths(rows: LevelRows, width: nat, height: int, masks: Masks, i: nat): map<Level, real>
    reads masks.Objects()
  {
    map[Hip := if 0 < i then StoredDepth(Hip, rows, width, height, masks) else Default(Hip, width),
        Waist := if 1 < i then StoredDepth(Waist, rows, width, height, masks) else Default(Waist, width),
        Bust := if 2 < i then StoredDepth(Bust, rows, width, height, masks) else Default(Bust, width)]
  }

  /** Visiting level `i` stores its depth and leaves the others alone; before
      the visit the level holds its default. */
  lemma VisitStep(rows: LevelRows, width: nat, height: int, masks: Masks, i: nat)
    requires i < |Levels|
    ensures VisitedDepths(rows, width, height, masks, i)[Levels[i]] == Default(Levels[i], width)
    ensures VisitedDepths(rows, width, height, masks, i + 1)
            == VisitedDepths(rows, width, height, masks, i)[Levels[i] := StoredDepth(Levels[i], rows, width, height, masks)]
    ensures AnyVisitedMeasured(rows, width, height, masks, i + 1)
            <==> AnyVisitedMeasured(rows, width, height, masks, i) || Measured(Levels[i], rows, width, height, masks)
  {
    var before := VisitedDepths(rows, width, height, masks, i);
    var after := VisitedDepths(rows, width, height, masks, i + 1);
    var updated := before[Levels[i] := StoredDepth(Levels[i], rows, width, height, masks)];
    assert after.Keys == updated.Keys;
    forall lv | lv in after.Keys
      ensures after[lv] == updated[lv]
    {
    }
  }

  predicate Measured(lv: Level, rows: LevelRows, width: nat, height: int, masks: Masks)
    reads masks.Objects()
  {
    LevelDepth(lv, rows.For(lv), width, height, masks.For(lv)).Some?
  }

  /** Some of the first `i` levels was measured. */
  predicate AnyVisitedMeasured(rows: LevelRows, width: nat, height: int, masks: Masks, i: nat)
    reads masks.Objects()
  {
    || (0 < i && Measured(Hip, rows, width, height, masks))
    || (1 < i && Measured(Waist, rows, width, height, masks))
    || (2 < i && Measured(Bust, rows, width, height, masks))
  }

  /** The level loop of `process_side_view`: starts from the defaults,
      overwrites a level's depth when its row yields a clamped measurement,
      and creates the marked image on the first success only. */
  method ProcessSideView(hip: Point, shoulder: Point, width: nat, height: int,
                         waistOffset: real, masks: Masks)
    returns (measurements: map<Level, real>, marked: bool)
    ensures measurements == Depths(Rows(hip.y, shoulder.y, waistOffset), width, height, masks)
    ensures marked <==> AnyMeasured(Rows(hip.y, shoulder.y, waistOffset), width, height, masks)
  {
    var rows := Rows(hip.y, shoulder.y, waistOffset);
    measurements := map[Hip := Default(Hip, width), Waist := Default(Waist, width), Bust := Default(Bust, width)];
    marked := false;
    for i := 0 to |Levels|
      invariant measurements == VisitedDepths(rows, width, height, masks, i)
      invariant marked <==> AnyVisitedMeasured(rows, width, height, masks, i)
    {
      var lv := Levels[i];
      var depth := MeasureLevel(lv, rows.For(lv), width, height, masks.For(lv));
      VisitKeeps(rows, width, height, masks, i, measurements, marked, depth);
      if depth.Some? {
        measurements := measurements[lv := depth.value];
        if !marked {
          marked := true;
        }
      }
    }
    AllVisited(rows, width, height, masks);
  }

  /** One turn of the level loop keeps its invariants. */
  lemma VisitKeeps(rows: LevelRows, width: nat, height: int, masks: Masks, i: nat,
                   before: map<Level, real>, marked: bool, depth: Option<real>)
    requires i < |Levels|
    requires before == VisitedDepths(rows, width, height, masks, i)
    requires marked <==> AnyVisitedMeasured(rows, width, height, masks, i)
    requires depth == LevelDepth(Levels[i], rows.For(Levels[i]), width, height, masks.For(Levels[i]))
    ensures (if depth.Some? then before[Levels[i] := depth.value] else before)
            == VisitedDepths(rows, width, height, masks, i + 1)
    ensures marked || depth.Some? <==> AnyVisitedMeasured(rows, width, height, masks, i + 1)
  {
    VisitStep(rows, width, height, masks, i);
    if depth.None? {
      assert before == before[Levels[i] := Default(Levels[i], width)];
    }
  }

  /** After all three levels the visited dictionary is the result, and
      some visited level was measured exactly when some level was. */
  lemma AllVisited(rows: LevelRows, width: nat, height: int, masks: Masks)
    ensures VisitedDepths(rows, width, height, masks, |Levels|) == Depths(rows, width, height, masks)
    ensures AnyVisitedMeasured(rows, width, height, masks, |Levels|) <==> AnyMeasured(rows, width, height, masks)
  {
    if !AnyVisitedMeasured(rows, width, height, masks, |Levels|) {
      forall lv: Level
        ensures !Measured(lv, rows, width, height, masks)
      {
        match lv
        case Hip =>
        case Waist =>
        case Bust =>
      }
    }
  }

  /** The body of the level loop for one level: the band, the row check,
      the scan of the mask row and the clamp. */
  method MeasureLevel(lv: Level, y: int, width: nat, height: int, mask: Option<array2<int>>)
    returns (d: Option<real>)
    ensures d == LevelDepth(lv, y, width, height, mask)
  {
    d := None;
    if 0 <= y < height && mask.Some? {
      var roiStart := if 0 < y - RoiHalf then y - RoiHalf else 0;
      var m := mask.value;
      var center := y - roiStart;
      if 0 <= center < m.Length0 {
        d := MeasureRow(lv, width, m, center);
        LevelDepthOfRow(lv, y, width, height, m, center);
      }
    }
  }

  /** `LevelDepth` once the row checks have passed. */
  lemma LevelDepthOfRow(lv: Level, y: int, width: nat, height: int, m: array2<int>, center: nat)
    requires 0 <= y < height && center == y - RoiStart(y) && center < m.Length0
    ensures LevelDepth(lv, y, width, height, Some(m)) == RowDepth(lv, width, Row(m, center))
  {
  }

  /** Scans the level's row of the mask and clamps the depth found. */
  method MeasureRow(lv: Level, width: nat, m: array2<int>, center: nat) returns (d: Option<real>)
    requires center < m.Length0
    ensures d == RowDepth(lv, width, Row(m, center))
  {
    d := None;
    var e := FindExtent(m, center);
    if e.Some? {
      var (leftmost, rightmost) := e.value;
      var depth := (rightmost - leftmost) as real;
      if depth < width as real * MinShare {
        depth := width as real * MinShare;
      } else if depth > width as real * lv.CapShare() {
        depth := width as real * lv.CapShare();
      }
      RowDepthOfExtent(lv, width, Row(m, center), leftmost, rightmost);
      assert depth == Clamp((rightmost - leftmost) as real, width as real * MinShare, width as real * lv.CapShare());
      d := Some(depth);
    }
  }

  /** `RowDepth` once the extent of the row is known. */
  lemma RowDepthOfExtent(lv: Level, width: nat, row: seq<int>, l: nat, r: nat)
    requires Extent(row) == Some((l, r))
    ensures RowDepth(lv, width, row)
         == Some(Clamp((r - l) as real, width as real * MinShare, width as real * lv.CapShare()))
  {
  }

  /** `ellipse_perimeter`: Ramanujan's second approximation of the
      perimeter of an ellipse with axes `width` and `depth`; an ellipse
      with a semi-axis under one pixel is measured as the circle on the
      larger semi-axis.  `pi` stands for numpy's constant. */
  function EllipsePerimeter(pi: real, sqrt: real -> real, width: real, depth: real): real
    requires IsSqrt(sqrt)
  {
    var a := width / 2.0;
    var b := depth / 2.0;
    if a < 1.0 || b < 1.0 then 2.0 * pi * Max(a, b)
    else pi * (a + b) * (1.0 + Correction(sqrt, ShapeFactor(a, b)))
  }

  /** Ramanujan's `h = (a - b)^2 / (a + b)^2`, which lies in [0, 1) for
      semi-axes of at least one. */
  function ShapeFactor(a: real, b: real): (h: real)
    requires 1.0 <= a && 1.0 <= b
    ensures 0.0 <= h < 1.0
  {
    PositiveProduct(a + b, a + b);
    PositiveProduct(a, b);
    Square(a - b);
    assert (a + b) * (a + b) - (a - b) * (a - b) == 4.0 * (a * b);
    FractionBelowOne((a - b) * (a - b), (a + b) * (a + b));
    ((a - b) * (a - b)) / ((a + b) * (a + b))
  }

  lemma FractionBelowOne(t: real, s: real)
    requires 0.0 <= t < s
    ensures 0.0 <= t / s < 1.0
  {
    assert (t / s) * s == t;
    if 1.0 <= t / s {
      MulLeft(s, 1.0, t / s);
    }
  }

  /** Ramanujan's correction `3h / (10 + sqrt(4 - 3h))`, which lies in
      [0, 0.3) for `h` in [0, 1). */
  function Correction(sqrt: real -> real, h: real): (c: real)
    requires IsSqrt(sqrt) && 0.0 <= h < 1.0
    ensures 0.0 <= c < 0.3
  {
    var root := sqrt(4.0 - 3.0 * h);
    assert 0.0 <= root;
    assert (3.0 * h) / (10.0 + root) < 0.3 by {
      FractionBelowOne(10.0 * h, 10.0 + root);
    }
    (3.0 * h) / (10.0 + root)
  }

  /** The perimeter does not depend on which axis is called the width. */
  lemma EllipseSymmetric(pi: real, sqrt: real -> real, width: real, depth: real)
    requires IsSqrt(sqrt)
    ensures EllipsePerimeter(pi, sqrt, width, depth) == EllipsePerimeter(pi, sqrt, depth, width)
  {
    var a, b := width / 2.0, depth / 2.0;
    if 1.0 <= a && 1.0 <= b {
      assert ShapeFactor(a, b) == ShapeFactor(b, a) by {
        assert (a - b) * (a - b) == (b - a) * (b - a);
        assert (a + b) * (a + b) == (b + a) * (b + a);
      }
    }
  }

  /** A circle of diameter `w` (at least two pixels) gets the exact
      circumference `pi * w`: its shape factor is zero. */
  lemma EllipseOfCircle(pi: real, sqrt: real -> real, w: real)
    requires IsSqrt(sqrt) && 2.0 <= w
    ensures EllipsePerimeter(pi, sqrt, w, w) == pi * w
  {
    var a := w / 2.0;
    assert ShapeFactor(a, a) == 0.0 by {
      assert (a - a) * (a - a) == 0.0;
    }
    assert Correction(sqrt, 0.0) == 0.0;
  }

  /** An ellipse thinner than two pixels in either direction is measured as
      the circle whose diameter is the larger axis. */
  lemma EllipseDegenerateIsCircle(pi: real, sqrt: real -> real, width: real, depth: real)
    requires IsSqrt(sqrt) && (width < 2.0 || depth < 2.0)
    ensures EllipsePerimeter(pi, sqrt, width, depth) == pi * Max(width, depth)
  {
    assert 2.0 * Max(width / 2.0, depth / 2.0) == Max(width, depth);
  }

  /** For axes of at least two pixels the approximation lies between
      `pi * (width + depth) / 2`, the perimeter of the circle with the mean
      diameter, and 1.3 times that. */
  lemma EllipseBounds(pi: real, sqrt: real -> real, width: real, depth: real)
    requires IsSqrt(sqrt) && 0.0 < pi && 2.0 <= width && 2.0 <= depth
    ensures pi * (width + depth) / 2.0 <= EllipsePerimeter(pi, sqrt, width, depth)
    ensures EllipsePerimeter(pi, sqrt, width, depth) < 1.3 * (pi * (width + depth) / 2.0)
  {
    var a, b := width / 2.0, depth / 2.0;
    var c := Correction(sqrt, ShapeFactor(a, b));
    var mean := pi * (a + b);
    assert 0.0 < mean by { PositiveProduct(pi, a + b); }
    assert mean * (1.0 + c) == mean + mean * c;
    assert 0.0 <= mean * c by { MulLeft(mean, 0.0, c); }
    assert mean * c < mean * 0.3 by { MulLeftStrict(mean, c, 0.3); }
  }
}
