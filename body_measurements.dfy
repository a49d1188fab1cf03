/** backend/body_measurements.py: front-view pixel widths from six pose
    landmarks, a body-type bucket from the shoulder-to-hip ratio, a waist
    line placed between hips and shoulders, a bust width chosen by body
    type, and a scaling factor from the person's height. */
module BodyMeasurements {
  import opened Common

  /** The six buckets of the shoulder-to-hip ratio cascade. */
  datatype BodyType = VeryAthletic | Athletic | SlightlyAthletic | Balanced | SlightlyPear | Pear {
    /** The label the service reports. */
    function Label(): string {
      match this
      case VeryAthletic => "very_athletic"
      case Athletic => "athletic"
      case SlightlyAthletic => "slightly_athletic"
      case Balanced => "balanced"
      case SlightlyPear => "slightly_pear"
      case Pear => "pear"
    }
  }

  /** The cascade of strict thresholds 1.5, 1.3, 1.1, 0.9, 0.8. */
  function Classify(ratio: real): BodyType {
    if ratio > 1.5 then VeryAthletic
    else if ratio > 1.3 then Athletic
    else if ratio > 1.1 then SlightlyAthletic
    else if ratio > 0.9 then Balanced
    else if ratio > 0.8 then SlightlyPear
    else Pear
  }

  /** Fraction of the torso length the waist sits above the hips. */
  function WaistOffset(bt: BodyType): real {
    match bt
    case VeryAthletic => 0.33
    case Athletic => 0.35
    case SlightlyAthletic => 0.38
    case Balanced => 0.4
    case SlightlyPear => 0.42
    case Pear => 0.45
  }

  function BustMultiplier(bt: BodyType): real {
    match bt
    case VeryAthletic => 1.08
    case Athletic => 1.05
    case SlightlyAthletic => 1.0
    case Balanced => 0.5
    case SlightlyPear => 0.97
    case Pear => 0.95
  }

  /** The landmarks the computation reads.  The left knee is read by the
      source but never used. */
  datatype FrontLandmarks = FrontLandmarks(leftShoulder: Point, rightShoulder: Point,
                                           leftHip: Point, rightHip: Point,
                                           leftKnee: Point, leftAnkle: Point)

  /** The dictionary the function returns. */
  datatype Measurements = Measurements(hipWidthPx: real, waistWidthPx: real, bustWidthPx: real,
                                       inseamPx: real, scalingFactor: real, bodyType: BodyType,
                                       waistYOffset: real, shoulderHipRatio: real, inseamCm: real)

  function HipWidth(sqrt: real -> real, p: FrontLandmarks): real
    requires IsSqrt(sqrt)
  {
    Distance(sqrt, p.leftHip, p.rightHip)
  }

  function ShoulderWidth(sqrt: real -> real, p: FrontLandmarks): real
    requires IsSqrt(sqrt)
  {
    Distance(sqrt, p.leftShoulder, p.rightShoulder)
  }

  function InseamPx(sqrt: real -> real, p: FrontLandmarks): real
    requires IsSqrt(sqrt)
  {
    Distance(sqrt, p.leftHip, p.leftAnkle)
  }

  /** Shoulder-to-ankle distance scaled by 1.2 for the head. */
  function BodyHeightPx(sqrt: real -> real, p: FrontLandmarks): real
    requires IsSqrt(sqrt)
  {
    Distance(sqrt, p.leftShoulder, p.leftAnkle) * 1.2
  }

  /** A hip point moved up by `offset` of its side's vertical torso length. */
  function WaistPoint(hip: Point, shoulder: Point, offset: real): Point {
    Point(hip.x, hip.y - Abs(hip.y - shoulder.y) * offset)
  }

  /** The left and the right waist points. */
  function WaistPoints(p: FrontLandmarks, offset: real): (Point, Point) {
    (WaistPoint(p.leftHip, p.leftShoulder, offset), WaistPoint(p.rightHip, p.rightShoulder, offset))
  }

  function WaistWidth(sqrt: real -> real, p: FrontLandmarks, offset: real): real
    requires IsSqrt(sqrt)
  {
    var (l, r) := WaistPoints(p, offset);
    Distance(sqrt, l, r)
  }

  /** Only the exact labels "athletic" and "pear" have their own rule; every
      other bucket takes the sum of both widths. */
  function BustWidth(bt: BodyType, shoulderWidth: real, hipWidth: real): real {
    if bt == Athletic then shoulderWidth * BustMultiplier(bt)
    else if bt == Pear then hipWidth * BustMultiplier(bt)
    else (shoulderWidth + hipWidth) * BustMultiplier(bt)
  }

  /** The arithmetic after the pixel distances are known.  The waist width
      is measured at the offset of the bucket the ratio falls in. */
  function Assemble(hip: real, shoulder: real, inseam: real, bodyHeight: real,
                    waist: real, heightCm: real): Measurements
    requires hip != 0.0 && bodyHeight != 0.0
  {
    var ratio := shoulder / hip;
    var bt := Classify(ratio);
    var scaling := heightCm / bodyHeight;
    Measurements(hip, waist, BustWidth(bt, shoulder, hip), inseam, scaling, bt,
                 WaistOffset(bt), ratio, inseam * scaling)
  }

  /** `calculate_body_measurements(landmarks, image_shape, height_cm)`.
      Both divisors must be positive: numpy would produce inf or nan. */
  function CalculateBodyMeasurements(sqrt: real -> real, p: FrontLandmarks, heightCm: real): (m: Measurements)
    requires IsSqrt(sqrt)
    requires 0.0 < HipWidth(sqrt, p) && 0.0 < BodyHeightPx(sqrt, p)
    ensures m.hipWidthPx == HipWidth(sqrt, p) && m.inseamPx == InseamPx(sqrt, p)
    ensures m.shoulderHipRatio == ShoulderWidth(sqrt, p) / m.hipWidthPx
    ensures m.bodyType == Classify(m.shoulderHipRatio) && m.waistYOffset == WaistOffset(m.bodyType)
    ensures m.waistWidthPx == WaistWidth(sqrt, p, m.waistYOffset)
    ensures m.bustWidthPx == BustWidth(m.bodyType, ShoulderWidth(sqrt, p), m.hipWidthPx)
    ensures m.scalingFactor * BodyHeightPx(sqrt, p) == heightCm
    ensures m.inseamCm == m.inseamPx * m.scalingFactor
    ensures 0.0 < m.hipWidthPx && 0.0 <= m.waistWidthPx && 0.0 <= m.inseamPx
  {
    var hip := HipWidth(sqrt, p);
    var shoulder := ShoulderWidth(sqrt, p);
    var offset := WaistOffset(Classify(shoulder / hip));
    Assemble(hip, shoulder, InseamPx(sqrt, p), BodyHeightPx(sqrt, p), WaistWidth(sqrt, p, offset), heightCm)
  }

  /** The waist width measured at the offset the body type of `p` picks. */
  function WaistAtOwnOffset(sqrt: real -> real, p: FrontLandmarks): real
    requires IsSqrt(sqrt) && HipWidth(sqrt, p) != 0.0
  {
    WaistWidth(sqrt, p, WaistOffset(Classify(ShoulderWidth(sqrt, p) / HipWidth(sqrt, p))))
  }

  lemma NonNegativeProduct(a: real, b: real)
    requires 0.0 <= a && 0.0 <= b
    ensures 0.0 <= a * b
  {
  }

  /** What the ratio and the scaling factor mean: the ratio times the hip
      width is the shoulder width, the scaling factor times the body height
      in pixels is the height in centimetres, and the inseam in centimetres
      is the pixel inseam times the scaling factor. */
  lemma MeasurementsMeaning(sqrt: real -> real, p: FrontLandmarks, heightCm: real)
    requires IsSqrt(sqrt)
    requires 0.0 < HipWidth(sqrt, p) && 0.0 < BodyHeightPx(sqrt, p)
    ensures
      var m := CalculateBodyMeasurements(sqrt, p, heightCm);
      && m.shoulderHipRatio * m.hipWidthPx == ShoulderWidth(sqrt, p)
      && 0.0 <= m.shoulderHipRatio
      && 0.0 <= m.bustWidthPx
      && m.scalingFactor * BodyHeightPx(sqrt, p) == heightCm
      && m.inseamCm == m.inseamPx * m.scalingFactor
      && (0.0 < heightCm ==> 0.0 < m.scalingFactor && 0.0 <= m.inseamCm)
  {
    var hip := HipWidth(sqrt, p);
    var shoulder := ShoulderWidth(sqrt, p);
    var waist := WaistWidth(sqrt, p, WaistOffset(Classify(shoulder / hip)));
    AssembleMeaning(hip, shoulder, InseamPx(sqrt, p), BodyHeightPx(sqrt, p), waist, heightCm);
  }

  /** The same facts about the arithmetic once the distances are known. */
  lemma AssembleMeaning(hip: real, shoulder: real, inseam: real, bodyHeight: real, waist: real, heightCm: real)
    requires 0.0 < hip && 0.0 < bodyHeight && 0.0 <= shoulder && 0.0 <= inseam
    ensures
      var m := Assemble(hip, shoulder, inseam, bodyHeight, waist, heightCm);
      && m.shoulderHipRatio * m.hipWidthPx == shoulder
      && 0.0 <= m.shoulderHipRatio
      && 0.0 <= m.bustWidthPx
      && m.scalingFactor * bodyHeight == heightCm
      && m.inseamCm == m.inseamPx * m.scalingFactor
      && (0.0 < heightCm ==> 0.0 < m.scalingFactor && 0.0 <= m.inseamCm)
  {
    var m := Assemble(hip, shoulder, inseam, bodyHeight, waist, heightCm);
    assert 0.0 <= m.shoulderHipRatio by {
      assert m.shoulderHipRatio == shoulder / hip;
    }
    if 0.0 < heightCm {
      NonNegativeProduct(m.inseamPx, m.scalingFactor);
    }
  }

  // ---------------------------------------------------------------------
  // Properties

  /** Each bucket covers exactly its half-open band of ratios. */
  lemma ClassifyBands(ratio: real)
    ensures Classify(ratio) == VeryAthletic <==> 1.5 < ratio
    ensures Classify(ratio) == Athletic <==> 1.3 < ratio <= 1.5
    ensures Classify(ratio) == SlightlyAthletic <==> 1.1 < ratio <= 1.3
    ensures Classify(ratio) == Balanced <==> 0.9 < ratio <= 1.1
    ensures Classify(ratio) == SlightlyPear <==> 0.8 < ratio <= 0.9
    ensures Classify(ratio) == Pear <==> ratio <= 0.8
  {
  }

  /** The wider the shoulders relative to the hips, the lower the waist
      line is placed (a smaller offset above the hips). */
  lemma WaistOffsetNonIncreasing(r1: real, r2: real)
    requires r1 <= r2
    ensures WaistOffset(Classify(r2)) <= WaistOffset(Classify(r1))
  {
  }

  /** The three bust rules, as functions of the two widths. */
  lemma BustRules(bt: BodyType, shoulder: real, hip: real)
    ensures bt == Athletic ==> BustWidth(bt, shoulder, hip) == 1.05 * shoulder
    ensures bt == Pear ==> BustWidth(bt, shoulder, hip) == 0.95 * hip
    ensures bt == Balanced ==> BustWidth(bt, shoulder, hip) == (shoulder + hip) / 2.0
    ensures bt == VeryAthletic ==> BustWidth(bt, shoulder, hip) == 1.08 * (shoulder + hip)
    ensures bt == SlightlyAthletic ==> BustWidth(bt, shoulder, hip) == shoulder + hip
    ensures bt == SlightlyPear ==> BustWidth(bt, shoulder, hip) == 0.97 * (shoulder + hip)
  {
  }

  /** When both torso sides have the same vertical length, the waist
      segment is the hip segment shifted up, so both widths agree. */
  lemma EqualTorsosGiveHipWidthWaist(sqrt: real -> real, p: FrontLandmarks, offset: real)
    requires IsSqrt(sqrt)
    requires Abs(p.leftHip.y - p.leftShoulder.y) == Abs(p.rightHip.y - p.rightShoulder.y)
    ensures WaistWidth(sqrt, p, offset) == HipWidth(sqrt, p)
  {
    var (l, r) := WaistPoints(p, offset);
    assert r.x - l.x == p.rightHip.x - p.leftHip.x;
    assert r.y - l.y == p.rightHip.y - p.leftHip.y;
    assert SquaredDistance(l, r) == SquaredDistance(p.leftHip, p.rightHip);
  }

  /** The left knee does not influence the result. */
  lemma KneeIsUnused(sqrt: real -> real, p: FrontLandmarks, knee: Point, heightCm: real)
    requires IsSqrt(sqrt)
    requires 0.0 < HipWidth(sqrt, p) && 0.0 < BodyHeightPx(sqrt, p)
    ensures CalculateBodyMeasurements(sqrt, p.(leftKnee := knee), heightCm)
         == CalculateBodyMeasurements(sqrt, p, heightCm)
  {
  }

  // ---------------------------------------------------------------------
  // Independence of the image scale

  function ScalePoint(k: real, q: Point): Point {
    Point(k * q.x, k * q.y)
  }

  function ScaleLandmarks(k: real, p: FrontLandmarks): FrontLandmarks {
    FrontLandmarks(ScalePoint(k, p.leftShoulder), ScalePoint(k, p.rightShoulder),
                   ScalePoint(k, p.leftHip), ScalePoint(k, p.rightHip),
                   ScalePoint(k, p.leftKnee), ScalePoint(k, p.leftAnkle))
  }

  lemma SquareStrictlyIncreasing(a: real, b: real)
    requires 0.0 <= a < b
    ensures a * a < b * b
  {
    PositiveProduct(b - a, b + a);
    assert b * b - a * a == (b - a) * (b + a);
  }

  /** Non-negative square roots are unique. */
  lemma RootUnique(a: real, b: real, v: real)
    requires 0.0 <= a && 0.0 <= b
    requires a * a == v && b * b == v
    ensures a == b
  {
    if a < b {
      SquareStrictlyIncreasing(a, b);
    } else if b < a {
      SquareStrictlyIncreasing(b, a);
    }
  }

  lemma ScaledSquaredDistance(k: real, p: Point, q: Point)
    ensures SquaredDistance(ScalePoint(k, p), ScalePoint(k, q)) == (k * k) * SquaredDistance(p, q)
  {
    var dx, dy := q.x - p.x, q.y - p.y;
    assert k * q.x - k * p.x == k * dx;
    assert k * q.y - k * p.y == k * dy;
    assert (k * dx) * (k * dx) == (k * k) * (dx * dx);
    assert (k * dy) * (k * dy) == (k * k) * (dy * dy);
  }

  /** Zooming the image by `k` multiplies every distance by `k`. */
  lemma ScaledDistance(sqrt: real -> real, k: real, p: Point, q: Point)
    requires IsSqrt(sqrt) && 0.0 < k
    ensures Distance(sqrt, ScalePoint(k, p), ScalePoint(k, q)) == k * Distance(sqrt, p, q)
  {
    var d := Distance(sqrt, p, q);
    var e := Distance(sqrt, ScalePoint(k, p), ScalePoint(k, q));
    ScaledSquaredDistance(k, p, q);
    assert (k * d) * (k * d) == (k * k) * (d * d);
    NonNegativeProduct(k, d);
    RootUnique(e, k * d, (k * k) * SquaredDistance(p, q));
  }

  lemma AbsScale(k: real, v: real)
    requires 0.0 < k
    ensures Abs(k * v) == k * Abs(v)
  {
    if v < 0.0 {
      MulLeftStrict(k, v, 0.0);
      assert -(k * v) == k * (-v);
    } else {
      NonNegativeProduct(k, v);
    }
  }

  lemma ScaledWaistPoint(k: real, hip: Point, shoulder: Point, offset: real)
    requires 0.0 < k
    ensures WaistPoint(ScalePoint(k, hip), ScalePoint(k, shoulder), offset)
         == ScalePoint(k, WaistPoint(hip, shoulder, offset))
  {
    var d := hip.y - shoulder.y;
    assert k * hip.y - k * shoulder.y == k * d;
    AbsScale(k, d);
    var t := Abs(d);
    assert (k * t) * offset == k * (t * offset);
    assert k * hip.y - k * (t * offset) == k * (hip.y - t * offset);
  }

  lemma ScaledWaistPoints(k: real, p: FrontLandmarks, offset: real)
    requires 0.0 < k
    ensures WaistPoints(ScaleLandmarks(k, p), offset).0 == ScalePoint(k, WaistPoints(p, offset).0)
    ensures WaistPoints(ScaleLandmarks(k, p), offset).1 == ScalePoint(k, WaistPoints(p, offset).1)
  {
    ScaledWaistPoint(k, p.leftHip, p.leftShoulder, offset);
    ScaledWaistPoint(k, p.rightHip, p.rightShoulder, offset);
  }

  lemma RatioOfScaled(k: real, a: real, b: real)
    requires 0.0 < k && b != 0.0
    ensures (k * a) / (k * b) == a / b
  {
    assert (a / b) * (k * b) == k * a;
  }

  lemma ScaledRatio(ka: real, kb: real, a: real, b: real, k: real)
    requires 0.0 < k && b != 0.0 && ka == k * a && kb == k * b
    ensures ka / kb == a / b
  {
    RatioOfScaled(k, a, b);
  }

  /** A scaling factor computed against a `k` times larger height,
      applied to a `k` times larger length, gives the same product. */
  lemma RescaledFactor(k: real, len: real, heightCm: real, h: real)
    requires 0.0 < k && h != 0.0
    ensures (k * len) * (heightCm / (k * h)) == len * (heightCm / h)
  {
    var x := heightCm / (k * h);
    assert x * (k * h) == heightCm;
    assert (x * k) * h == heightCm;
    assert x * k == heightCm / h;
    assert (k * len) * x == len * (x * k);
  }

  lemma ScaledBust(bt: BodyType, shoulder: real, hip: real, k: real)
    ensures BustWidth(bt, k * shoulder, k * hip) == k * BustWidth(bt, shoulder, hip)
  {
    var m := BustMultiplier(bt);
    assert (k * shoulder) * m == k * (shoulder * m);
    assert (k * hip) * m == k * (hip * m);
    assert (k * shoulder + k * hip) * m == k * ((shoulder + hip) * m);
  }

  lemma ScaledWidths(sqrt: real -> real, p: FrontLandmarks, k: real)
    requires IsSqrt(sqrt) && 0.0 < k
    ensures HipWidth(sqrt, ScaleLandmarks(k, p)) == k * HipWidth(sqrt, p)
    ensures ShoulderWidth(sqrt, ScaleLandmarks(k, p)) == k * ShoulderWidth(sqrt, p)
    ensures InseamPx(sqrt, ScaleLandmarks(k, p)) == k * InseamPx(sqrt, p)
    ensures BodyHeightPx(sqrt, ScaleLandmarks(k, p)) == k * BodyHeightPx(sqrt, p)
    ensures forall offset :: WaistWidth(sqrt, ScaleLandmarks(k, p), offset) == k * WaistWidth(sqrt, p, offset)
  {
    var q := ScaleLandmarks(k, p);
    ScaledDistance(sqrt, k, p.leftHip, p.rightHip);
    ScaledDistance(sqrt, k, p.leftShoulder, p.rightShoulder);
    ScaledDistance(sqrt, k, p.leftHip, p.leftAnkle);
    ScaledBodyHeight(sqrt, p, k);
    forall offset
      ensures WaistWidth(sqrt, q, offset) == k * WaistWidth(sqrt, p, offset)
    {
      ScaledWaistWidth(sqrt, p, k, offset);
    }
  }

  lemma ScaledBodyHeight(sqrt: real -> real, p: FrontLandmarks, k: real)
    requires IsSqrt(sqrt) && 0.0 < k
    ensures BodyHeightPx(sqrt, ScaleLandmarks(k, p)) == k * BodyHeightPx(sqrt, p)
  {
    ScaledDistance(sqrt, k, p.leftShoulder, p.leftAnkle);
    var d := Distance(sqrt, p.leftShoulder, p.leftAnkle);
    assert (k * d) * 1.2 == k * (d * 1.2);
  }

  lemma ScaledWaistWidth(sqrt: real -> real, p: FrontLandmarks, k: real, offset: real)
    requires IsSqrt(sqrt) && 0.0 < k
    ensures WaistWidth(sqrt, ScaleLandmarks(k, p), offset) == k * WaistWidth(sqrt, p, offset)
  {
    ScaledWaistPoints(k, p, offset);
    var (l, r) := WaistPoints(p, offset);
    ScaledDistance(sqrt, k, l, r);
  }

  /** `z` is what `m` becomes when the picture is zoomed by `k`: the
      proportions and the centimetre inseam are unchanged and every pixel
      length is `k` times as long. */
  predicate ZoomedBy(z: Measurements, m: Measurements, k: real)
  {
    && z.shoulderHipRatio == m.shoulderHipRatio
    && z.bodyType == m.bodyType
    && z.waistYOffset == m.waistYOffset
    && z.hipWidthPx == k * m.hipWidthPx
    && z.waistWidthPx == k * m.waistWidthPx
    && z.bustWidthPx == k * m.bustWidthPx
    && z.inseamPx == k * m.inseamPx
    && z.inseamCm == m.inseamCm
  }

  /** Every pixel length multiplied by `k`. */
  predicate ZoomedLengths(k: real, hip: real, shoulder: real, inseam: real, bodyHeight: real, waist: real,
                          hip': real, shoulder': real, inseam': real, bodyHeight': real, waist': real)
  {
    && 0.0 < k && hip != 0.0 && bodyHeight != 0.0
    && hip' == k * hip && shoulder' == k * shoulder && inseam' == k * inseam
    && bodyHeight' == k * bodyHeight && waist' == k * waist
  }

  /** The arithmetic commutes with a zoom: fed `k` times each pixel
      length, it gives the zoomed measurements. */
  lemma AssembleScales(k: real, hip: real, shoulder: real, inseam: real, bodyHeight: real,
                       waist: real, heightCm: real,
                       hip': real, shoulder': real, inseam': real, bodyHeight': real, waist': real)
    requires ZoomedLengths(k, hip, shoulder, inseam, bodyHeight, waist, hip', shoulder', inseam', bodyHeight', waist')
    ensures hip' != 0.0 && bodyHeight' != 0.0
    ensures ZoomedBy(Assemble(hip', shoulder', inseam', bodyHeight', waist', heightCm),
                     Assemble(hip, shoulder, inseam, bodyHeight, waist, heightCm), k)
  {
    RatioOfScaled(k, shoulder, hip);
    ScaledBust(Classify(shoulder / hip), shoulder, hip, k);
    RescaledFactor(k, inseam, heightCm, bodyHeight);
  }

  /** Zooming the image by `k` changes no result that matters: the ratio,
      the body type, the waist offset and the inseam in centimetres stay the
      same, and every pixel width is multiplied by `k`. */
  lemma MeasurementsIgnoreImageScale(sqrt: real -> real, p: FrontLandmarks, heightCm: real, k: real)
    requires IsSqrt(sqrt) && 0.0 < k
    requires 0.0 < HipWidth(sqrt, p) && 0.0 < BodyHeightPx(sqrt, p)
    ensures 0.0 < HipWidth(sqrt, ScaleLandmarks(k, p)) && 0.0 < BodyHeightPx(sqrt, ScaleLandmarks(k, p))
    ensures ZoomedBy(CalculateBodyMeasurements(sqrt, ScaleLandmarks(k, p), heightCm),
                     CalculateBodyMeasurements(sqrt, p, heightCm), k)
  {
    ZoomedIsAssembled(sqrt, p, k, heightCm);
    CalculateIsAssembled(sqrt, p, heightCm);
  }

  /** The measurements of the zoomed picture are a zoom of the record
      assembled from the original pixel lengths. */
  lemma ZoomedIsAssembled(sqrt: real -> real, p: FrontLandmarks, k: real, heightCm: real)
    requires IsSqrt(sqrt) && 0.0 < k
    requires 0.0 < HipWidth(sqrt, p) && 0.0 < BodyHeightPx(sqrt, p)
    ensures 0.0 < HipWidth(sqrt, ScaleLandmarks(k, p)) && 0.0 < BodyHeightPx(sqrt, ScaleLandmarks(k, p))
    ensures ZoomedBy(CalculateBodyMeasurements(sqrt, ScaleLandmarks(k, p), heightCm),
                     Assemble(HipWidth(sqrt, p), ShoulderWidth(sqrt, p), InseamPx(sqrt, p), BodyHeightPx(sqrt, p),
                              WaistAtOwnOffset(sqrt, p), heightCm), k)
  {
    var q := ScaleLandmarks(k, p);
    MeasuredLengthsZoom(sqrt, p, k);
    CalculateIsAssembled(sqrt, q, heightCm);
    AssembleScales(k, HipWidth(sqrt, p), ShoulderWidth(sqrt, p), InseamPx(sqrt, p), BodyHeightPx(sqrt, p),
                   WaistAtOwnOffset(sqrt, p), heightCm,
                   HipWidth(sqrt, q), ShoulderWidth(sqrt, q), InseamPx(sqrt, q), BodyHeightPx(sqrt, q),
                   WaistAtOwnOffset(sqrt, q));
  }

  /** Every pixel length of the zoomed picture, the waist measured at its
      own offset included, is `k` times the original one. */
  lemma MeasuredLengthsZoom(sqrt: real -> real, p: FrontLandmarks, k: real)
    requires IsSqrt(sqrt) && 0.0 < k
    requires 0.0 < HipWidth(sqrt, p) && 0.0 < BodyHeightPx(sqrt, p)
    ensures 0.0 < HipWidth(sqrt, ScaleLandmarks(k, p)) && 0.0 < BodyHeightPx(sqrt, ScaleLandmarks(k, p))
    ensures ZoomedLengths(k, HipWidth(sqrt, p), ShoulderWidth(sqrt, p), InseamPx(sqrt, p), BodyHeightPx(sqrt, p),
                          WaistAtOwnOffset(sqrt, p),
                          HipWidth(sqrt, ScaleLandmarks(k, p)), ShoulderWidth(sqrt, ScaleLandmarks(k, p)),
                          InseamPx(sqrt, ScaleLandmarks(k, p)), BodyHeightPx(sqrt, ScaleLandmarks(k, p)),
                          WaistAtOwnOffset(sqrt, ScaleLandmarks(k, p)))
  {
    var q := ScaleLandmarks(k, p);
    ScaledWidths(sqrt, p, k);
    var hip, shoulder := HipWidth(sqrt, p), ShoulderWidth(sqrt, p);
    MulLeftStrict(k, 0.0, hip);
    MulLeftStrict(k, 0.0, BodyHeightPx(sqrt, p));
    ScaledRatio(ShoulderWidth(sqrt, q), HipWidth(sqrt, q), shoulder, hip, k);
    ScaledWaistWidth(sqrt, p, k, WaistOffset(Classify(shoulder / hip)));
  }

  /** `CalculateBodyMeasurements` is the arithmetic applied to the
      distances it measures. */
  lemma CalculateIsAssembled(sqrt: real -> real, p: FrontLandmarks, heightCm: real)
    requires IsSqrt(sqrt)
    requires 0.0 < HipWidth(sqrt, p) && 0.0 < BodyHeightPx(sqrt, p)
    ensures CalculateBodyMeasurements(sqrt, p, heightCm)
              == Assemble(HipWidth(sqrt, p), ShoulderWidth(sqrt, p), InseamPx(sqrt, p), BodyHeightPx(sqrt, p),
                          WaistAtOwnOffset(sqrt, p), heightCm)
  {
  }
}
