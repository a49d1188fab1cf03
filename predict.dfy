/** The measurement path of backend/main.py: the required-landmark checks,
    the default substitution for weak landmarks, the live copy of the
    front-view measurer with its circumference multipliers and height
    estimate, the size lookup against the loaded charts, and the
    fixed-pose status message. */
module Predict {
  import opened Common
  import opened OpenPose
  import opened BodyMeasurements
  import opened SizeResolver

  /** `required_landmarks`, in the order the source lists them. */
  const Required: seq<Keypoint> := [LeftShoulder, RightShoulder, LeftHip, RightHip, LeftKnee, LeftAnkle]

  const RequiredSet: set<Keypoint> := set k | k in Required

  /** A landmark the check reports: absent, or below the threshold. */
  predicate Deficient(lms: Landmarks, k: Keypoint, threshold: real) {
    k !in lms || lms[k].visibility < threshold
  }

  /** The required landmarks that fail the check, in the order of `req`. */
  function Missing(lms: Landmarks, req: seq<Keypoint>, threshold: real): (r: seq<Keypoint>)
    ensures forall k :: k in r <==> k in req && Deficient(lms, k, threshold)
    ensures |r| <= |req|
  {
    if |req| == 0 then []
    else
      var k := req[|req| - 1];
      Missing(lms, req[..|req| - 1], threshold) + (if Deficient(lms, k, threshold) then [k] else [])
  }

  /** The loop that collects `missing_landmarks`; `/detect-pose/` runs it
      with threshold 0.3 and rejects the pose when the list is not empty,
      `/predict-size/` runs it with threshold 0.1. */
  method MissingLandmarks(lms: Landmarks, threshold: real) returns (missing: seq<Keypoint>)
    ensures missing == Missing(lms, Required, threshold)
  {
    missing := [];
    for i := 0 to |Required|
      invariant missing == Missing(lms, Required[..i], threshold)
    {
      MissingStep(lms, Required, i, threshold);
      if Required[i] !in lms || lms[Required[i]].visibility < threshold {
        missing := missing + [Required[i]];
      }
    }
    assert Required[..|Required|] == Required;
  }

  lemma MissingStep(lms: Landmarks, req: seq<Keypoint>, i: nat, threshold: real)
    requires i < |req|
    ensures Missing(lms, req[..i + 1], threshold)
         == Missing(lms, req[..i], threshold) + (if Deficient(lms, req[i], threshold) then [req[i]] else [])
  {
    assert req[..i + 1][..i] == req[..i];
  }

  /** `/detect-pose/` accepts a pose exactly when every required landmark
      is present with visibility at least 0.3. */
  lemma DetectPoseAccepts(lms: Landmarks)
    ensures Missing(lms, Required, 0.3) == [] <==>
      forall k :: k in Required ==> k in lms && 0.3 <= lms[k].visibility
  {
    if Missing(lms, Required, 0.3) != [] {
      assert Missing(lms, Required, 0.3)[0] in Missing(lms, Required, 0.3);
    }
  }

  /** The replacement record of a weak required landmark: the image centre
      with visibility 0.1 when absent, otherwise its own record with the
      visibility raised to 0.1. */
  function Fixed(lms: Landmarks, k: Keypoint, width: nat, height: nat): Landmark {
    if k !in lms then Landmark(width as real / 2.0, height as real / 2.0, 0.0, 0.1)
    else lms[k].(visibility := 0.1)
  }

  /** The landmark dictionary after the substitution step. */
  function Substituted(lms: Landmarks, width: nat, height: nat): (r: Landmarks)
    ensures forall k :: k in Required ==> k in r && 0.1 <= r[k].visibility
  {
    map k | k in lms.Keys + RequiredSet ::
      if k in Required && Deficient(lms, k, 0.1) then Fixed(lms, k, width, height) else lms[k]
  }

  /** Substitution touches exactly the weak required landmarks: an absent
      one moves to the image centre, a faint one keeps its position, and
      every other record, required or not, is unchanged. */
  lemma SubstitutionEffect(lms: Landmarks, width: nat, height: nat)
    ensures Substituted(lms, width, height).Keys == lms.Keys + RequiredSet
    ensures forall k :: k in Required && k !in lms ==>
      Substituted(lms, width, height)[k] == Landmark(width as real / 2.0, height as real / 2.0, 0.0, 0.1)
    ensures forall k :: k in Required && k in lms && lms[k].visibility < 0.1 ==>
      Substituted(lms, width, height)[k] == lms[k].(visibility := 0.1)
    ensures forall k :: k in lms && !(k in Required && lms[k].visibility < 0.1) ==>
      Substituted(lms, width, height)[k] == lms[k]
  {
  }

  /** A pose that passed `/detect-pose/` needs no substitution. */
  lemma AcceptedPoseIsUnchanged(lms: Landmarks, width: nat, height: nat)
    requires Missing(lms, Required, 0.3) == []
    ensures Substituted(lms, width, height) == lms
  {
    DetectPoseAccepts(lms);
    SubstitutionEffect(lms, width, height);
  }

  /** The substitution loop of `predict_size`, updating the dictionary in
      place for each missing landmark. */
  method SubstituteRequired(lms: Landmarks, width: nat, height: nat) returns (r: Landmarks)
    ensures r == Substituted(lms, width, height)
  {
    var missing := MissingLandmarks(lms, 0.1);
    r := lms;
    for i := 0 to |missing|
      invariant forall k :: k in r <==> k in lms || k in missing[..i]
      invariant forall k :: k in r ==> r[k] == if k in missing[..i] then Fixed(lms, k, width, height) else lms[k]
    {
      var k := missing[i];
      assert missing[..i + 1] == missing[..i] + [k];
      var before := r;
      if k !in r {
        r := r[k := Landmark(width as real / 2.0, height as real / 2.0, 0.0, 0.1)];
      } else {
        r := r[k := r[k].(visibility := 0.1)];
      }
      SubstituteStep(lms, width, height, before, missing[..i], k, r);
    }
    assert missing[..|missing|] == missing;
    SubstitutedByLoop(lms, width, height, missing, r);
  }

  /** One turn of the substitution loop fixes `k` and leaves the rest. */
  lemma SubstituteStep(lms: Landmarks, width: nat, height: nat, r: Landmarks, done: seq<Keypoint>,
                       k: Keypoint, r': Landmarks)
    requires forall j :: j in r <==> j in lms || j in done
    requires forall j :: j in r ==> r[j] == if j in done then Fixed(lms, j, width, height) else lms[j]
    requires r' == if k !in r then r[k := Landmark(width as real / 2.0, height as real / 2.0, 0.0, 0.1)]
                   else r[k := r[k].(visibility := 0.1)]
    ensures forall j :: j in r' <==> j in lms || j in done + [k]
    ensures forall j :: j in r' ==> r'[j] == if j in done + [k] then Fixed(lms, j, width, height) else lms[j]
  {
  }

  /** After the loop over the weak required landmarks the dictionary is
      the substituted one. */
  lemma SubstitutedByLoop(lms: Landmarks, width: nat, height: nat, missing: seq<Keypoint>, r: Landmarks)
    requires missing == Missing(lms, Required, 0.1)
    requires forall k :: k in r <==> k in lms || k in missing
    requires forall k :: k in r ==> r[k] == if k in missing then Fixed(lms, k, width, height) else lms[k]
    ensures r == Substituted(lms, width, height)
  {
    var s := Substituted(lms, width, height);
    assert r.Keys == s.Keys;
  }

  /** The six points the measurement reads. */
  function FrontOf(lms: Landmarks): FrontLandmarks
    requires forall k :: k in Required ==> k in lms
  {
    assert LeftShoulder in Required && RightShoulder in Required && LeftHip in Required;
    assert RightHip in Required && LeftKnee in Required && LeftAnkle in Required;
    FrontLandmarks(lms[LeftShoulder].Pos(), lms[RightShoulder].Pos(), lms[LeftHip].Pos(),
                   lms[RightHip].Pos(), lms[LeftKnee].Pos(), lms[LeftAnkle].Pos())
  }

  /** Per-bucket (hip, waist, bust) circumference multipliers. */
  datatype Multipliers = Multipliers(hip: real, waist: real, bust: real)

  function CircumferenceMultipliers(bt: BodyType): Multipliers {
    match bt
    case VeryAthletic => Multipliers(2.25, 2.15, 2.45)
    case Athletic => Multipliers(2.3, 2.2, 2.4)
    case SlightlyAthletic => Multipliers(2.4, 2.3, 2.45)
    case Balanced => Multipliers(2.5, 2.4, 2.5)
    case SlightlyPear => Multipliers(2.6, 2.35, 2.35)
    case Pear => Multipliers(2.7, 2.4, 2.3)
  }

  /** The wider the hips relative to the shoulders, the larger the hip
      multiplier; every multiplier lies between 2.15 and 2.7. */
  lemma HipMultiplierNonIncreasing(r1: real, r2: real)
    requires r1 <= r2
    ensures CircumferenceMultipliers(Classify(r2)).hip <= CircumferenceMultipliers(Classify(r1)).hip
    ensures forall bt: BodyType ::
      && 2.15 <= CircumferenceMultipliers(bt).hip <= 2.7
      && 2.15 <= CircumferenceMultipliers(bt).waist <= 2.7
      && 2.15 <= CircumferenceMultipliers(bt).bust <= 2.7
  {
  }

  /** The height guess when no height is given: shoulder width times 4.8
      for "athletic", 5.2 for "pear" and 5.0 for every other bucket,
      raised by 8% when the ratio exceeds 1.0.  The shoulder width is in
      pixels, so the guess is too. */
  function EstimatedHeight(bt: BodyType, ratio: real, shoulder: real): real {
    var perShoulder := if bt == Athletic then 4.8 else if bt == Pear then 5.2 else 5.0;
    var estimate := shoulder * perShoulder;
    if ratio > 1.0 then estimate * 1.08 else estimate
  }

  /** For any bucket and ratio the estimate is between 4.8 and 5.616
      times the shoulder width.  For the bucket the ratio actually falls in
      it is between 5.0 and 5.4 times: "athletic" always has a ratio above
      1.0 (5.184) and "pear" never does (5.2). */
  lemma EstimatedHeightBounds(bt: BodyType, ratio: real, shoulder: real)
    requires 0.0 < shoulder
    ensures 4.8 * shoulder <= EstimatedHeight(bt, ratio, shoulder) <= 5.616 * shoulder
    ensures bt == Balanced || bt == SlightlyAthletic || bt == VeryAthletic || bt == SlightlyPear ==>
      EstimatedHeight(bt, ratio, shoulder) == (if ratio > 1.0 then 5.4 else 5.0) * shoulder
    ensures bt == Classify(ratio) ==>
      && 5.0 * shoulder <= EstimatedHeight(bt, ratio, shoulder) <= 5.4 * shoulder
      && (bt == Athletic ==> EstimatedHeight(bt, ratio, shoulder) == 5.184 * shoulder)
      && (bt == Pear ==> EstimatedHeight(bt, ratio, shoulder) == 5.2 * shoulder)
  {
  }

  /** `if height_cm:` — a zero height counts as not given. */
  function HeightUsed(heightCm: real, bt: BodyType, ratio: real, shoulder: real): real {
    if heightCm != 0.0 then heightCm else EstimatedHeight(bt, ratio, shoulder)
  }

  /** The measurements `predict_size` reports (before rounding). */
  datatype Circumferences = Circumferences(waist: real, hip: real, inseam: real, bust: real)

  /** Steps 2 to 7 of `predict_size` once the pixel distances are known. */
  function LiveAssemble(hip: real, shoulder: real, inseam: real, bodyHeight: real,
                        waist: real, heightCm: real): Circumferences
    requires hip != 0.0 && bodyHeight != 0.0
  {
    var ratio := shoulder / hip;
    var bt := Classify(ratio);
    var scaling := HeightUsed(heightCm, bt, ratio, shoulder) / bodyHeight;
    var m := CircumferenceMultipliers(bt);
    Circumferences(waist * scaling * m.waist, hip * scaling * m.hip, inseam * scaling,
                   BustWidth(bt, shoulder, hip) * scaling * m.bust)
  }

  /** The live measurement of `predict_size` from the six points. */
  function LiveMeasure(sqrt: real -> real, p: FrontLandmarks, heightCm: real): (c: Circumferences)
    requires IsSqrt(sqrt)
    requires 0.0 < HipWidth(sqrt, p) && 0.0 < BodyHeightPx(sqrt, p)
    ensures 0.0 < heightCm ==> 0.0 < c.hip && 0.0 <= c.waist && 0.0 <= c.inseam
  {
    var hip := HipWidth(sqrt, p);
    var shoulder := ShoulderWidth(sqrt, p);
    var offset := WaistOffset(Classify(shoulder / hip));
    var c := LiveAssemble(hip, shoulder, InseamPx(sqrt, p), BodyHeightPx(sqrt, p),
                          WaistWidth(sqrt, p, offset), heightCm);
    LiveSigns(hip, shoulder, InseamPx(sqrt, p), BodyHeightPx(sqrt, p),
              WaistWidth(sqrt, p, offset), heightCm);
    c
  }

  lemma LiveSigns(hip: real, shoulder: real, inseam: real, bodyHeight: real,
                  waist: real, heightCm: real)
    requires 0.0 < hip && 0.0 < bodyHeight && 0.0 <= inseam && 0.0 <= waist
    ensures 0.0 < heightCm ==>
      var c := LiveAssemble(hip, shoulder, inseam, bodyHeight, waist, heightCm);
      0.0 < c.hip && 0.0 <= c.waist && 0.0 <= c.inseam
  {
    if 0.0 < heightCm {
      var bt := Classify(shoulder / hip);
      var scaling := heightCm / bodyHeight;
      var m := CircumferenceMultipliers(bt);
      assert 0.0 < scaling;
      PositiveProduct(hip, scaling);
      PositiveProduct(hip * scaling, m.hip);
      NonNegativeProduct(waist, scaling);
      NonNegativeProduct(waist * scaling, m.waist);
      NonNegativeProduct(inseam, scaling);
    }
  }

  /** `c` is what the live copy reports for the measurements `m` of
      `calculate_body_measurements`: each circumference is the width times
      the scaling factor times the bucket's multiplier, and the inseam is
      the same. */
  predicate AgreesWith(c: Circumferences, m: Measurements) {
    var k := CircumferenceMultipliers(m.bodyType);
    && c.hip == m.hipWidthPx * m.scalingFactor * k.hip
    && c.waist == m.waistWidthPx * m.scalingFactor * k.waist
    && c.bust == m.bustWidthPx * m.scalingFactor * k.bust
    && c.inseam == m.inseamCm
  }

  lemma AssembledAgree(hip: real, shoulder: real, inseam: real, bodyHeight: real,
                       waist: real, heightCm: real)
    requires hip != 0.0 && bodyHeight != 0.0 && heightCm != 0.0
    ensures AgreesWith(LiveAssemble(hip, shoulder, inseam, bodyHeight, waist, heightCm),
                       Assemble(hip, shoulder, inseam, bodyHeight, waist, heightCm))
  {
  }

  /** With a height given, the live copy agrees with
      `calculate_body_measurements`: the same bucket, widths, scaling
      factor and inseam. */
  lemma LiveAgreesWithCalculate(sqrt: real -> real, p: FrontLandmarks, heightCm: real)
    requires IsSqrt(sqrt)
    requires 0.0 < HipWidth(sqrt, p) && 0.0 < BodyHeightPx(sqrt, p)
    requires heightCm != 0.0
    ensures AgreesWith(LiveMeasure(sqrt, p, heightCm), CalculateBodyMeasurements(sqrt, p, heightCm))
  {
    var offset := WaistOffset(Classify(ShoulderWidth(sqrt, p) / HipWidth(sqrt, p)));
    AssembledAgree(HipWidth(sqrt, p), ShoulderWidth(sqrt, p), InseamPx(sqrt, p), BodyHeightPx(sqrt, p),
                   WaistWidth(sqrt, p, offset), heightCm);
  }

  /** With every pixel length scaled by `k` and the height given, the
      estimated circumferences do not change. */
  lemma GivenHeightScales(k: real, hip: real, shoulder: real, inseam: real, bodyHeight: real,
      waist: real, heightCm: real,
      hip': real, shoulder': real, inseam': real, bodyHeight': real, waist': real)
    requires ZoomedLengths(k, hip, shoulder, inseam, bodyHeight, waist, hip', shoulder', inseam', bodyHeight', waist')
    requires heightCm != 0.0
    ensures hip' != 0.0 && bodyHeight' != 0.0
    ensures LiveAssemble(hip', shoulder', inseam', bodyHeight', waist', heightCm)
         == LiveAssemble(hip, shoulder, inseam, bodyHeight, waist, heightCm)
  {
    GivenHip(k, hip, shoulder, inseam, bodyHeight, waist, heightCm, hip', shoulder', inseam', bodyHeight', waist');
    GivenWaist(k, hip, shoulder, inseam, bodyHeight, waist, heightCm, hip', shoulder', inseam', bodyHeight', waist');
    GivenInseam(k, hip, shoulder, inseam, bodyHeight, waist, heightCm, hip', shoulder', inseam', bodyHeight', waist');
    GivenBust(k, hip, shoulder, inseam, bodyHeight, waist, heightCm, hip', shoulder', inseam', bodyHeight', waist');
  }

  lemma GivenHip(k: real, hip: real, shoulder: real, inseam: real, bodyHeight: real,
      waist: real, heightCm: real,
      hip': real, shoulder': real, inseam': real, bodyHeight': real, waist': real)
    requires ZoomedLengths(k, hip, shoulder, inseam, bodyHeight, waist, hip', shoulder', inseam', bodyHeight', waist')
    requires heightCm != 0.0
    ensures hip' != 0.0 && bodyHeight' != 0.0
    ensures LiveAssemble(hip', shoulder', inseam', bodyHeight', waist', heightCm).hip
         == LiveAssemble(hip, shoulder, inseam, bodyHeight, waist, heightCm).hip
  {
    assert hip' != 0.0 && bodyHeight' != 0.0 && shoulder' / hip' == shoulder / hip by {
      RatioOfScaled(k, shoulder, hip);
    }
    var bt := Classify(shoulder / hip);
    GivenFactor(k, hip, heightCm, bodyHeight, CircumferenceMultipliers(bt).hip);
  }

  lemma GivenWaist(k: real, hip: real, shoulder: real, inseam: real, bodyHeight: real,
      waist: real, heightCm: real,
      hip': real, shoulder': real, inseam': real, bodyHeight': real, waist': real)
    requires ZoomedLengths(k, hip, shoulder, inseam, bodyHeight, waist, hip', shoulder', inseam', bodyHeight', waist')
    requires heightCm != 0.0
    ensures hip' != 0.0 && bodyHeight' != 0.0
    ensures LiveAssemble(hip', shoulder', inseam', bodyHeight', waist', heightCm).waist
         == LiveAssemble(hip, shoulder, inseam, bodyHeight, waist, heightCm).waist
  {
    assert hip' != 0.0 && bodyHeight' != 0.0 && shoulder' / hip' == shoulder / hip by {
      RatioOfScaled(k, shoulder, hip);
    }
    var bt := Classify(shoulder / hip);
    GivenFactor(k, waist, heightCm, bodyHeight, CircumferenceMultipliers(bt).waist);
  }

  lemma GivenInseam(k: real, hip: real, shoulder: real, inseam: real, bodyHeight: real,
      waist: real, heightCm: real,
      hip': real, shoulder': real, inseam': real, bodyHeight': real, waist': real)
    requires ZoomedLengths(k, hip, shoulder, inseam, bodyHeight, waist, hip', shoulder', inseam', bodyHeight', waist')
    requires heightCm != 0.0
    ensures hip' != 0.0 && bodyHeight' != 0.0
    ensures LiveAssemble(hip', shoulder', inseam', bodyHeight', waist', heightCm).inseam
         == LiveAssemble(hip, shoulder, inseam, bodyHeight, waist, heightCm).inseam
  {
    assert hip' != 0.0 && bodyHeight' != 0.0 && shoulder' / hip' == shoulder / hip by {
      RatioOfScaled(k, shoulder, hip);
    }
    var bt := Classify(shoulder / hip);
    RescaledFactor(k, inseam, heightCm, bodyHeight);
  }

  lemma GivenBust(k: real, hip: real, shoulder: real, inseam: real, bodyHeight: real,
      waist: real, heightCm: real,
      hip': real, shoulder': real, inseam': real, bodyHeight': real, waist': real)
    requires ZoomedLengths(k, hip, shoulder, inseam, bodyHeight, waist, hip', shoulder', inseam', bodyHeight', waist')
    requires heightCm != 0.0
    ensures hip' != 0.0 && bodyHeight' != 0.0
    ensures LiveAssemble(hip', shoulder', inseam', bodyHeight', waist', heightCm).bust
         == LiveAssemble(hip, shoulder, inseam, bodyHeight, waist, heightCm).bust
  {
    assert hip' != 0.0 && bodyHeight' != 0.0 && shoulder' / hip' == shoulder / hip by {
      RatioOfScaled(k, shoulder, hip);
    }
    var bt := Classify(shoulder / hip);
    ScaledBust(bt, shoulder, hip, k);
    GivenFactor(k, BustWidth(bt, shoulder, hip), heightCm, bodyHeight, CircumferenceMultipliers(bt).bust);
  }

  lemma GivenFactor(k: real, w: real, h: real, b: real, m: real)
    requires 0.0 < k && b != 0.0
    ensures (k * w) * (h / (k * b)) * m == w * (h / b) * m
  {
    RescaledFactor(k, w, h, b);
  }

  /** ... while the height estimate scales them by `k`. */
  lemma EstimatedHeightScales(k: real, hip: real, shoulder: real, inseam: real, bodyHeight: real, waist: real,
      hip': real, shoulder': real, inseam': real, bodyHeight': real, waist': real)
    requires ZoomedLengths(k, hip, shoulder, inseam, bodyHeight, waist, hip', shoulder', inseam', bodyHeight', waist')
    ensures hip' != 0.0 && bodyHeight' != 0.0
    ensures Zoomed(LiveAssemble(hip', shoulder', inseam', bodyHeight', waist', 0.0),
                   LiveAssemble(hip, shoulder, inseam, bodyHeight, waist, 0.0), k)
  {
    assert hip' != 0.0 && bodyHeight' != 0.0;
    EstimatedHip(k, hip, shoulder, inseam, bodyHeight, waist, hip', shoulder', inseam', bodyHeight', waist');
    EstimatedWaist(k, hip, shoulder, inseam, bodyHeight, waist, hip', shoulder', inseam', bodyHeight', waist');
    EstimatedInseam(k, hip, shoulder, inseam, bodyHeight, waist, hip', shoulder', inseam', bodyHeight', waist');
    EstimatedBust(k, hip, shoulder, inseam, bodyHeight, waist, hip', shoulder', inseam', bodyHeight', waist');
  }

  /** The estimated scaling factor does not change with the zoom. */
  lemma EstimatedScaling(k: real, hip: real, shoulder: real, inseam: real, bodyHeight: real, waist: real,
      hip': real, shoulder': real, inseam': real, bodyHeight': real, waist': real)
    requires ZoomedLengths(k, hip, shoulder, inseam, bodyHeight, waist, hip', shoulder', inseam', bodyHeight', waist')
    ensures hip' != 0.0 && bodyHeight' != 0.0
    ensures shoulder' / hip' == shoulder / hip
    ensures HeightUsed(0.0, Classify(shoulder / hip), shoulder / hip, shoulder') / bodyHeight'
         == HeightUsed(0.0, Classify(shoulder / hip), shoulder / hip, shoulder) / bodyHeight
  {
    assert hip' != 0.0 && bodyHeight' != 0.0;
    RatioOfScaled(k, shoulder, hip);
    var bt := Classify(shoulder / hip);
    var e := EstimatedHeight(bt, shoulder / hip, shoulder);
    assert EstimatedHeight(bt, shoulder / hip, shoulder') == k * e;
    RatioOfScaled(k, e, bodyHeight);
  }

  lemma EstimatedHip(k: real, hip: real, shoulder: real, inseam: real, bodyHeight: real, waist: real,
      hip': real, shoulder': real, inseam': real, bodyHeight': real, waist': real)
    requires ZoomedLengths(k, hip, shoulder, inseam, bodyHeight, waist, hip', shoulder', inseam', bodyHeight', waist')
    ensures hip' != 0.0 && bodyHeight' != 0.0
    ensures LiveAssemble(hip', shoulder', inseam', bodyHeight', waist', 0.0).hip
         == k * LiveAssemble(hip, shoulder, inseam, bodyHeight, waist, 0.0).hip
  {
    var bt := Classify(shoulder / hip);
    var s := HeightUsed(0.0, bt, shoulder / hip, shoulder) / bodyHeight;
    EstimatedScaling(k, hip, shoulder, inseam, bodyHeight, waist, hip', shoulder', inseam', bodyHeight', waist');
    var bt' := Classify(shoulder' / hip');
    var s' := HeightUsed(0.0, bt', shoulder' / hip', shoulder') / bodyHeight';
    AssembledTerms(hip, shoulder, inseam, bodyHeight, waist, 0.0, bt, s);
    AssembledTerms(hip', shoulder', inseam', bodyHeight', waist', 0.0, bt', s');
    ZoomTerm(k, LiveAssemble(hip, shoulder, inseam, bodyHeight, waist, 0.0).hip,
             LiveAssemble(hip', shoulder', inseam', bodyHeight', waist', 0.0).hip,
             hip, hip', s, s', CircumferenceMultipliers(bt).hip, CircumferenceMultipliers(bt').hip);
  }

  lemma EstimatedWaist(k: real, hip: real, shoulder: real, inseam: real, bodyHeight: real, waist: real,
      hip': real, shoulder': real, inseam': real, bodyHeight': real, waist': real)
    requires ZoomedLengths(k, hip, shoulder, inseam, bodyHeight, waist, hip', shoulder', inseam', bodyHeight', waist')
    ensures hip' != 0.0 && bodyHeight' != 0.0
    ensures LiveAssemble(hip', shoulder', inseam', bodyHeight', waist', 0.0).waist
         == k * LiveAssemble(hip, shoulder, inseam, bodyHeight, waist, 0.0).waist
  {
    var bt := Classify(shoulder / hip);
    var s := HeightUsed(0.0, bt, shoulder / hip, shoulder) / bodyHeight;
    EstimatedScaling(k, hip, shoulder, inseam, bodyHeight, waist, hip', shoulder', inseam', bodyHeight', waist');
    var bt' := Classify(shoulder' / hip');
    var s' := HeightUsed(0.0, bt', shoulder' / hip', shoulder') / bodyHeight';
    AssembledTerms(hip, shoulder, inseam, bodyHeight, waist, 0.0, bt, s);
    AssembledTerms(hip', shoulder', inseam', bodyHeight', waist', 0.0, bt', s');
    ZoomTerm(k, LiveAssemble(hip, shoulder, inseam, bodyHeight, waist, 0.0).waist,
             LiveAssemble(hip', shoulder', inseam', bodyHeight', waist', 0.0).waist,
             waist, waist', s, s', CircumferenceMultipliers(bt).waist, CircumferenceMultipliers(bt').waist);
  }

  lemma EstimatedInseam(k: real, hip: real, shoulder: real, inseam: real, bodyHeight: real, waist: real,
      hip': real, shoulder': real, inseam': real, bodyHeight': real, waist': real)
    requires ZoomedLengths(k, hip, shoulder, inseam, bodyHeight, waist, hip', shoulder', inseam', bodyHeight', waist')
    ensures hip' != 0.0 && bodyHeight' != 0.0
    ensures LiveAssemble(hip', shoulder', inseam', bodyHeight', waist', 0.0).inseam
         == k * LiveAssemble(hip, shoulder, inseam, bodyHeight, waist, 0.0).inseam
  {
    var bt := Classify(shoulder / hip);
    var s := HeightUsed(0.0, bt, shoulder / hip, shoulder) / bodyHeight;
    EstimatedScaling(k, hip, shoulder, inseam, bodyHeight, waist, hip', shoulder', inseam', bodyHeight', waist');
    var bt' := Classify(shoulder' / hip');
    var s' := HeightUsed(0.0, bt', shoulder' / hip', shoulder') / bodyHeight';
    AssembledTerms(hip, shoulder, inseam, bodyHeight, waist, 0.0, bt, s);
    AssembledTerms(hip', shoulder', inseam', bodyHeight', waist', 0.0, bt', s');
    ZoomTerm(k, LiveAssemble(hip, shoulder, inseam, bodyHeight, waist, 0.0).inseam,
             LiveAssemble(hip', shoulder', inseam', bodyHeight', waist', 0.0).inseam,
             inseam, inseam', s, s', 1.0, 1.0);
  }

  lemma EstimatedBust(k: real, hip: real, shoulder: real, inseam: real, bodyHeight: real, waist: real,
      hip': real, shoulder': real, inseam': real, bodyHeight': real, waist': real)
    requires ZoomedLengths(k, hip, shoulder, inseam, bodyHeight, waist, hip', shoulder', inseam', bodyHeight', waist')
    ensures hip' != 0.0 && bodyHeight' != 0.0
    ensures LiveAssemble(hip', shoulder', inseam', bodyHeight', waist', 0.0).bust
         == k * LiveAssemble(hip, shoulder, inseam, bodyHeight, waist, 0.0).bust
  {
    var bt := Classify(shoulder / hip);
    var s := HeightUsed(0.0, bt, shoulder / hip, shoulder) / bodyHeight;
    EstimatedScaling(k, hip, shoulder, inseam, bodyHeight, waist, hip', shoulder', inseam', bodyHeight', waist');
    var bt' := Classify(shoulder' / hip');
    var s' := HeightUsed(0.0, bt', shoulder' / hip', shoulder') / bodyHeight';
    AssembledTerms(hip, shoulder, inseam, bodyHeight, waist, 0.0, bt, s);
    AssembledTerms(hip', shoulder', inseam', bodyHeight', waist', 0.0, bt', s');
    BustZoom(k, bt, bt', shoulder, hip, shoulder', hip', s, s',
             LiveAssemble(hip, shoulder, inseam, bodyHeight, waist, 0.0).bust,
             LiveAssemble(hip', shoulder', inseam', bodyHeight', waist', 0.0).bust);
  }

  lemma BustZoom(k: real, bt: BodyType, bt': BodyType, shoulder: real, hip: real, shoulder': real, hip': real,
                 s: real, s': real, x: real, x': real)
    requires shoulder' == k * shoulder && hip' == k * hip && bt' == bt && s' == s
    requires x == BustWidth(bt, shoulder, hip) * s * CircumferenceMultipliers(bt).bust
    requires x' == BustWidth(bt', shoulder', hip') * s' * CircumferenceMultipliers(bt').bust
    ensures x' == k * x
  {
    ScaledBust(bt, shoulder, hip, k);
  }

  /** The four terms of `LiveAssemble` for a known bucket and scaling factor. */
  lemma AssembledTerms(hip: real, shoulder: real, inseam: real, bodyHeight: real, waist: real, heightCm: real,
                       bt: BodyType, s: real)
    requires hip != 0.0 && bodyHeight != 0.0
    requires bt == Classify(shoulder / hip)
    requires s == HeightUsed(heightCm, bt, shoulder / hip, shoulder) / bodyHeight
    ensures LiveAssemble(hip, shoulder, inseam, bodyHeight, waist, heightCm).hip
         == hip * s * CircumferenceMultipliers(bt).hip
    ensures LiveAssemble(hip, shoulder, inseam, bodyHeight, waist, heightCm).waist
         == waist * s * CircumferenceMultipliers(bt).waist
    ensures LiveAssemble(hip, shoulder, inseam, bodyHeight, waist, heightCm).inseam == inseam * s * 1.0
    ensures LiveAssemble(hip, shoulder, inseam, bodyHeight, waist, heightCm).bust
         == BustWidth(bt, shoulder, hip) * s * CircumferenceMultipliers(bt).bust
  {
  }

  /** One term `w * s * m` with `w` multiplied by `k`. */
  lemma ZoomTerm(k: real, x: real, x': real, w: real, w': real, s: real, s': real, m: real, m': real)
    requires x == w * s * m && x' == w' * s' * m' && w' == k * w && s' == s && m' == m
    ensures x' == k * x
  {
  }

  /** `z` is `c` with every length multiplied by `k`. */
  predicate Zoomed(z: Circumferences, c: Circumferences, k: real) {
    && z.waist == k * c.waist && z.hip == k * c.hip
    && z.inseam == k * c.inseam && z.bust == k * c.bust
  }

  /** Photographing the same pose at another resolution (all points scaled
      by `k`) gives the same circumferences when the height is given, but
      circumferences scaled by `k` when it is not: the estimate is in
      pixels, not centimetres. */
  lemma LiveMeasureAndImageScale(sqrt: real -> real, p: FrontLandmarks, heightCm: real, k: real)
    requires IsSqrt(sqrt) && 0.0 < k
    requires 0.0 < HipWidth(sqrt, p) && 0.0 < BodyHeightPx(sqrt, p)
    ensures 0.0 < HipWidth(sqrt, ScaleLandmarks(k, p)) && 0.0 < BodyHeightPx(sqrt, ScaleLandmarks(k, p))
    ensures heightCm != 0.0 ==>
      LiveMeasure(sqrt, ScaleLandmarks(k, p), heightCm) == LiveMeasure(sqrt, p, heightCm)
    ensures heightCm == 0.0 ==>
      Zoomed(LiveMeasure(sqrt, ScaleLandmarks(k, p), heightCm), LiveMeasure(sqrt, p, heightCm), k)
  {
    var q := ScaleLandmarks(k, p);
    MeasuredLengthsZoom(sqrt, p, k);
    LiveIsAssembled(sqrt, p, heightCm);
    LiveIsAssembled(sqrt, q, heightCm);
    if heightCm != 0.0 {
      GivenHeightScales(k, HipWidth(sqrt, p), ShoulderWidth(sqrt, p), InseamPx(sqrt, p),
                        BodyHeightPx(sqrt, p), WaistAtOwnOffset(sqrt, p), heightCm,
                        HipWidth(sqrt, q), ShoulderWidth(sqrt, q), InseamPx(sqrt, q),
                        BodyHeightPx(sqrt, q), WaistAtOwnOffset(sqrt, q));
    } else {
      EstimatedHeightScales(k, HipWidth(sqrt, p), ShoulderWidth(sqrt, p), InseamPx(sqrt, p),
                            BodyHeightPx(sqrt, p), WaistAtOwnOffset(sqrt, p),
                            HipWidth(sqrt, q), ShoulderWidth(sqrt, q), InseamPx(sqrt, q),
                            BodyHeightPx(sqrt, q), WaistAtOwnOffset(sqrt, q));
    }
  }

  /** `LiveMeasure` is the arithmetic applied to the distances it measures. */
  lemma LiveIsAssembled(sqrt: real -> real, p: FrontLandmarks, heightCm: real)
    requires IsSqrt(sqrt)
    requires 0.0 < HipWidth(sqrt, p) && 0.0 < BodyHeightPx(sqrt, p)
    ensures LiveMeasure(sqrt, p, heightCm)
              == LiveAssemble(HipWidth(sqrt, p), ShoulderWidth(sqrt, p), InseamPx(sqrt, p),
                              BodyHeightPx(sqrt, p), WaistAtOwnOffset(sqrt, p), heightCm)
  {
  }

  /** `SIZE_CHARTS`: the parsed file, or `{}` when loading failed. */
  function LoadedCharts(loaded: Option<SizeCharts>): SizeCharts {
    loaded.GetOr(map[])
  }

  /** The us/eu/uk triple of one garment in the response. */
  datatype GarmentSizes = GarmentSizes(us: string, eu: string, uk: string)

  datatype SizeReport = SizeReport(jeans: GarmentSizes, dress: GarmentSizes, skirt: GarmentSizes)

  /** One garment's sizes: the resolver's code and the EU/UK values of the
      details found for it, or "" when there are none. */
  function GarmentReport(g: Garment, t: Target, charts: SizeCharts): (r: Result<GarmentSizes>)
    ensures r.Ok? <==> ResolveText(g, t, charts).Ok?
    ensures r.Ok? ==> r.value.us == ResolveText(g, t, charts).value
    ensures r.Ok? && SizeDetails(g, r.value.us, charts).None? ==> r.value.eu == "" && r.value.uk == ""
    ensures r.Ok? && SizeDetails(g, r.value.us, charts).Some? ==>
      && r.value.eu == SizeDetails(g, r.value.us, charts).value.euSize
      && r.value.uk == SizeDetails(g, r.value.us, charts).value.ukSize
    ensures r.Err? ==> r.error == ZeroDivision
  {
    match ResolveText(g, t, charts)
    case Err(e) => Err(e)
    case Ok(us) =>
      match SizeDetails(g, us, charts)
      case Some(d) => Ok(GarmentSizes(us, d.euSize, d.ukSize))
      case None => Ok(GarmentSizes(us, "", ""))
  }

  /** The `sizes` part of the response for the measured circumferences. */
  function PredictSizes(loaded: Option<SizeCharts>, c: Circumferences): (r: Result<SizeReport>)
    ensures r.Ok? <==>
      && GarmentReport(Jeans, Target(c.bust, c.waist, c.hip), LoadedCharts(loaded)).Ok?
      && GarmentReport(Dresses, Target(c.bust, c.waist, c.hip), LoadedCharts(loaded)).Ok?
      && GarmentReport(Skirts, Target(c.bust, c.waist, c.hip), LoadedCharts(loaded)).Ok?
    ensures r.Ok? ==>
      && GarmentReport(Jeans, Target(c.bust, c.waist, c.hip), LoadedCharts(loaded)) == Ok(r.value.jeans)
      && GarmentReport(Dresses, Target(c.bust, c.waist, c.hip), LoadedCharts(loaded)) == Ok(r.value.dress)
      && GarmentReport(Skirts, Target(c.bust, c.waist, c.hip), LoadedCharts(loaded)) == Ok(r.value.skirt)
    ensures r.Err? ==> r.error == ZeroDivision
  {
    var charts := LoadedCharts(loaded);
    var t := Target(c.bust, c.waist, c.hip);
    match GarmentReport(Jeans, t, charts)
    case Err(e) => Err(e)
    case Ok(jeans) =>
      match GarmentReport(Dresses, t, charts)
      case Err(e) => Err(e)
      case Ok(dress) =>
        match GarmentReport(Skirts, t, charts)
        case Err(e) => Err(e)
        case Ok(skirt) => Ok(SizeReport(jeans, dress, skirt))
  }

  /** When the chart file could not be loaded every size field is "". */
  lemma NoChartsNoSizes(c: Circumferences)
    ensures PredictSizes(None, c) == Ok(SizeReport(GarmentSizes("", "", ""), GarmentSizes("", "", ""),
                                                   GarmentSizes("", "", "")))
  {
    var t := Target(c.bust, c.waist, c.hip);
    EmptyCategoryHasNoSize(Jeans, t, map[]);
    EmptyCategoryHasNoSize(Dresses, t, map[]);
    EmptyCategoryHasNoSize(Skirts, t, map[]);
  }

  /** The whole response of `predict_size` before rounding. */
  datatype Prediction = Prediction(measurements: Circumferences, sizes: SizeReport)

  /** Measuring and sizing once the required landmarks are in place. */
  function MeasureAndSize(sqrt: real -> real, loaded: Option<SizeCharts>, lms: Landmarks,
                          heightCm: real): (r: Result<Prediction>)
    requires IsSqrt(sqrt)
    requires forall k :: k in Required ==> k in lms
    requires 0.0 < HipWidth(sqrt, FrontOf(lms)) && 0.0 < BodyHeightPx(sqrt, FrontOf(lms))
    ensures r.Err? ==> r.error == ZeroDivision
    ensures r.Ok? ==> r.value.measurements == LiveMeasure(sqrt, FrontOf(lms), heightCm)
    ensures r.Ok? <==> PredictSizes(loaded, LiveMeasure(sqrt, FrontOf(lms), heightCm)).Ok?
    ensures r.Ok? ==> PredictSizes(loaded, r.value.measurements) == Ok(r.value.sizes)
  {
    var c := LiveMeasure(sqrt, FrontOf(lms), heightCm);
    match PredictSizes(loaded, c)
    case Err(e) => Err(e)
    case Ok(s) => Ok(Prediction(c, s))
  }

  /** `predict_size` after detection: reject an empty landmark dictionary,
      substitute the weak required landmarks, measure, and size. */
  function PredictSize(sqrt: real -> real, loaded: Option<SizeCharts>, lms: Landmarks,
                       width: nat, height: nat, heightCm: real): (r: Result<Prediction>)
    requires IsSqrt(sqrt)
    requires lms != map[] ==>
      && 0.0 < HipWidth(sqrt, FrontOf(Substituted(lms, width, height)))
      && 0.0 < BodyHeightPx(sqrt, FrontOf(Substituted(lms, width, height)))
    ensures lms == map[] <==> r == Err(NoPersonDetected)
    ensures r.Err? && lms != map[] ==> r.error == ZeroDivision
    ensures r.Ok? ==>
      && r.value.measurements == LiveMeasure(sqrt, FrontOf(Substituted(lms, width, height)), heightCm)
      && PredictSizes(loaded, r.value.measurements) == Ok(r.value.sizes)
    ensures lms != map[] ==>
      (r.Ok? <==> PredictSizes(loaded, LiveMeasure(sqrt, FrontOf(Substituted(lms, width, height)), heightCm)).Ok?)
  {
    if lms == map[] then Err(NoPersonDetected)
    else MeasureAndSize(sqrt, loaded, Substituted(lms, width, height), heightCm)
  }

  /** The detector's dictionary is never empty, so a live detection never
      takes the "no person" branch. */
  lemma DetectedPoseIsNeverEmpty(peaks: seq<Peak>)
    requires |peaks| == |Keypoints|
    ensures LandmarksUpTo(peaks, |Keypoints|) != map[]
  {
    AllKeypointsPresent(peaks);
    assert Nose in LandmarksUpTo(peaks, |Keypoints|);
  }

  /** The status message of `/fixed-pose-mode-status`. */
  function FixedPoseMessage(enabled: bool, hasReference: bool): string {
    if enabled && hasReference then "Fixed pose mode is enabled and using reference pose"
    else if !enabled then "Fixed pose mode is disabled"
    else "Fixed pose mode is enabled but no reference pose has been set"
  }

  /** The message tells the three states apart and ignores the reference
      when the mode is off. */
  lemma FixedPoseMessageCases(e1: bool, r1: bool, e2: bool, r2: bool)
    ensures FixedPoseMessage(e1, r1) == FixedPoseMessage(e2, r2) <==>
      e1 == e2 && (e1 ==> r1 == r2)
  {
    var m1 := "Fixed pose mode is enabled and using reference pose";
    var m2 := "Fixed pose mode is disabled";
    var m3 := "Fixed pose mode is enabled but no reference pose has been set";
    assert |m2| < |m1| < |m3|;
  }
}
