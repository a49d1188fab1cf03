/** Keypoint post-processing of the OpenPose detector: turning the 18
    per-keypoint heat-map maxima into the landmark dictionary (with
    inference of missing points), and the constant connection list. */
module OpenPose {
  import opened Common

  /** The COCO keypoints, in `KEYPOINT_MAPPING` index order. */
  datatype Keypoint =
    | Nose | Neck
    | RightShoulder | RightElbow | RightWrist
    | LeftShoulder | LeftElbow | LeftWrist
    | RightHip | RightKnee | RightAnkle
    | LeftHip | LeftKnee | LeftAnkle
    | RightEye | LeftEye | RightEar | LeftEar
  {
    /** The key of `KEYPOINT_MAPPING` that names this keypoint. */
    function Index(): (i: nat)
      ensures i < |Keypoints| && Keypoints[i] == this
    {
      match this
      case Nose => 0
      case Neck => 1
      case RightShoulder => 2
      case RightElbow => 3
      case RightWrist => 4
      case LeftShoulder => 5
      case LeftElbow => 6
      case LeftWrist => 7
      case RightHip => 8
      case RightKnee => 9
      case RightAnkle => 10
      case LeftHip => 11
      case LeftKnee => 12
      case LeftAnkle => 13
      case RightEye => 14
      case LeftEye => 15
      case RightEar => 16
      case LeftEar => 17
    }

    /** The value of `KEYPOINT_MAPPING`: the landmark's dictionary key. */
    function Name(): string {
      match this
      case Nose => "NOSE"
      case Neck => "NECK"
      case RightShoulder => "RIGHT_SHOULDER"
      case RightElbow => "RIGHT_ELBOW"
      case RightWrist => "RIGHT_WRIST"
      case LeftShoulder => "LEFT_SHOULDER"
      case LeftElbow => "LEFT_ELBOW"
      case LeftWrist => "LEFT_WRIST"
      case RightHip => "RIGHT_HIP"
      case RightKnee => "RIGHT_KNEE"
      case RightAnkle => "RIGHT_ANKLE"
      case LeftHip => "LEFT_HIP"
      case LeftKnee => "LEFT_KNEE"
      case LeftAnkle => "LEFT_ANKLE"
      case RightEye => "RIGHT_EYE"
      case LeftEye => "LEFT_EYE"
      case RightEar => "RIGHT_EAR"
      case LeftEar => "LEFT_EAR"
    }
  }

  /** `KEYPOINT_MAPPING` read as a table from index to keypoint. */
  const Keypoints: seq<Keypoint> :=
    [Nose, Neck, RightShoulder, RightElbow, RightWrist, LeftShoulder, LeftElbow,
     LeftWrist, RightHip, RightKnee, RightAnkle, LeftHip, LeftKnee, LeftAnkle,
     RightEye, LeftEye, RightEar, LeftEar]

  /** The mapping is a bijection between 0..17 and the keypoints. */
  lemma KeypointsIndexed()
    ensures |Keypoints| == 18
    ensures forall i :: 0 <= i < |Keypoints| ==> Keypoints[i].Index() == i
  {
  }

  /** The landmark dictionary the detector returns. */
  type Landmarks = map<Keypoint, Landmark>

  /** The nested `is_valid`: present, visible above 0.1, and off both axes. */
  predicate IsValid(lms: Landmarks, k: Keypoint) {
    k in lms && lms[k].visibility > 0.1 && lms[k].x != 0.0 && lms[k].y != 0.0
  }

  /** A point at fraction `t` of the way from `a` to `b`. */
  function Between(a: Point, b: Point, t: real): Point {
    Point(a.x + (b.x - a.x) * t, a.y + (b.y - a.y) * t)
  }

  /** `Between(a, b, t)` lies on the segment, at `t` of its length from `a`. */
  lemma BetweenOnSegment(a: Point, b: Point, t: real)
    ensures SquaredDistance(a, Between(a, b, t)) == t * t * SquaredDistance(a, b)
    ensures SquaredDistance(Between(a, b, t), b) == (1.0 - t) * (1.0 - t) * SquaredDistance(a, b)
  {
    var dx, dy := b.x - a.x, b.y - a.y;
    assert Between(a, b, t).x - a.x == t * dx;
    assert Between(a, b, t).y - a.y == t * dy;
    assert b.x - Between(a, b, t).x == (1.0 - t) * dx;
    assert b.y - Between(a, b, t).y == (1.0 - t) * dy;
  }

  /** The anatomical rules of `_infer_missing_keypoint`; `None` when the
      keypoint has no rule or the rule's basis is not valid. */
  function AnatomicalRule(k: Keypoint, lms: Landmarks): Option<Point> {
    match k
    case Nose =>
      if IsValid(lms, LeftEye) && IsValid(lms, RightEye) then
        Some(Point((lms[LeftEye].x + lms[RightEye].x) / 2.0,
                   (lms[LeftEye].y + lms[RightEye].y) / 2.0 + 10.0))
      else None
    case Neck =>
      if IsValid(lms, LeftShoulder) && IsValid(lms, RightShoulder) then
        Some(Point((lms[LeftShoulder].x + lms[RightShoulder].x) / 2.0,
                   (lms[LeftShoulder].y + lms[RightShoulder].y) / 2.0 - 15.0))
      else None
    case RightShoulder =>
      if IsValid(lms, Neck) && IsValid(lms, RightElbow) then
        Some(Between(lms[Neck].Pos(), lms[RightElbow].Pos(), 0.25))
      else None
    case LeftShoulder =>
      if IsValid(lms, Neck) && IsValid(lms, LeftElbow) then
        Some(Between(lms[Neck].Pos(), lms[LeftElbow].Pos(), 0.25))
      else None
    case RightHip =>
      if IsValid(lms, RightKnee) && IsValid(lms, RightShoulder) then
        Some(Between(lms[RightShoulder].Pos(), lms[RightKnee].Pos(), 0.33))
      else None
    case LeftHip =>
      if IsValid(lms, LeftKnee) && IsValid(lms, LeftShoulder) then
        Some(Between(lms[LeftShoulder].Pos(), lms[LeftKnee].Pos(), 0.33))
      else None
    case _ => None
  }

  /** What each rule places, stated as geometry: nose and neck are centred
      between the eyes or shoulders (10 px lower, 15 px higher), a shoulder is
      a quarter of the way from the neck to its elbow, a hip 0.33 of the way
      from its shoulder to its knee, and no other keypoint has a rule. */
  lemma AnatomicalRuleMeaning(k: Keypoint, lms: Landmarks)
    ensures k == Nose && AnatomicalRule(k, lms).Some? ==>
      var p := AnatomicalRule(k, lms).value;
      && lms[LeftEye].x - p.x == p.x - lms[RightEye].x
      && p.y - 10.0 - lms[RightEye].y == lms[LeftEye].y - (p.y - 10.0)
    ensures k == Neck && AnatomicalRule(k, lms).Some? ==>
      var p := AnatomicalRule(k, lms).value;
      && lms[LeftShoulder].x - p.x == p.x - lms[RightShoulder].x
      && p.y + 15.0 - lms[RightShoulder].y == lms[LeftShoulder].y - (p.y + 15.0)
    ensures AnatomicalRule(k, lms).Some? <==>
      || (k == Nose && IsValid(lms, LeftEye) && IsValid(lms, RightEye))
      || (k == Neck && IsValid(lms, LeftShoulder) && IsValid(lms, RightShoulder))
      || (k == RightShoulder && IsValid(lms, Neck) && IsValid(lms, RightElbow))
      || (k == LeftShoulder && IsValid(lms, Neck) && IsValid(lms, LeftElbow))
      || (k == RightHip && IsValid(lms, RightKnee) && IsValid(lms, RightShoulder))
      || (k == LeftHip && IsValid(lms, LeftKnee) && IsValid(lms, LeftShoulder))
    ensures (k == RightShoulder || k == LeftShoulder) && AnatomicalRule(k, lms).Some? ==>
      var elbow := if k == RightShoulder then RightElbow else LeftElbow;
      SquaredDistance(lms[Neck].Pos(), AnatomicalRule(k, lms).value)
        == 0.0625 * SquaredDistance(lms[Neck].Pos(), lms[elbow].Pos())
    ensures (k == RightHip || k == LeftHip) && AnatomicalRule(k, lms).Some? ==>
      var shoulder := if k == RightHip then RightShoulder else LeftShoulder;
      var knee := if k == RightHip then RightKnee else LeftKnee;
      SquaredDistance(lms[shoulder].Pos(), AnatomicalRule(k, lms).value)
        == 0.1089 * SquaredDistance(lms[shoulder].Pos(), lms[knee].Pos())
  {
    if k == RightShoulder && AnatomicalRule(k, lms).Some? {
      BetweenOnSegment(lms[Neck].Pos(), lms[RightElbow].Pos(), 0.25);
    } else if k == LeftShoulder && AnatomicalRule(k, lms).Some? {
      BetweenOnSegment(lms[Neck].Pos(), lms[LeftElbow].Pos(), 0.25);
    } else if k == RightHip && AnatomicalRule(k, lms).Some? {
      BetweenOnSegment(lms[RightShoulder].Pos(), lms[RightKnee].Pos(), 0.33);
    } else if k == LeftHip && AnatomicalRule(k, lms).Some? {
      BetweenOnSegment(lms[LeftShoulder].Pos(), lms[LeftKnee].Pos(), 0.33);
    }
  }

  /** The `symmetric_pairs` table (right index, left index) before its
      reverse is added. */
  const SymmetricPairs: seq<(nat, nat)> :=
    [(2, 5), (3, 6), (4, 7), (8, 11), (9, 12), (10, 13), (14, 15), (16, 17)]

  /** The left/right counterpart of a keypoint, after the reverse pairs are
      added; the nose and the neck have none. */
  function Counterpart(k: Keypoint): Option<Keypoint> {
    match k
    case Nose => None
    case Neck => None
    case RightShoulder => Some(LeftShoulder)
    case RightElbow => Some(LeftElbow)
    case RightWrist => Some(LeftWrist)
    case LeftShoulder => Some(RightShoulder)
    case LeftElbow => Some(RightElbow)
    case LeftWrist => Some(RightWrist)
    case RightHip => Some(LeftHip)
    case RightKnee => Some(LeftKnee)
    case RightAnkle => Some(LeftAnkle)
    case LeftHip => Some(RightHip)
    case LeftKnee => Some(RightKnee)
    case LeftAnkle => Some(RightAnkle)
    case RightEye => Some(LeftEye)
    case LeftEye => Some(RightEye)
    case RightEar => Some(LeftEar)
    case LeftEar => Some(RightEar)
  }

  /** `Counterpart` is the table together with its reverse: every pair maps
      both ways, the nose and the neck (in no pair) have no counterpart, and
      the mapping is an involution without fixed points. */
  lemma CounterpartIsSymmetricTable(k: Keypoint)
    ensures forall j :: 0 <= j < |SymmetricPairs| ==>
      && Counterpart(Keypoints[SymmetricPairs[j].0]) == Some(Keypoints[SymmetricPairs[j].1])
      && Counterpart(Keypoints[SymmetricPairs[j].1]) == Some(Keypoints[SymmetricPairs[j].0])
    ensures Counterpart(k).None? <==> k == Nose || k == Neck
    ensures Counterpart(k).Some? ==>
      Counterpart(k).value != k && Counterpart(Counterpart(k).value) == Some(k)
  {
    forall j | 0 <= j < |SymmetricPairs|
      ensures Counterpart(Keypoints[SymmetricPairs[j].0]) == Some(Keypoints[SymmetricPairs[j].1])
      ensures Counterpart(Keypoints[SymmetricPairs[j].1]) == Some(Keypoints[SymmetricPairs[j].0])
    {
      PairCounterparts(j);
    }
  }

  lemma PairCounterparts(j: nat)
    requires j < |SymmetricPairs|
    ensures Counterpart(Keypoints[SymmetricPairs[j].0]) == Some(Keypoints[SymmetricPairs[j].1])
    ensures Counterpart(Keypoints[SymmetricPairs[j].1]) == Some(Keypoints[SymmetricPairs[j].0])
  {
    match j
    case 0 => case 1 => case 2 => case 3 => case 4 => case 5 => case 6 => case 7 =>
  }

  /** The midline x: the nose, else the neck, else the shoulders' midpoint,
      else the hips' midpoint. */
  function Midline(lms: Landmarks): Option<real> {
    if IsValid(lms, Nose) then Some(lms[Nose].x)
    else if IsValid(lms, Neck) then Some(lms[Neck].x)
    else if IsValid(lms, LeftShoulder) && IsValid(lms, RightShoulder) then
      Some((lms[LeftShoulder].x + lms[RightShoulder].x) / 2.0)
    else if IsValid(lms, LeftHip) && IsValid(lms, RightHip) then
      Some((lms[LeftHip].x + lms[RightHip].x) / 2.0)
    else None
  }

  /** The symmetry step: mirror the valid counterpart across the midline. */
  function Reflect(k: Keypoint, lms: Landmarks): Option<Point> {
    match Counterpart(k)
    case None => None
    case Some(c) =>
      if IsValid(lms, c) then
        match Midline(lms)
        case None => None
        case Some(m) => Some(Point(m + (m - lms[c].x), lms[c].y))
      else None
  }

  /** The reflection exists exactly when there is a valid counterpart and a
      midline; it keeps the counterpart's height and lies as far from the
      midline on the other side. */
  lemma ReflectMirrors(k: Keypoint, lms: Landmarks)
    ensures Reflect(k, lms).Some? <==>
      Counterpart(k).Some? && IsValid(lms, Counterpart(k).value) && Midline(lms).Some?
    ensures Reflect(k, lms).Some? ==>
      var c := lms[Counterpart(k).value];
      && (Reflect(k, lms).value.x + c.x) / 2.0 == Midline(lms).value
      && Reflect(k, lms).value.y == c.y
  {
  }

  /** `_infer_missing_keypoint`: an anatomical rule first, then symmetry. */
  function InferMissingKeypoint(k: Keypoint, lms: Landmarks): Option<Point> {
    match AnatomicalRule(k, lms)
    case Some(p) => Some(p)
    case None => Reflect(k, lms)
  }

  /** A firing rule wins; otherwise the answer is the reflection. */
  lemma InferenceOrder(k: Keypoint, lms: Landmarks)
    ensures AnatomicalRule(k, lms).Some? ==> InferMissingKeypoint(k, lms) == AnatomicalRule(k, lms)
    ensures AnatomicalRule(k, lms).None? ==> InferMissingKeypoint(k, lms) == Reflect(k, lms)
    ensures InferMissingKeypoint(k, lms).Some? ==>
      AnatomicalRule(k, lms).Some? || Counterpart(k).Some?
  {
  }

  /** The heat-map maximum of one keypoint: its pixel and its probability. */
  datatype Peak = Peak(x: int, y: int, prob: real)

  /** The record the loop stores for keypoint `i`, given the landmarks
      placed before it. */
  function Entry(i: nat, peak: Peak, placed: Landmarks): (e: Landmark)
    requires i < |Keypoints|
    ensures e.z == 0.0
    ensures peak.prob > 0.1 ==> e.visibility == peak.prob && e.x == peak.x as real && e.y == peak.y as real
    ensures peak.prob <= 0.1 ==> e.visibility <= 0.1
    ensures peak.prob <= 0.1 ==> e.visibility == 0.05 || e == Landmark(0.0, 0.0, 0.0, 0.0)
    ensures peak.prob <= 0.1 ==> (e.visibility == 0.0 <==> InferMissingKeypoint(Keypoints[i], placed).None?)
    ensures peak.prob <= 0.1 && InferMissingKeypoint(Keypoints[i], placed).Some? ==>
      e.x == InferMissingKeypoint(Keypoints[i], placed).value.x
      && e.y == InferMissingKeypoint(Keypoints[i], placed).value.y
  {
    if peak.prob > 0.1 then
      Landmark(peak.x as real, peak.y as real, 0.0, peak.prob)
    else
      match InferMissingKeypoint(Keypoints[i], placed)
      case Some(p) => Landmark(p.x, p.y, 0.0, 0.05)
      case None => Landmark(0.0, 0.0, 0.0, 0.0)
  }

  /** The landmark dictionary after the loop has handled indices `0..i`. */
  function LandmarksUpTo(peaks: seq<Peak>, i: nat): Landmarks
    requires i <= |peaks| <= |Keypoints|
  {
    if i == 0 then map[]
    else
      var placed := LandmarksUpTo(peaks, i - 1);
      placed[Keypoints[i - 1] := Entry(i - 1, peaks[i - 1], placed)]
  }

  lemma LandmarksUpToStep(peaks: seq<Peak>, i: nat)
    requires i < |peaks| <= |Keypoints|
    ensures LandmarksUpTo(peaks, i + 1)
         == LandmarksUpTo(peaks, i)[Keypoints[i] := Entry(i, peaks[i], LandmarksUpTo(peaks, i))]
  {
  }

  /** After `i` steps the dictionary holds exactly the first `i` keypoints. */
  lemma {:induction false} LandmarksUpToKeys(peaks: seq<Peak>, i: nat)
    requires i <= |peaks| <= |Keypoints|
    ensures forall k :: k in LandmarksUpTo(peaks, i) <==> k.Index() < i
  {
    if i > 0 {
      LandmarksUpToKeys(peaks, i - 1);
      var last := Keypoints[i - 1];
      assert last.Index() == i - 1 by { KeypointsIndexed(); }
      forall k
        ensures k in LandmarksUpTo(peaks, i) <==> k.Index() < i
      {
        assert k in LandmarksUpTo(peaks, i) <==> k == last || k in LandmarksUpTo(peaks, i - 1);
        assert k == last <==> k.Index() == i - 1;
      }
    }
  }

  /** The record of the `j`-th keypoint after the loop has passed it is the one
      computed when the loop reached it; later steps never overwrite it. */
  lemma {:induction false} LandmarkAt(peaks: seq<Peak>, i: nat, j: nat)
    requires j < i <= |peaks| <= |Keypoints|
    ensures Keypoints[j] in LandmarksUpTo(peaks, i)
    ensures LandmarksUpTo(peaks, i)[Keypoints[j]] == Entry(j, peaks[j], LandmarksUpTo(peaks, j))
  {
    LandmarksUpToStep(peaks, i - 1);
    var prev := LandmarksUpTo(peaks, i - 1);
    if j < i - 1 {
      LandmarkAt(peaks, i - 1, j);
      KeypointsIndexed();
      UpdateOther(prev, Keypoints[i - 1], Entry(i - 1, peaks[i - 1], prev), Keypoints[j]);
    }
  }

  lemma UpdateOther(m: Landmarks, key: Keypoint, v: Landmark, k: Keypoint)
    requires k in m && k != key
    ensures k in m[key := v] && m[key := v][k] == m[k]
  {
  }

  /** Every one of the 18 names is present after the loop. */
  lemma AllKeypointsPresent(peaks: seq<Peak>)
    requires |peaks| == |Keypoints|
    ensures forall k :: k in LandmarksUpTo(peaks, |Keypoints|)
  {
    LandmarksUpToKeys(peaks, |Keypoints|);
  }

  /** Only a detected keypoint (probability above 0.1, off both axes) can be
      valid; inferred and zeroed points never serve as a basis. */
  lemma ValidIffDetected(peaks: seq<Peak>, i: nat, k: Keypoint)
    requires i <= |peaks| <= |Keypoints|
    ensures IsValid(LandmarksUpTo(peaks, i), k) <==>
      k.Index() < i && peaks[k.Index()].prob > 0.1 && peaks[k.Index()].x != 0 && peaks[k.Index()].y != 0
  {
    LandmarksUpToKeys(peaks, i);
    if k.Index() < i {
      LandmarkAt(peaks, i, k.Index());
    }
  }

  /** Inside the loop no anatomical rule can fire: each one needs a keypoint
      with a larger index, which has not been placed yet. */
  lemma AnatomicalRulesNeverFire(peaks: seq<Peak>, i: nat)
    requires i < |peaks| <= |Keypoints|
    ensures AnatomicalRule(Keypoints[i], LandmarksUpTo(peaks, i)) == None
  {
    LandmarksUpToKeys(peaks, i);
    KeypointsIndexed();
    RuleNeedsLaterKeypoint(Keypoints[i], LandmarksUpTo(peaks, i));
  }

  /** Every rule reads a keypoint with a larger index than its own. */
  lemma RuleNeedsLaterKeypoint(k: Keypoint, lms: Landmarks)
    requires forall j :: j in lms ==> j.Index() < k.Index()
    ensures AnatomicalRule(k, lms) == None
  {
    match k
    case Nose => assert LeftEye !in lms;
    case Neck => assert LeftShoulder !in lms;
    case RightShoulder => assert RightElbow !in lms;
    case LeftShoulder => assert LeftElbow !in lms;
    case RightHip => assert RightKnee !in lms;
    case LeftHip => assert LeftKnee !in lms;
    case _ =>
  }

  /** So inference in the loop is pure reflection ... */
  lemma LoopInferenceIsReflection(peaks: seq<Peak>, i: nat)
    requires i < |peaks| <= |Keypoints|
    ensures InferMissingKeypoint(Keypoints[i], LandmarksUpTo(peaks, i))
         == Reflect(Keypoints[i], LandmarksUpTo(peaks, i))
  {
    AnatomicalRulesNeverFire(peaks, i);
  }

  /** ... and a right-side point, whose counterpart comes later, is never
      inferred. */
  lemma RightSideNeverInferred(peaks: seq<Peak>, i: nat)
    requires i < |peaks| <= |Keypoints|
    requires Counterpart(Keypoints[i]).Some? && i < Counterpart(Keypoints[i]).value.Index()
    ensures InferMissingKeypoint(Keypoints[i], LandmarksUpTo(peaks, i)) == None
    ensures peaks[i].prob <= 0.1 ==> LandmarksUpTo(peaks, i + 1)[Keypoints[i]] == Landmark(0.0, 0.0, 0.0, 0.0)
  {
    LoopInferenceIsReflection(peaks, i);
    LandmarksUpToKeys(peaks, i);
    assert Counterpart(Keypoints[i]).value !in LandmarksUpTo(peaks, i);
    LandmarksUpToStep(peaks, i);
  }

  /** What the loop stores for a keypoint whose peak is at most 0.1: the
      reflection of its counterpart at visibility 0.05 when there is one,
      otherwise the origin at visibility 0. */
  lemma UndetectedEntry(peaks: seq<Peak>, i: nat, k: Keypoint)
    requires i <= |peaks| <= |Keypoints|
    requires k.Index() < i && peaks[k.Index()].prob <= 0.1
    ensures k in LandmarksUpTo(peaks, i)
    ensures Reflect(k, LandmarksUpTo(peaks, k.Index())).Some? ==>
      var p := Reflect(k, LandmarksUpTo(peaks, k.Index())).value;
      LandmarksUpTo(peaks, i)[k] == Landmark(p.x, p.y, 0.0, 0.05)
    ensures Reflect(k, LandmarksUpTo(peaks, k.Index())).None? ==>
      LandmarksUpTo(peaks, i)[k] == Landmark(0.0, 0.0, 0.0, 0.0)
  {
    var j := k.Index();
    assert Keypoints[j] == k;
    LandmarkAt(peaks, i, j);
    LoopInferenceIsReflection(peaks, j);
  }

  /** One element of the `connections` list. */
  datatype Connection = Connection(from: Keypoint, to: Keypoint)

  /** `POSE_PAIRS`, in order. */
  const PosePairs: seq<(int, int)> :=
    [(1, 0), (1, 2), (1, 5), (2, 5), (1, 8), (1, 11), (8, 11),
     (2, 3), (3, 4), (5, 6), (6, 7), (8, 9), (9, 10), (11, 12), (12, 13),
     (0, 14), (0, 15), (14, 16), (15, 17)]

  /** Membership of an index in `KEYPOINT_MAPPING`. */
  predicate InMapping(i: int) {
    0 <= i < |Keypoints|
  }

  /** The connections built from `pairs`: one per pair whose two indices are
      both in the mapping, in pair order. */
  function ConnectionsOf(pairs: seq<(int, int)>): seq<Connection> {
    if |pairs| == 0 then []
    else
      var (a, b) := pairs[|pairs| - 1];
      ConnectionsOf(pairs[..|pairs| - 1]) +
        (if InMapping(a) && InMapping(b) then [Connection(Keypoints[a], Keypoints[b])] else [])
  }

  /** When every index is in the mapping, the list has one connection per
      pair, and the `j`th connects the two names of the `j`th pair. */
  lemma {:induction false} ConnectionsOfMapped(pairs: seq<(int, int)>)
    requires forall j :: 0 <= j < |pairs| ==>
      0 <= pairs[j].0 < |Keypoints| && 0 <= pairs[j].1 < |Keypoints|
    ensures |ConnectionsOf(pairs)| == |pairs|
    ensures forall j :: 0 <= j < |pairs| ==>
      ConnectionsOf(pairs)[j] == Connection(Keypoints[pairs[j].0], Keypoints[pairs[j].1])
  {
    if |pairs| > 0 {
      var init := pairs[..|pairs| - 1];
      ConnectionsOfMapped(init);
      assert forall j :: 0 <= j < |init| ==> init[j] == pairs[j];
    }
  }

  /** Every `POSE_PAIRS` index is a keypoint, so all 19 pairs are drawn. */
  lemma PosePairsAllConnected()
    ensures |ConnectionsOf(PosePairs)| == |PosePairs| == 19
    ensures forall j :: 0 <= j < |PosePairs| ==>
      ConnectionsOf(PosePairs)[j] == Connection(Keypoints[PosePairs[j].0], Keypoints[PosePairs[j].1])
  {
    ConnectionsOfMapped(PosePairs);
  }

  /** The loop over `POSE_PAIRS` that appends the connections. */
  method BuildConnections(pairs: seq<(int, int)>) returns (connections: seq<Connection>)
    ensures connections == ConnectionsOf(pairs)
  {
    connections := [];
    for i := 0 to |pairs|
      invariant connections == ConnectionsOf(pairs[..i])
    {
      var (a, b) := pairs[i];
      assert pairs[..i + 1][..i] == pairs[..i];
      if InMapping(a) && InMapping(b) {
        connections := connections + [Connection(Keypoints[a], Keypoints[b])];
      }
    }
    assert pairs[..|pairs|] == pairs;
  }

  /** The state of the detector that `detect_pose` consults. */
  datatype Detector = Detector(demoMode: bool, netLoaded: bool)

  /** The dictionary `detect_pose` returns. */
  datatype Pose = Pose(landmarks: Landmarks, connections: seq<Connection>,
                       imageWidth: nat, imageHeight: nat)

  /** A detection: the synthetic demo pose (not part of this model) or a
      pose computed from the network's peaks. */
  datatype Detection = DemoPose | Detected(pose: Pose)

  /** `detect_pose` after the network has run: demo mode returns early, a
      missing network is an error, otherwise the landmark loop and the
      connection loop. */
  method DetectPose(d: Detector, width: nat, height: nat, peaks: seq<Peak>) returns (r: Result<Detection>)
    requires |peaks| == |Keypoints|
    ensures d.demoMode ==> r == Ok(DemoPose)
    ensures !d.demoMode && !d.netLoaded ==> r == Err(PoseModelNotLoaded)
    ensures !d.demoMode && d.netLoaded ==>
      r == Ok(Detected(Pose(LandmarksUpTo(peaks, |Keypoints|), ConnectionsOf(PosePairs), width, height)))
  {
    if d.demoMode {
      return Ok(DemoPose);
    }
    if !d.netLoaded {
      return Err(PoseModelNotLoaded);
    }
    var landmarks: Landmarks := map[];
    for i := 0 to |Keypoints|
      invariant landmarks == LandmarksUpTo(peaks, i)
    {
      var entry: Landmark;
      if peaks[i].prob > 0.1 {
        entry := Landmark(peaks[i].x as real, peaks[i].y as real, 0.0, peaks[i].prob);
      } else {
        var inferred := InferMissingKeypoint(Keypoints[i], landmarks);
        if inferred.Some? {
          entry := Landmark(inferred.value.x, inferred.value.y, 0.0, 0.05);
        } else {
          entry := Landmark(0.0, 0.0, 0.0, 0.0);
        }
      }
      assert entry == Entry(i, peaks[i], landmarks);
      LandmarksUpToStep(peaks, i);
      landmarks := landmarks[Keypoints[i] := entry];
    }
    var connections := BuildConnections(PosePairs);
    return Ok(Detected(Pose(landmarks, connections, width, height)));
  }
}
