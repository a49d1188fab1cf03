# FitFrame in Dafny

FitFrame estimates body measurements from a front (and optionally a side)
photograph and turns them into clothing sizes. The backend runs OpenPose to
find 18 body keypoints. From six of them it measures pixel widths and sorts
the body into one of six types by the shoulder-to-hip ratio. It converts
pixels to centimetres with the person's height, turns widths into
circumferences, and looks the result up in a size chart. A "between sizes"
rule may answer with a compound code such as `4-6`. The React frontend keeps
the user's waist and hip (in inches) from a form. It filters a sample
catalogue by those sizes and labels each item with a waist-based size
(XS to XL).

This project models that core and proves properties of it:

| file | module | models |
|---|---|---|
| `common.dfy` | `Common` | Option/Result, points and landmarks, `abs`, Python's `int()` truncation, Euclidean distance over an abstract square root |
| `openpose.dfy` | `OpenPose` | `KEYPOINT_MAPPING`, `POSE_PAIRS`, the landmark loop of `detect_pose` (with `_infer_missing_keypoint`) and its connection loop |
| `body_measurements.dfy` | `BodyMeasurements` | `calculate_body_measurements`: widths, body-type cascade, waist line, bust rule, scaling factor |
| `side_view.dfy` | `SideView` | `process_side_view`: measurement rows, region bands, the mask-row scan, clamping; `ellipse_perimeter` |
| `size_resolver.dfy` | `SizeResolver` | `determine_jeans_size`, `determine_dress_size`, `determine_skirt_size` (one resolver over the garment) and `get_size_details` |
| `predict.dfy` | `Predict` | `/detect-pose/` landmark check, `/predict-size/` substitution, live measurement, size lookup, `/fixed-pose-mode-status` message |
| `catalogue.dfy` | `Catalogue` | the frontend types, the sample catalogue and offers, `getSizeRecommendation` |
| `dashboard.dfy` | `Dashboard` | the Dashboard page's effect: login check, filter, labels, fallback |
| `item_detail.dfy` | `ItemDetail` | the item page: lookup by id, similar items, labels |
| `measurement_form.dfy` | `MeasurementForm` | the form's toggles and the submit guard |

The code is modelled in the form it is written in:

- Loops that update variables are methods with loop invariants. Each is
  proved equal to a specification function, and the properties are then
  proved about that function. Examples: the keypoint loop, the
  connection loop, the weighted-minimum loop, the between-size scan, the
  mask-row scan, the level loop, the landmark checks, the
  `get_size_details` key loop.
- The Dashboard component's state is a class whose methods update it.
- Straight-line arithmetic is pure functions and lemmas.

Things the model takes as parameters:

- numpy's `sqrt` is a parameter `sqrt` that satisfies `Common.IsSqrt`.
- `np.pi` is a parameter `pi`.
- The OpenCV network output is an input: the heat-map maximum of each
  keypoint.
- The OpenCV segmentation of each side-view band is an input: the mask it
  produces.
- The size chart file is an input: `None` when loading fails.

Facts of the code that the model keeps:

- The side-view depth caps are 50% of the width for the hip, 40% for the
  bust and 35% for the waist (backend/side_view_processing.py:72). A depth
  outside its range is clamped to the nearer bound.
- `/predict-size/` computes circumferences with the per-body-type linear
  multipliers. It never calls `ellipse_perimeter`, which is modelled on
  its own.

## Model

| member | source | states |
|---|---|---|
| OpenPose.Keypoint.Index | backend/openpose_utils.py:40-59 | each keypoint has an index below 18 that the mapping sends back to it |
| OpenPose.KeypointsIndexed | backend/openpose_utils.py:40-59 | the mapping is a bijection between 0..17 and the 18 keypoints |
| OpenPose.AnatomicalRuleMeaning | backend/openpose_utils.py:262-317 | a rule fires exactly when its two basis keypoints are valid. Nose and neck sit centred between eyes or shoulders, 10 px lower or 15 px higher. A shoulder sits a quarter of the way from neck to elbow, a hip 0.33 of the way from shoulder to knee. No other keypoint has a rule |
| OpenPose.CounterpartIsSymmetricTable | backend/openpose_utils.py:322-335 | the symmetric pairs map both ways. Only nose and neck have no counterpart. The counterpart map is an involution without fixed points |
| OpenPose.ReflectMirrors | backend/openpose_utils.py:338-367 | the symmetry guess exists exactly when the counterpart is valid and a midline exists. It keeps the counterpart's height and mirrors its x across the midline |
| OpenPose.InferenceOrder | backend/openpose_utils.py:233-370 | a firing anatomical rule wins; otherwise the answer is the reflection; any answer comes from a rule or a counterpart |
| OpenPose.Entry | backend/openpose_utils.py:176-206 | a peak above 0.1 is stored with its pixel and probability; otherwise an inferred point is stored at visibility 0.05 with the inferred x and y, and without an inference the record is (0, 0) at visibility 0; z is always 0 |
| OpenPose.LandmarksUpToKeys | backend/openpose_utils.py:164-206 | after i iterations the dictionary holds exactly the first i keypoints |
| OpenPose.LandmarkAt | backend/openpose_utils.py:164-206 | a keypoint's record is the one computed when the loop reached it, never overwritten later |
| OpenPose.AllKeypointsPresent | backend/openpose_utils.py:164-206 | after the loop all 18 names are present |
| OpenPose.ValidIffDetected | backend/openpose_utils.py:176-206 | a stored keypoint is valid exactly when it was detected above 0.1 off both axes; inferred or zeroed points never are |
| OpenPose.RuleNeedsLaterKeypoint | backend/openpose_utils.py:262-317 | every anatomical rule reads a keypoint with a larger index than its own |
| OpenPose.AnatomicalRulesNeverFire | backend/openpose_utils.py:196-206 | inside the loop no anatomical rule can fire |
| OpenPose.LoopInferenceIsReflection | backend/openpose_utils.py:196-206 | so inference inside the loop is pure reflection |
| OpenPose.RightSideNeverInferred | backend/openpose_utils.py:196-206 | a keypoint whose counterpart comes later (the right side) is never inferred; undetected, it is stored as (0, 0) at visibility 0 |
| OpenPose.UndetectedEntry | backend/openpose_utils.py:196-206 | after the loop a keypoint whose peak is at most 0.1 holds the reflection of its counterpart at visibility 0.05 when there is one, otherwise (0, 0) at visibility 0 |
| OpenPose.ConnectionsOfMapped | backend/openpose_utils.py:211-223 | with every index mapped there is one connection per pair, in pair order, naming the pair's keypoints |
| OpenPose.PosePairsAllConnected | backend/openpose_utils.py:24-37 | all 19 POSE_PAIRS become connections |
| OpenPose.BuildConnections | backend/openpose_utils.py:211-223 | the loop builds the connection list of the pairs |
| OpenPose.DetectPose | backend/openpose_utils.py:119-231 | demo mode returns the demo pose; a missing network is an error; otherwise the result is the landmark dictionary after all 18 iterations, the POSE_PAIRS connections and the image size |
| BodyMeasurements.CalculateBodyMeasurements | backend/body_measurements.py:3-93 | the hip width and inseam are the measured hip and hip-to-ankle distances; the ratio is shoulder width over hip width; the body type is the ratio's bucket and the waist offset is that bucket's; the waist width is the distance between the waist points at that offset; the bust width is the body type's bust rule on the shoulder and hip widths; scaling factor × body height = height in cm; inseam cm = inseam px × factor; the hip width is positive and the waist width and inseam are non-negative |
| BodyMeasurements.MeasurementsMeaning | backend/body_measurements.py:80-93 | ratio × hip width = shoulder width; scaling factor × body height = height in cm; inseam cm = inseam px × factor; all non-negative for a positive height |
| BodyMeasurements.ClassifyBands | backend/body_measurements.py:34-57 | each of the six types covers exactly its half-open band of ratios (thresholds 1.5, 1.3, 1.1, 0.9, 0.8) |
| BodyMeasurements.WaistOffsetNonIncreasing | backend/body_measurements.py:34-57 | a larger shoulder-to-hip ratio never raises the waist line |
| BodyMeasurements.BustRules | backend/body_measurements.py:73-78 | "athletic" uses 1.05 × shoulders, "pear" 0.95 × hips; every other type, including "very_athletic" and "slightly_pear", uses its multiplier times the sum of both widths |
| BodyMeasurements.EqualTorsosGiveHipWidthWaist | backend/body_measurements.py:60-70 | with equal torso heights on both sides the waist width equals the hip width |
| BodyMeasurements.KneeIsUnused | backend/body_measurements.py:22 | the left knee does not influence the result |
| BodyMeasurements.ScaledDistance | backend/body_measurements.py:26-28 | zooming the image by k multiplies every distance by k |
| BodyMeasurements.ScaledWidths | backend/body_measurements.py:26-81 | hip, shoulder, inseam, body-height and waist widths all scale by k |
| BodyMeasurements.AssembleScales | backend/body_measurements.py:31-93 | the arithmetic after the distances commutes with a zoom |
| BodyMeasurements.MeasurementsIgnoreImageScale | backend/body_measurements.py:26-93 | zooming the picture keeps ratio, body type, waist offset and inseam in cm, and multiplies every pixel width by k |
| SideView.RowsTopToBottom | backend/side_view_processing.py:24-26 | with the shoulder above the hip and a waist offset up to 0.75, the rows run shoulder, bust, waist, hip from top to bottom |
| SideView.BandHoldsLevelRow | backend/side_view_processing.py:37-39 | for a row inside the image the band lies in the image, holds at most 30 rows, and contains the row at most 15 rows from its top |
| SideView.NonZero | backend/side_view_processing.py:64 | the indices are ascending foreground columns |
| SideView.NonZeroComplete | backend/side_view_processing.py:64 | no foreground column is missed |
| SideView.ExtentMeaning | backend/side_view_processing.py:63-69 | the extent runs from the first to the last foreground pixel; there is none exactly when the row has no foreground |
| SideView.FindExtent | backend/side_view_processing.py:63-69 | the row scan returns that extent |
| SideView.ClampProperties | backend/side_view_processing.py:72-78 | the clamped depth lies in [lo, hi], an in-range depth is unchanged, and clamping is idempotent |
| SideView.LevelDepthInRange | backend/side_view_processing.py:72-80 | a measured depth lies between 5% of the width and the level's cap (50%, 35%, 40%) |
| SideView.LevelDepthWithFittingMask | backend/side_view_processing.py:55-66 | with a mask covering its band, a level inside the image falls back to its default only when its row has no foreground |
| SideView.Depths | backend/side_view_processing.py:28-33 | the result has exactly the three keys |
| SideView.DepthsInRange | backend/side_view_processing.py:28-80 | every stored depth, default or measured, lies in the level's plausible range |
| SideView.ProcessSideView | backend/side_view_processing.py:36-96 | the level loop returns the depths dictionary; the marked image exists exactly when some level was measured |
| SideView.VisitStep | backend/side_view_processing.py:36-84 | visiting a level stores its depth and leaves the others alone |
| SideView.AllVisited | backend/side_view_processing.py:36-96 | after the three levels the dictionary is the result |
| SideView.MeasureLevel | backend/side_view_processing.py:37-80 | one turn of the loop computes the level's measured depth |
| SideView.ShapeFactor | backend/side_view_processing.py:104 | h lies in [0, 1) |
| SideView.Correction | backend/side_view_processing.py:105 | Ramanujan's correction lies in [0, 0.3) |
| SideView.EllipseSymmetric | backend/side_view_processing.py:99-105 | the perimeter does not depend on which axis is the width |
| SideView.EllipseOfCircle | backend/side_view_processing.py:99-105 | a circle of diameter w ≥ 2 gets exactly π·w |
| SideView.EllipseDegenerateIsCircle | backend/side_view_processing.py:102-103 | an axis under 2 px gives the circle on the larger axis |
| SideView.EllipseBounds | backend/side_view_processing.py:99-105 | for axes ≥ 2 the perimeter lies between π(w+d)/2 and 1.3 times that |
| SizeResolver.Score | backend/size_prediction.py:22-25 | the weighted difference is non-negative and zero for an exact entry |
| SizeResolver.Insert | backend/size_prediction.py:19 | insertion adds exactly one entry |
| SizeResolver.InsertSorted | backend/size_prediction.py:19 | insertion keeps the entries sorted |
| SizeResolver.SortByPrimary | backend/size_prediction.py:19 | the sort returns a sorted permutation of the entries |
| SizeResolver.SortIsStable | backend/size_prediction.py:19 | entries with equal keys keep their relative order |
| SizeResolver.BestMatch | backend/size_prediction.py:22-29 | there is no best match exactly when the category is empty |
| SizeResolver.BestMatchIsFirstMinimum | backend/size_prediction.py:22-29 | the best match is the first index of a minimal weighted score |
| SizeResolver.FindBestMatch | backend/size_prediction.py:22-29 | the loop computes that best match |
| SizeResolver.ScanFrom | backend/size_prediction.py:32-50 | a hit is a bracketing pair with a positive span that passes the 30% gate |
| SizeResolver.ScanPairs | backend/size_prediction.py:32-50 | the loop stops at the same pair as the scan |
| SizeResolver.FractionTests | backend/size_prediction.py:41-62 | the divided 30% gate and the 15%/85% window agree with their multiplied-out forms |
| SizeResolver.RemoveAll | backend/size_prediction.py:52 | only a length bound: `replace` never lengthens the code (what the removal gives back is stated by RemovePrefix) |
| SizeResolver.RemovePrefix | backend/size_prediction.py:52 | removing "US_" from "US_" + c gives c back |
| SizeResolver.BeforeSlash | backend/size_prediction.py:119 | `split("/")[0]` is a slash-free prefix ending just before the first slash |
| SizeResolver.BeforeSlashOfSlashFree | backend/size_prediction.py:119 | a slash-free head is cut off exactly |
| SizeResolver.ResolveSorted | backend/size_prediction.py:31-65 | the resolver fails exactly when the scan divides by zero, and an empty category gives no size |
| SizeResolver.EmptyCategoryHasNoSize | backend/size_prediction.py:15-52 | a missing or empty category resolves to "" |
| SizeResolver.ZeroDivisionIffEqualLeadingPair | backend/size_prediction.py:36-41 | ZeroDivisionError happens exactly when the two smallest entries share the target's primary measurement |
| SizeResolver.TargetOutsideChartUsesBestMatch | backend/size_prediction.py:32-52 | a target outside the chart is never between sizes; the weighted best match decides |
| SizeResolver.CompoundCodeComesFromWindow | backend/size_prediction.py:54-63 | a compound code only comes from a bracketing pair with the target strictly inside (15%, 85%) from both ends |
| SizeResolver.MiddleOfSpanIsNeverCompound | backend/size_prediction.py:41-63 | a target in the middle 40% of a pair never gives a compound code |
| SizeResolver.ExactTargetGivesThatSize | backend/size_prediction.py:36-50 | a target equal to an entry's measurement, strictly between its neighbours, gives that entry's code |
| SizeResolver.JeansExampleBetween | backend/size_prediction.py:54-63 | an example, not a property: on a 70/74 cm chart a 71.2 cm waist is "4-6" |
| SizeResolver.JeansExampleNearerEnd | backend/size_prediction.py:46-50 | an example, not a property: on the same chart a 73.5 cm waist is "6" |
| SizeResolver.DetermineSize | backend/size_prediction.py:1-197 | the three size functions compute the resolver's text |
| SizeResolver.FormatResult | backend/size_prediction.py:52-65 | the formatting tail renders the resolver's result |
| SizeResolver.FindCode | backend/size_prediction.py:215-216 | the lookup finds the first item with the key, or reports that none has it |
| SizeResolver.FindPrefix | backend/size_prediction.py:211-213 | the prefix search finds the first key with the prefix, or reports that none has it |
| SizeResolver.SizeDetails | backend/size_prediction.py:199-217 | an empty code has no details; a found entry belongs to the category, with key "US_<code>" (or, for dresses and skirts, "US_<code>/...") |
| SizeResolver.GetSizeDetails | backend/size_prediction.py:199-217 | the key loop computes those details |
| SizeResolver.JeansDetailsRoundTrip | backend/size_prediction.py:199-217 | the formatted code of a jeans entry finds that entry again |
| SizeResolver.SlashedDetailsRoundTrip | backend/size_prediction.py:119-213 | the formatted code of a "US_c/rest" dress or skirt entry finds that entry again |
| Predict.Missing | backend/main.py:119-128 | a landmark is reported exactly when it is required and absent or below the threshold |
| Predict.MissingLandmarks | backend/main.py:123-127 | the check loop collects those landmarks in order |
| Predict.DetectPoseAccepts | backend/main.py:119-134 | `/detect-pose/` accepts exactly when every required landmark is present with visibility at least 0.3 |
| Predict.Substituted | backend/main.py:262-285 | afterwards every required landmark is present with visibility at least 0.1 |
| Predict.SubstitutionEffect | backend/main.py:273-285 | an absent landmark moves to the image centre, a faint one keeps its position at visibility 0.1, and every other record is unchanged |
| Predict.AcceptedPoseIsUnchanged | backend/main.py:262-285 | a pose that passed `/detect-pose/` needs no substitution |
| Predict.SubstituteRequired | backend/main.py:262-285 | the in-place loop yields the substituted dictionary |
| Predict.HipMultiplierNonIncreasing | backend/main.py:306-347 | a larger ratio never raises the hip multiplier; every multiplier lies in [2.15, 2.7] |
| Predict.EstimatedHeightBounds | backend/main.py:380-395 | for any bucket the height guess is 4.8 to 5.616 times the shoulder width; for the bucket the ratio falls in it is 5.0 to 5.4 times, "athletic" always 5.184 and "pear" always 5.2 |
| Predict.LiveMeasure | backend/main.py:288-403 | with a positive height the hip is positive and the waist and inseam non-negative |
| Predict.LiveAgreesWithCalculate | backend/main.py:288-403 | with a height given, the live copy uses the same body type, widths, scaling factor and inseam as `calculate_body_measurements` |
| Predict.LiveMeasureAndImageScale | backend/main.py:373-403 | zooming the picture keeps the circumferences when the height is given, and scales them by k when it is not |
| Predict.GarmentReport | backend/main.py:406-437 | the US size is the resolver's text; with details found EU and UK are the entry's `eu_size` and `uk_size`, without them ""; the only error is the resolver's ZeroDivisionError on a zero-span pair (see Left out: numpy skips that pair instead) |
| Predict.PredictSizes | backend/main.py:406-439 | the report succeeds exactly when all three garment reports do, and then its jeans, dress and skirt fields are those reports; the only failure is the resolver's ZeroDivisionError (see Left out for the numpy path) |
| Predict.NoChartsNoSizes | backend/main.py:54-59 | when the chart file failed to load every size field is "" |
| Predict.MeasureAndSize | backend/main.py:287-439 | a result carries the live measurements and their size report; it fails exactly when that report does |
| Predict.PredictSize | backend/main.py:241-439 | "no person" is the answer exactly for an empty landmark dictionary; otherwise the result is the live measurement of the substituted landmarks with its size report, and any failure is the resolver's ZeroDivisionError (see Left out for the numpy path) |
| Predict.DetectedPoseIsNeverEmpty | backend/main.py:241-245 | the detector's dictionary is never empty, so that branch is dead for a live detection |
| Predict.FixedPoseMessageCases | backend/main.py:187-191 | the message tells the three states apart and ignores the reference when the mode is off |
| Catalogue.SizeRank | frontend/src/pages/Dashboard.tsx:202-208 | the rank is a valid position in XS..XL |
| Catalogue.SizeLabel | frontend/src/pages/Dashboard.tsx:202-208 | the label is the size at the waist's rank, the number of breaks 27, 29, 32, 35 it has reached |
| Catalogue.RankBands | frontend/src/pages/Dashboard.tsx:202-208 | the rank over the four half-open bands |
| Catalogue.SizeLabelMonotone | frontend/src/pages/Dashboard.tsx:202-208 | a larger waist never gets a smaller size |
| Dashboard.OfferSizeLabel | frontend/src/pages/Dashboard.tsx:211-217 | the offer copy of the thresholds is the item label, whatever the hip |
| Dashboard.Recommended | frontend/src/pages/Dashboard.tsx:166-177 | every recommended item fits both ranges and carries the waist label |
| Dashboard.RecommendedExactly | frontend/src/pages/Dashboard.tsx:166-177 | an item is recommended exactly when it fits, as the catalogue item with only its label set |
| Dashboard.RecommendedKeepsOrder | frontend/src/pages/Dashboard.tsx:166-177 | the filter keeps catalogue order |
| Dashboard.AllFitAllRecommended | frontend/src/pages/Dashboard.tsx:166-177 | when everything fits, every item is kept in place and labelled |
| Dashboard.OffersWithSizes | frontend/src/pages/Dashboard.tsx:180-183 | every offer is kept in order, labelled with the waist size |
| Dashboard.FallbackWhenNothingFits | frontend/src/pages/Dashboard.tsx:185-192 | the first three items are shown exactly when nothing fits; a non-empty catalogue never shows nothing |
| Dashboard.LargeWaistFallsBack | frontend/src/pages/Dashboard.tsx:189-192 | an example, not a property: a waist above 36 inches is shown the first three sample items |
| Dashboard.DefaultSizesFitAll | frontend/src/pages/Dashboard.tsx:166-177 | an example, not a property: the form's default sizes fit all six items, the last only because the bounds are inclusive |
| Dashboard.DashboardPage.Mount | frontend/src/pages/Dashboard.tsx:149-163 | without a readable stored user the page goes to /register; otherwise it records the user and starts loading |
| Dashboard.DashboardPage.TimerFires | frontend/src/pages/Dashboard.tsx:164-193 | the callback shows the filtered items (or the first three), labels every offer and stops loading |
| ItemDetail.ItemSizeLabel | frontend/src/pages/ItemDetail.tsx:165-171 | the page's copy of the thresholds equals the dashboard label |
| ItemDetail.SimilarCandidates | frontend/src/pages/ItemDetail.tsx:89-91 | every candidate is a catalogue item of the same type with another id |
| ItemDetail.SimilarItems | frontend/src/pages/ItemDetail.tsx:89-93 | at most three similar catalogue items |
| ItemDetail.CandidatesComplete | frontend/src/pages/ItemDetail.tsx:89-91 | every similar catalogue item is a candidate |
| ItemDetail.CandidatesKeepOrder | frontend/src/pages/ItemDetail.tsx:89-91 | the candidates keep catalogue order |
| ItemDetail.SimilarItemsAreLeading | frontend/src/pages/ItemDetail.tsx:89-93 | the similar items are the first min(3, n) candidates, and all of them when there are at most three |
| ItemDetail.SampleJeansSimilar | frontend/src/pages/ItemDetail.tsx:13-93 | an example, not a property: the sample jeans have exactly one similar item, the wide-leg pants |
| ItemDetail.FindById | frontend/src/pages/ItemDetail.tsx:135 | the first item with the id, or none exactly when no item has it |
| ItemDetail.Labelled | frontend/src/pages/ItemDetail.tsx:147-150 | every similar item, in order, with the waist label |
| ItemDetail.ViewFindsItem | frontend/src/pages/ItemDetail.tsx:127-161 | an item is shown exactly when the id exists, and /dashboard is opened otherwise; the similar items (at most three) share its type and not its id |
| ItemDetail.ViewLabels | frontend/src/pages/ItemDetail.tsx:138-154 | with a stored user the item and its similar items carry the user's label; without one they are catalogue items |
| MeasurementForm.Without | frontend/src/components/MeasurementForm.tsx:27 | the filter keeps exactly the other values |
| MeasurementForm.WithoutCounts | frontend/src/components/MeasurementForm.tsx:27 | the value's count drops to zero and every other count is unchanged |
| MeasurementForm.WithoutKeepsOrder | frontend/src/components/MeasurementForm.tsx:27 | the filter keeps order |
| MeasurementForm.WithoutAbsent | frontend/src/components/MeasurementForm.tsx:27 | filtering out an absent value changes nothing |
| MeasurementForm.Toggle | frontend/src/components/MeasurementForm.tsx:26-28 | the toggled value flips membership; every other value keeps it |
| MeasurementForm.ToggleRemovesAll | frontend/src/components/MeasurementForm.tsx:26-28 | toggling a present value removes every occurrence and keeps the other counts |
| MeasurementForm.ToggleTwiceRestores | frontend/src/components/MeasurementForm.tsx:26-28 | toggling an absent value twice restores the list |
| MeasurementForm.ToggleTwiceMovesToEnd | frontend/src/components/MeasurementForm.tsx:26-28 | toggling a present value twice moves a single copy of it to the end |
| MeasurementForm.StyleChange | frontend/src/components/MeasurementForm.tsx:24-32 | only the styles change, by the toggle |
| MeasurementForm.ColorChange | frontend/src/components/MeasurementForm.tsx:34-42 | only the colours change, by the toggle |
| MeasurementForm.FitChange | frontend/src/components/MeasurementForm.tsx:115-117 | only the fit changes |
| MeasurementForm.Submit | frontend/src/components/MeasurementForm.tsx:44-53 | the submission is refused exactly when the waist or the hip is zero; otherwise the current values are submitted |
| MeasurementForm.InitialFormSubmits | frontend/src/components/MeasurementForm.tsx:15-22 | an example, not a property: the untouched form submits 28, 36 and its preferences, and toggling "casual" off leaves no style |

## Left out

- Image decoding, HTTP handling, CORS, file and model loading, printing and logging are not modelled.
- The OpenCV DNN forward pass, `cv2.resize` and `minMaxLoc` are not modelled. Each keypoint's heat-map maximum is an input.
- The side-view grey-scale conversion, blur, Otsu threshold, morphology and contour filling are not modelled. The mask they produce is an input, `None` when no contour is found.
- The drawing of side-view markers is not modelled. Only whether the marked image exists is.
- `draw_pose`, `_generate_demo_pose`, the fixed-pose reference handling and `initialize_pose_detector` are not modelled. The demo pose is an opaque result.
- `round(..., 1)` in the `/predict-size/` response is not modelled, because it only presents values.
- Floating point is not modelled: measurements are mathematical reals, and NaN and infinity are excluded. Where numpy would divide by zero, `CalculateBodyMeasurements` and `LiveMeasure` require a positive hip width and body height.
- `np.sqrt` and `np.pi` are parameters, because they are foreign code.
- The duplicate resolver functions in backend/main.py:463-713 have the same branches as the ones in backend/size_prediction.py. The model applies the one resolver to `SIZE_CHARTS` (`Predict.LoadedCharts`), so they have no members of their own. They differ in one case, described next.
- Predict.GarmentReport, Predict.PredictSizes and Predict.PredictSize do not model numpy's division on the `/predict-size/` path. There the targets are `numpy.float64` values. A pair whose two primary measurements both equal the target gives `0 / 0 = nan` (backend/main.py:502-505, 578-581, 652-655) with only a RuntimeWarning. So it fails the 30% gate, and the scan goes on to the next pair. The model keeps the Python-float behaviour of backend/size_prediction.py:36-41, where that pair raises ZeroDivisionError, and reports `Err(ZeroDivision)` there. Example: a jeans chart with US_2, US_4 and US_6 at waists 70, 70 and 74 and a target waist of 70.0. The live endpoint answers "4"; the model answers `Err(ZeroDivision)`.
- Predict.GarmentReport does not model a size entry without an `eu_size` or `uk_size` key. For such an entry `details.get(..., "")` at backend/main.py:425-436 gives "". Every modelled entry carries both.
- A missing `"waist"`, `"hip"` or `"bust"` value in a size entry (a `KeyError`) is not modelled. Every entry carries all three.
- Exceptions other than ZeroDivisionError, and the HTTP status codes they map to, are not modelled.
- The 1500 ms and 800 ms timers are not modelled as time. The Dashboard's callback is its own step (`DashboardPage.TimerFires`). The item page's effect and callback are one function (`ItemDetail.ViewItem`).
- Toasts, rendering, routing beyond the target path, and `localStorage` writes are not modelled.
- The item page's uncaught `JSON.parse` error on malformed stored data is not modelled. The stored user there is present or absent.
- The optional user fields (name, photo, preferences) and the items' description, image and shop URLs are not modelled, because no modelled code reads them.
- The item page's `sampleRelatedOffers` are not modelled, because the code never reads them.
- `Number()` in the form can yield NaN, for which `!waist` is true. `MeasurementForm.Submit` models the zero test only, because reals have no NaN.
- The form's slider and input bounds (20 to 50 and 30 to 60) only limit the widgets and are not modelled.
