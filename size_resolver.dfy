/** The size resolver of backend/size_prediction.py: a weighted nearest
    entry of one garment category, overridden by a "between sizes" scan
    over the entries sorted by their primary measurement, and refined into
    a compound "lower-upper" code.  The chart is a parameter, so the copies
    in backend/main.py are this resolver applied to SIZE_CHARTS. */
module SizeResolver {
  import opened Common

  datatype Garment = Jeans | Dresses | Skirts

  /** One item of a category's "size_mapping" dictionary: the key (such as
      "US_4" or "US_4/S") and the values the code reads from its data. */
  datatype SizeEntry = SizeEntry(code: string, bust: real, waist: real, hip: real,
                                 euSize: string, ukSize: string)

  /** A "size_mapping" dictionary, in insertion order. */
  type SizeMapping = seq<SizeEntry>

  /** Category name to its "size_mapping"; a category without a
      "size_mapping" key is represented by leaving the category out. */
  type SizeCharts = map<string, SizeMapping>

  /** The body measurements a garment is sized against (cm). */
  datatype Target = Target(bust: real, waist: real, hip: real)

  /** The outcome of the resolver before it is rendered as text. */
  datatype SizeCode = NoSize | Single(code: string) | Between(lower: string, upper: string) {
    function Text(): string {
      match this
      case NoSize => ""
      case Single(c) => c
      case Between(l, u) => l + "-" + u
    }
  }

  /** Where the between-size scan stopped. */
  datatype Scan = NoHit | Hit(index: nat) | ZeroRange

  function CategoryKey(g: Garment): string {
    match g
    case Jeans => "jeans"
    case Dresses => "dresses"
    case Skirts => "skirts"
  }

  /** `size_charts.get(key, {}).get("size_mapping", {})` */
  function Mapping(charts: SizeCharts, g: Garment): SizeMapping {
    if CategoryKey(g) in charts then charts[CategoryKey(g)] else []
  }

  /** The measurement the entries are sorted and scanned by. */
  function Primary(g: Garment, e: SizeEntry): real {
    if g == Dresses then e.bust else e.waist
  }

  function TargetPrimary(g: Garment, t: Target): real {
    if g == Dresses then t.bust else t.waist
  }

  /** The weighted absolute difference between an entry and the target:
      jeans 0.7 waist + 0.3 hip, dresses 0.4 bust + 0.35 waist + 0.25 hip,
      skirts 0.65 waist + 0.35 hip. */
  function Score(g: Garment, e: SizeEntry, t: Target): (d: real)
    ensures 0.0 <= d
    ensures d == 0.0 <== (e.waist == t.waist && e.hip == t.hip && (g == Dresses ==> e.bust == t.bust))
  {
    match g
    case Jeans => Abs(e.waist - t.waist) * 0.7 + Abs(e.hip - t.hip) * 0.3
    case Dresses => Abs(e.bust - t.bust) * 0.4 + Abs(e.waist - t.waist) * 0.35 + Abs(e.hip - t.hip) * 0.25
    case Skirts => Abs(e.waist - t.waist) * 0.65 + Abs(e.hip - t.hip) * 0.35
  }

  // ---------------------------------------------------------------------
  // Sorting (Python's stable list.sort with a key)

  ghost predicate SortedBy(g: Garment, s: SizeMapping) {
    forall i, j :: 0 <= i < j < |s| ==> Primary(g, s[i]) <= Primary(g, s[j])
  }

  /** Inserts `e` in front of the first entry whose key is not smaller. */
  function Insert(g: Garment, e: SizeEntry, s: SizeMapping): (r: SizeMapping)
    ensures multiset(r) == multiset(s) + multiset{e}
    ensures |r| == |s| + 1
  {
    if s == [] || Primary(g, e) <= Primary(g, s[0]) then
      [e] + s
    else
      assert s == [s[0]] + s[1..];
      [s[0]] + Insert(g, e, s[1..])
  }

  lemma {:induction false} InsertSorted(g: Garment, e: SizeEntry, s: SizeMapping)
    requires SortedBy(g, s)
    ensures SortedBy(g, Insert(g, e, s))
  {
    if s == [] || Primary(g, e) <= Primary(g, s[0]) {
      forall i | 0 <= i < |s|
        ensures Primary(g, e) <= Primary(g, s[i])
      {
        assert Primary(g, s[0]) <= Primary(g, s[i]);
      }
      ConsSorted(g, e, s);
    } else {
      InsertSorted(g, e, s[1..]);
      AtLeastOfSorted(g, s);
      InsertAtLeast(g, e, s[1..], Primary(g, s[0]));
      ConsSorted(g, s[0], Insert(g, e, s[1..]));
    }
  }

  /** Every entry's key is at least `b`. */
  ghost predicate AllAtLeast(g: Garment, s: SizeMapping, b: real) {
    forall i :: 0 <= i < |s| ==> b <= Primary(g, s[i])
  }

  lemma AtLeastOfSorted(g: Garment, s: SizeMapping)
    requires SortedBy(g, s) && s != []
    ensures AllAtLeast(g, s[1..], Primary(g, s[0]))
  {
    forall i | 0 <= i < |s[1..]|
      ensures Primary(g, s[0]) <= Primary(g, s[1..][i])
    {
      assert s[1..][i] == s[i + 1];
    }
  }

  lemma ConsSorted(g: Garment, x: SizeEntry, s: SizeMapping)
    requires SortedBy(g, s) && AllAtLeast(g, s, Primary(g, x))
    ensures SortedBy(g, [x] + s)
  {
    var r := [x] + s;
    forall i, j | 0 <= i < j < |r|
      ensures Primary(g, r[i]) <= Primary(g, r[j])
    {
      assert r[j] == s[j - 1];
      if i > 0 {
        assert r[i] == s[i - 1];
      }
    }
  }

  lemma InsertAtLeast(g: Garment, e: SizeEntry, s: SizeMapping, b: real)
    requires b <= Primary(g, e) && AllAtLeast(g, s, b)
    ensures AllAtLeast(g, Insert(g, e, s), b)
  {
    var r := Insert(g, e, s);
    forall i | 0 <= i < |r|
      ensures b <= Primary(g, r[i])
    {
      assert r[i] in multiset(r);
      if r[i] != e {
        assert r[i] in multiset(s);
        var j :| 0 <= j < |s| && s[j] == r[i];
      }
    }
  }

  /** `size_data.sort(key=lambda x: x[1][primary])` */
  function SortByPrimary(g: Garment, s: SizeMapping): (r: SizeMapping)
    ensures SortedBy(g, r)
    ensures multiset(r) == multiset(s)
    ensures |r| == |s|
  {
    if s == [] then [] else
      assert s == [s[0]] + s[1..];
      InsertSorted(g, s[0], SortByPrimary(g, s[1..]));
      Insert(g, s[0], SortByPrimary(g, s[1..]))
  }

  /** The entries whose key equals `k`, in their order. */
  function WithKey(g: Garment, s: SizeMapping, k: real): SizeMapping {
    if s == [] then []
    else (if Primary(g, s[0]) == k then [s[0]] else []) + WithKey(g, s[1..], k)
  }

  lemma WithKeyCons(g: Garment, x: SizeEntry, s: SizeMapping, k: real)
    ensures WithKey(g, [x] + s, k) == (if Primary(g, x) == k then [x] else []) + WithKey(g, s, k)
  {
    assert ([x] + s)[1..] == s;
  }

  lemma {:induction false} InsertWithKey(g: Garment, e: SizeEntry, s: SizeMapping, k: real)
    ensures WithKey(g, Insert(g, e, s), k)
         == (if Primary(g, e) == k then [e] else []) + WithKey(g, s, k)
  {
    if s == [] || Primary(g, e) <= Primary(g, s[0]) {
      WithKeyCons(g, e, s, k);
    } else {
      InsertWithKey(g, e, s[1..], k);
      WithKeyPassed(g, e, s[0], Insert(g, e, s[1..]), s[1..], k);
      assert [s[0]] + s[1..] == s;
      assert Insert(g, e, s) == [s[0]] + Insert(g, e, s[1..]);
    }
  }

  /** The step of `InsertWithKey` past an entry whose key is smaller than
      that of `e`. */
  lemma WithKeyPassed(g: Garment, e: SizeEntry, x: SizeEntry, rest: SizeMapping, s: SizeMapping, k: real)
    requires Primary(g, x) < Primary(g, e)
    requires WithKey(g, rest, k) == (if Primary(g, e) == k then [e] else []) + WithKey(g, s, k)
    ensures WithKey(g, [x] + rest, k) == (if Primary(g, e) == k then [e] else []) + WithKey(g, [x] + s, k)
  {
    WithKeyCons(g, x, rest, k);
    WithKeyCons(g, x, s, k);
    if Primary(g, x) == k {
      assert WithKey(g, rest, k) == WithKey(g, s, k);
    } else {
      assert WithKey(g, [x] + rest, k) == WithKey(g, rest, k);
      assert WithKey(g, [x] + s, k) == WithKey(g, s, k);
    }
  }

  /** The sort is stable: entries with equal keys keep their relative order. */
  lemma {:induction false} SortIsStable(g: Garment, s: SizeMapping, k: real)
    ensures WithKey(g, SortByPrimary(g, s), k) == WithKey(g, s, k)
  {
    if s != [] {
      SortIsStable(g, s[1..], k);
      InsertWithKey(g, s[0], SortByPrimary(g, s[1..]), k);
    }
  }

  // ---------------------------------------------------------------------
  // Best match

  /** `k` is the first index of a minimum of the weighted score. */
  ghost predicate IsFirstMinimum(g: Garment, t: Target, s: SizeMapping, k: nat) {
    && k < |s|
    && (forall j :: 0 <= j < |s| ==> Score(g, s[k], t) <= Score(g, s[j], t))
    && (forall j :: 0 <= j < k ==> Score(g, s[k], t) < Score(g, s[j], t))
  }

  /** The weighted-distance loop: a strict `<` against the running minimum
      over the entries, left to right. */
  function BestMatch(g: Garment, t: Target, s: SizeMapping): (r: Option<nat>)
    ensures r.None? <==> |s| == 0
    ensures r.Some? ==> r.value < |s|
  {
    if |s| == 0 then None
    else
      var prev := BestMatch(g, t, s[..|s| - 1]);
      if prev.None? || Score(g, s[|s| - 1], t) < Score(g, s[prev.value], t) then Some(|s| - 1)
      else prev
  }

  /** The loop's result is the first index of a minimum score. */
  lemma {:induction false} BestMatchIsFirstMinimum(g: Garment, t: Target, s: SizeMapping)
    requires |s| > 0
    ensures IsFirstMinimum(g, t, s, BestMatch(g, t, s).value)
  {
    var n := |s| - 1;
    if n > 0 {
      BestMatchIsFirstMinimum(g, t, s[..n]);
      FirstMinimumExtends(g, t, s, BestMatch(g, t, s[..n]).value);
    }
  }

  /** Appending one entry keeps the first minimum unless the new entry
      scores strictly lower. */
  lemma FirstMinimumExtends(g: Garment, t: Target, s: SizeMapping, k: nat)
    requires |s| > 1 && IsFirstMinimum(g, t, s[..|s| - 1], k)
    ensures Score(g, s[|s| - 1], t) < Score(g, s[k], t) ==> IsFirstMinimum(g, t, s, |s| - 1)
    ensures Score(g, s[k], t) <= Score(g, s[|s| - 1], t) ==> IsFirstMinimum(g, t, s, k)
  {
    assert forall j :: 0 <= j < |s| - 1 ==> s[..|s| - 1][j] == s[j];
  }

  // ---------------------------------------------------------------------
  // Between-size scan

  /** Pair `i` (entries i and i+1) brackets the target. */
  predicate Brackets(g: Garment, tp: real, s: SizeMapping, i: nat)
    requires i + 1 < |s|
  {
    Primary(g, s[i]) <= tp <= Primary(g, s[i + 1])
  }

  /** The 30% gate on a bracketing pair with a positive span: one end lies
      within 30% of the span from the target.  The source divides by the
      span; `FractionTests` shows the two forms agree. */
  predicate WithinGate(lowerDiff: real, upperDiff: real, range: real) {
    lowerDiff <= 0.3 * range || upperDiff <= 0.3 * range
  }

  /** The loop over adjacent pairs from pair `i` on: the first bracketing
      pair that passes the gate is a hit; a bracketing pair of equal keys
      divides by zero. */
  function ScanFrom(g: Garment, tp: real, s: SizeMapping, i: nat): (r: Scan)
    decreases |s| - i
    ensures r.Hit? ==> i <= r.index && r.index + 1 < |s|
    ensures r.Hit? ==> Brackets(g, tp, s, r.index)
                       && Primary(g, s[r.index]) < Primary(g, s[r.index + 1])
                       && WithinGate(Abs(Primary(g, s[r.index]) - tp), Abs(Primary(g, s[r.index + 1]) - tp),
                                     Primary(g, s[r.index + 1]) - Primary(g, s[r.index]))
  {
    if i + 1 >= |s| then NoHit
    else
      var lo, hi := Primary(g, s[i]), Primary(g, s[i + 1]);
      if lo <= tp <= hi then
        var range := hi - lo;
        if range == 0.0 then ZeroRange
        else if WithinGate(Abs(lo - tp), Abs(hi - tp), range) then Hit(i)
        else ScanFrom(g, tp, s, i + 1)
      else ScanFrom(g, tp, s, i + 1)
  }

  /** The fractional position test for a compound code: the target lies
      strictly between 15% and 85% of the span from both ends. */
  predicate InCompoundWindow(lowerDiff: real, upperDiff: real, range: real) {
    && 0.15 * range < lowerDiff < 0.85 * range
    && 0.15 * range < upperDiff < 0.85 * range
  }

  lemma ScaleCompare(x: real, r: real, c: real)
    requires 0.0 < r
    ensures x <= c <==> x * r <= c * r
    ensures x < c <==> x * r < c * r
  {
    assert x * r - c * r == (x - c) * r;
    if x < c {
      assert 0.0 < (c - x) * r;
    } else if c < x {
      assert 0.0 < (x - c) * r;
    }
  }

  /** The source's divided fractions agree with the multiplied-out gate
      and window. */
  lemma FractionTests(lowerDiff: real, upperDiff: real, range: real)
    requires 0.0 < range
    ensures (lowerDiff / range <= 0.3 || upperDiff / range <= 0.3) <==> WithinGate(lowerDiff, upperDiff, range)
    ensures (0.15 < lowerDiff / range < 0.85 && 0.15 < upperDiff / range < 0.85)
        <==> InCompoundWindow(lowerDiff, upperDiff, range)
  {
    assert (lowerDiff / range) * range == lowerDiff;
    assert (upperDiff / range) * range == upperDiff;
    ScaleCompare(lowerDiff / range, range, 0.3);
    ScaleCompare(upperDiff / range, range, 0.3);
    ScaleCompare(lowerDiff / range, range, 0.15);
    ScaleCompare(upperDiff / range, range, 0.15);
    ScaleCompare(lowerDiff / range, range, 0.85);
    ScaleCompare(upperDiff / range, range, 0.85);
  }

  // ---------------------------------------------------------------------
  // Code formatting

  /** `s.replace(pat, "")`: every non-overlapping occurrence of `pat`,
      found left to right, is removed. */
  function RemoveAll(s: string, pat: string): (r: string)
    requires |pat| > 0
    ensures |r| <= |s|
    decreases |s|
  {
    if |s| < |pat| then s
    else if s[..|pat|] == pat then RemoveAll(s[|pat|..], pat)
    else [s[0]] + RemoveAll(s[1..], pat)
  }

  /** `pat` occurs somewhere in `s`. */
  predicate Occurs(pat: string, s: string)
    decreases |s|
  {
    |pat| <= |s| && (s[..|pat|] == pat || (|s| > 0 && Occurs(pat, s[1..])))
  }

  /** `s.split("/")[0]` */
  function BeforeSlash(s: string): (r: string)
    ensures r <= s && '/' !in r
    ensures |r| < |s| ==> s[|r|] == '/'
  {
    if |s| == 0 || s[0] == '/' then "" else [s[0]] + BeforeSlash(s[1..])
  }

  /** Jeans remove every "US_"; dresses and skirts first cut at the first "/". */
  function FormatCode(g: Garment, code: string): string {
    if g == Jeans then RemoveAll(code, "US_") else RemoveAll(BeforeSlash(code), "US_")
  }

  lemma {:induction false} RemoveAllAbsent(s: string, pat: string)
    requires |pat| > 0 && !Occurs(pat, s)
    ensures RemoveAll(s, pat) == s
    decreases |s|
  {
    if |s| >= |pat| {
      RemoveAllAbsent(s[1..], pat);
      assert s == [s[0]] + s[1..];
    }
  }

  /** Stripping the prefix of a prefixed code gives the bare code back. */
  lemma RemovePrefix(c: string)
    requires !Occurs("US_", c)
    ensures RemoveAll("US_" + c, "US_") == c
  {
    assert ("US_" + c)[..3] == "US_";
    assert ("US_" + c)[3..] == c;
    RemoveAllAbsent(c, "US_");
  }

  lemma {:induction false} BeforeSlashOfSlashFree(a: string, rest: string)
    requires '/' !in a
    ensures BeforeSlash(a + "/" + rest) == a
  {
    if a != [] {
      assert (a + "/" + rest)[1..] == a[1..] + "/" + rest;
      BeforeSlashOfSlashFree(a[1..], rest);
    } else {
      assert (a + "/" + rest)[0] == '/';
    }
  }

  // ---------------------------------------------------------------------
  // The resolver

  /** The resolver on the sorted entries. */
  function ResolveSorted(g: Garment, t: Target, s: SizeMapping): (r: Result<SizeCode>)
    ensures r.Err? <==> ScanFrom(g, TargetPrimary(g, t), s, 0) == ZeroRange
    ensures r.Err? ==> r.error == ZeroDivision
    ensures |s| == 0 ==> r == Ok(NoSize)
  {
    var tp := TargetPrimary(g, t);
    match ScanFrom(g, tp, s, 0)
    case ZeroRange => Err(ZeroDivision)
    case NoHit =>
      var best := BestMatch(g, t, s);
      Ok(if best.None? then NoSize else Single(FormatCode(g, s[best.value].code)))
    case Hit(i) => Ok(PairCode(g, tp, s[i], s[i + 1]))
  }

  /** The code for a hit on the pair `lower`, `upper`: both codes when the
      target lies in the compound window, otherwise the nearer end (the
      lower one on a tie). */
  function PairCode(g: Garment, tp: real, lower: SizeEntry, upper: SizeEntry): SizeCode {
    var lowerDiff, upperDiff := Abs(Primary(g, lower) - tp), Abs(Primary(g, upper) - tp);
    var range := Primary(g, upper) - Primary(g, lower);
    var nearer := if upperDiff < lowerDiff then upper else lower;
    if InCompoundWindow(lowerDiff, upperDiff, range) then
      Between(FormatCode(g, lower.code), FormatCode(g, upper.code))
    else
      Single(FormatCode(g, nearer.code))
  }

  /** `determine_{jeans,dress,skirt}_size(..., size_charts)`, as a structured code. */
  function Resolve(g: Garment, t: Target, charts: SizeCharts): Result<SizeCode> {
    ResolveSorted(g, t, SortByPrimary(g, Mapping(charts, g)))
  }

  /** The structured result rendered as the text the Python functions return. */
  function Render(r: Result<SizeCode>): Result<string> {
    match r
    case Ok(c) => Ok(c.Text())
    case Err(e) => Err(e)
  }

  function ResolveText(g: Garment, t: Target, charts: SizeCharts): Result<string> {
    Render(Resolve(g, t, charts))
  }

  // ---------------------------------------------------------------------
  // Properties of the resolver

  /** A category missing from the chart, or one without entries, resolves
      to the empty string. */
  lemma EmptyCategoryHasNoSize(g: Garment, t: Target, charts: SizeCharts)
    requires CategoryKey(g) !in charts || charts[CategoryKey(g)] == []
    ensures ResolveText(g, t, charts) == Ok("")
  {
    assert Mapping(charts, g) == [];
    assert SortByPrimary(g, []) == [];
  }

  /** Pairs before `i` that do not bracket the target are skipped. */
  lemma {:induction false} SkipToPair(g: Garment, tp: real, s: SizeMapping, j: nat, i: nat)
    requires j <= i
    requires forall k :: j <= k < i && k + 1 < |s| ==> !Brackets(g, tp, s, k)
    ensures ScanFrom(g, tp, s, j) == ScanFrom(g, tp, s, i)
    decreases i - j
  {
    if j < i {
      if j + 1 < |s| {
        assert !Brackets(g, tp, s, j);
        assert ScanFrom(g, tp, s, j) == ScanFrom(g, tp, s, j + 1);
        SkipToPair(g, tp, s, j + 1, i);
      } else {
        assert ScanFrom(g, tp, s, j) == NoHit;
        assert ScanFrom(g, tp, s, i) == NoHit;
      }
    }
  }

  /** With no bracketing pair from `j` on, the scan finds nothing. */
  lemma {:induction false} NoBracketNoHit(g: Garment, tp: real, s: SizeMapping, j: nat)
    requires forall k :: j <= k && k + 1 < |s| ==> !Brackets(g, tp, s, k)
    ensures ScanFrom(g, tp, s, j) == NoHit
    decreases |s| - j
  {
    if j + 1 < |s| {
      assert !Brackets(g, tp, s, j);
      assert !(Primary(g, s[j]) <= tp <= Primary(g, s[j + 1]));
      assert ScanFrom(g, tp, s, j) == ScanFrom(g, tp, s, j + 1);
      NoBracketNoHit(g, tp, s, j + 1);
    }
  }

  /** On sorted entries, a zero range can only be met at the scan's own
      starting pair. */
  lemma {:induction false} ZeroRangeAtStart(g: Garment, tp: real, s: SizeMapping, i: nat)
    requires SortedBy(g, s)
    ensures ScanFrom(g, tp, s, i) == ZeroRange ==>
              i + 1 < |s| && Primary(g, s[i]) == tp == Primary(g, s[i + 1])
    decreases |s| - i
  {
    if i + 1 < |s| {
      ZeroRangeAtStart(g, tp, s, i + 1);
      var lo, hi := Primary(g, s[i]), Primary(g, s[i + 1]);
    }
  }

  /** The resolver raises ZeroDivisionError exactly when the two smallest
      entries share the target's primary measurement. */
  lemma ZeroDivisionIffEqualLeadingPair(g: Garment, t: Target, s: SizeMapping)
    requires SortedBy(g, s)
    ensures ResolveSorted(g, t, s).Err?
        <==> |s| >= 2 && Primary(g, s[0]) == TargetPrimary(g, t) == Primary(g, s[1])
  {
    ZeroRangeAtStart(g, TargetPrimary(g, t), s, 0);
  }

  /** A target below the smallest or above the largest entry is never
      between sizes: the weighted first minimum decides. */
  lemma TargetOutsideChartUsesBestMatch(g: Garment, t: Target, s: SizeMapping)
    requires SortedBy(g, s) && |s| > 0
    requires TargetPrimary(g, t) < Primary(g, s[0]) || Primary(g, s[|s| - 1]) < TargetPrimary(g, t)
    ensures BestMatch(g, t, s).Some?
    ensures ResolveSorted(g, t, s) == Ok(Single(FormatCode(g, s[BestMatch(g, t, s).value].code)))
  {
    var tp := TargetPrimary(g, t);
    forall k | 0 <= k && k + 1 < |s|
      ensures !Brackets(g, tp, s, k)
    {
      if tp < Primary(g, s[0]) {
        assert Primary(g, s[0]) <= Primary(g, s[k]);
      } else {
        assert Primary(g, s[k + 1]) <= Primary(g, s[|s| - 1]);
      }
    }
    NoBracketNoHit(g, tp, s, 0);
    ResolveSortedOnNoHit(g, t, s);
  }

  /** The bracketing pair `s[i]`, `s[i + 1]` yields the compound code: its
      span is positive, the code names the two entries, and the target sits
      strictly inside (15%, 85%) from both ends and passes the 30% gate. */
  predicate CompoundFrom(g: Garment, t: Target, s: SizeMapping, i: nat, c: SizeCode)
    requires i + 1 < |s|
  {
    var tp := TargetPrimary(g, t);
    var lowerDiff, upperDiff := Abs(Primary(g, s[i]) - tp), Abs(Primary(g, s[i + 1]) - tp);
    var range := Primary(g, s[i + 1]) - Primary(g, s[i]);
    && range > 0.0
    && c == Between(FormatCode(g, s[i].code), FormatCode(g, s[i + 1].code))
    && InCompoundWindow(lowerDiff, upperDiff, range)
    && WithinGate(lowerDiff, upperDiff, range)
  }

  /** A compound code only comes from a bracketing pair whose target sits
      strictly inside (15%, 85%) from both ends; with the 30% gate one of
      the two fractions then lies in (15%, 30%]. */
  lemma CompoundCodeComesFromWindow(g: Garment, t: Target, s: SizeMapping)
    ensures
      var r := ResolveSorted(g, t, s);
      var sc := ScanFrom(g, TargetPrimary(g, t), s, 0);
      r.Ok? && r.value.Between? ==>
        sc.Hit? && sc.index + 1 < |s| && CompoundFrom(g, t, s, sc.index, r.value)
  {
    match ScanFrom(g, TargetPrimary(g, t), s, 0)
    case ZeroRange =>
    case NoHit => ResolveSortedOnNoHit(g, t, s);
    case Hit(i) => CompoundCodeOnHit(g, t, s, i);
  }

  lemma CompoundCodeOnHit(g: Garment, t: Target, s: SizeMapping, i: nat)
    requires ScanFrom(g, TargetPrimary(g, t), s, 0) == Hit(i)
    ensures i + 1 < |s|
    ensures
      var r := ResolveSorted(g, t, s);
      r.Ok? && r.value.Between? ==> CompoundFrom(g, t, s, i, r.value)
  {
    ResolveSortedOnHit(g, t, s, i);
  }

  /** A target in the middle 40% of a strictly increasing adjacent pair
      never produces a compound code: the scan passes over the pair and
      the weighted first minimum decides. */
  lemma MiddleOfSpanIsNeverCompound(g: Garment, t: Target, s: SizeMapping, i: nat)
    requires SortedBy(g, s) && i + 1 < |s|
    requires
      var lo, hi := Primary(g, s[i]), Primary(g, s[i + 1]);
      lo < hi && lo + 0.3 * (hi - lo) < TargetPrimary(g, t) < hi - 0.3 * (hi - lo)
    ensures BestMatch(g, t, s).Some?
    ensures ResolveSorted(g, t, s) == Ok(Single(FormatCode(g, s[BestMatch(g, t, s).value].code)))
  {
    var tp := TargetPrimary(g, t);
    ScanSkipsBelow(g, tp, s, i);
    MiddlePairSkipped(g, tp, s, i);
    ScanMissesAbove(g, tp, s, i + 1);
    ResolveSortedOnNoHit(g, t, s);
  }

  /** On sorted entries, every pair before an entry below the target is
      passed over. */
  lemma ScanSkipsBelow(g: Garment, tp: real, s: SizeMapping, i: nat)
    requires SortedBy(g, s) && i < |s| && Primary(g, s[i]) < tp
    ensures ScanFrom(g, tp, s, 0) == ScanFrom(g, tp, s, i)
  {
    forall k | 0 <= k < i && k + 1 < |s|
      ensures !Brackets(g, tp, s, k)
    {
      assert Primary(g, s[k + 1]) <= Primary(g, s[i]);
    }
    SkipToPair(g, tp, s, 0, i);
  }

  /** On sorted entries, the scan from an entry above the target finds
      nothing. */
  lemma ScanMissesAbove(g: Garment, tp: real, s: SizeMapping, j: nat)
    requires SortedBy(g, s) && j < |s| && tp < Primary(g, s[j])
    ensures ScanFrom(g, tp, s, j) == NoHit
  {
    forall k | j <= k && k + 1 < |s|
      ensures !Brackets(g, tp, s, k)
    {
      assert Primary(g, s[j]) <= Primary(g, s[k]);
    }
    NoBracketNoHit(g, tp, s, j);
  }

  /** A target in the middle 40% of a pair fails the 30% gate. */
  lemma MiddlePairSkipped(g: Garment, tp: real, s: SizeMapping, i: nat)
    requires i + 1 < |s|
    requires
      var lo, hi := Primary(g, s[i]), Primary(g, s[i + 1]);
      lo < hi && lo + 0.3 * (hi - lo) < tp < hi - 0.3 * (hi - lo)
    ensures ScanFrom(g, tp, s, i) == ScanFrom(g, tp, s, i + 1)
  {
    var lo, hi := Primary(g, s[i]), Primary(g, s[i + 1]);
    assert !WithinGate(Abs(lo - tp), Abs(hi - tp), hi - lo);
  }

  /** A hit on a pair where one end equals the target resolves to that end. */
  lemma HitAtExactEnd(g: Garment, t: Target, s: SizeMapping, h: nat, i: nat)
    requires ScanFrom(g, TargetPrimary(g, t), s, 0) == Hit(h)
    requires h + 1 < |s| && (i == h || i == h + 1)
    requires Primary(g, s[i]) == TargetPrimary(g, t)
    ensures ResolveSorted(g, t, s) == Ok(Single(FormatCode(g, s[i].code)))
  {
    ResolveSortedOnHit(g, t, s, h);
  }

  /** A target equal to the primary measurement of an entry whose
      neighbours differ from it resolves to exactly that entry's code. */
  lemma ExactTargetGivesThatSize(g: Garment, t: Target, s: SizeMapping, i: nat)
    requires SortedBy(g, s) && i < |s|
    requires Primary(g, s[i]) == TargetPrimary(g, t)
    requires i == 0 || Primary(g, s[i - 1]) < TargetPrimary(g, t)
    requires i + 1 == |s| || TargetPrimary(g, t) < Primary(g, s[i + 1])
    ensures ResolveSorted(g, t, s) == Ok(Single(FormatCode(g, s[i].code)))
  {
    var tp := TargetPrimary(g, t);
    if |s| == 1 {
      NoBracketNoHit(g, tp, s, 0);
      assert BestMatch(g, t, s[..0]) == None;
      ResolveSortedOnNoHit(g, t, s);
    } else if i == 0 {
      ScanAt(g, tp, s, 0);
      HitAtExactEnd(g, t, s, 0, 0);
    } else {
      ScanSkipsBelow(g, tp, s, i - 1);
      ScanAt(g, tp, s, i - 1);
      HitAtExactEnd(g, t, s, i - 1, i);
    }
  }

  /** A two-entry jeans chart: waist 70 for US_4, 74 for US_6. */
  function ExampleJeans(): SizeMapping {
    [SizeEntry("US_4", 0.0, 70.0, 96.0, "34", "8"), SizeEntry("US_6", 0.0, 74.0, 100.0, "36", "10")]
  }

  lemma ExampleJeansResolve(t: Target)
    ensures Resolve(Jeans, t, map["jeans" := ExampleJeans()]) == ResolveSorted(Jeans, t, ExampleJeans())
  {
    var s := ExampleJeans();
    assert Mapping(map["jeans" := s], Jeans) == s;
    ExampleJeansSorted();
  }

  lemma ExampleJeansSorted()
    ensures SortByPrimary(Jeans, ExampleJeans()) == ExampleJeans()
  {
    var s := ExampleJeans();
    var tail := s[1..];
    assert tail[1..] == [] && tail[0] == s[1];
    assert SortByPrimary(Jeans, tail) == [s[1]];
    assert Insert(Jeans, s[0], [s[1]]) == s;
  }

  /** A waist within 30% of the span from either end of the example
      chart is a hit on its only pair. */
  lemma ExampleJeansHit(t: Target)
    requires 70.0 <= t.waist <= 74.0 && (t.waist - 70.0 <= 1.2 || 74.0 - t.waist <= 1.2)
    ensures ResolveSorted(Jeans, t, ExampleJeans()) == Ok(PairCode(Jeans, t.waist, ExampleJeans()[0], ExampleJeans()[1]))
  {
    var s := ExampleJeans();
    ScanAt(Jeans, t.waist, s, 0);
    ResolveSortedOnHit(Jeans, t, s, 0);
  }

  lemma ExampleCodes()
    ensures FormatCode(Jeans, "US_4") == "4" && FormatCode(Jeans, "US_6") == "6"
  {
    assert "US_4" == "US_" + "4";
    assert "US_6" == "US_" + "6";
    RemovePrefix("4");
    RemovePrefix("6");
  }

  /** An example on a two-entry chart: a 71.2 cm waist is "4-6". */
  lemma JeansExampleBetween()
    ensures ResolveText(Jeans, Target(0.0, 71.2, 98.0), map["jeans" := ExampleJeans()]) == Ok("4-6")
  {
    var t := Target(0.0, 71.2, 98.0);
    var s := ExampleJeans();
    ExampleJeansResolve(t);
    ExampleJeansHit(t);
    ExamplePairCodes();
  }

  /** ... and a 73.5 cm waist is "6". */
  lemma JeansExampleNearerEnd()
    ensures ResolveText(Jeans, Target(0.0, 73.5, 98.0), map["jeans" := ExampleJeans()]) == Ok("6")
  {
    var t := Target(0.0, 73.5, 98.0);
    var s := ExampleJeans();
    ExampleJeansResolve(t);
    ExampleJeansHit(t);
    ExamplePairCodes();
  }

  /** The codes of the example pair at 71.2 cm and at 73.5 cm. */
  lemma ExamplePairCodes()
    ensures PairCode(Jeans, 71.2, ExampleJeans()[0], ExampleJeans()[1]) == Between("4", "6")
    ensures PairCode(Jeans, 71.2, ExampleJeans()[0], ExampleJeans()[1]).Text() == "4-6"
    ensures PairCode(Jeans, 73.5, ExampleJeans()[0], ExampleJeans()[1]) == Single("6")
  {
    ExampleCodes();
    assert "4" + "-" + "6" == "4-6";
    assert InCompoundWindow(1.2, 2.8, 4.0);
    assert !InCompoundWindow(3.5, 0.5, 4.0);
  }

  /** Extending the prefix by entry `i` replaces the best match only on a
      strictly smaller score. */
  lemma BestMatchStep(g: Garment, t: Target, s: SizeMapping, i: nat)
    requires i < |s|
    ensures var prev := BestMatch(g, t, s[..i]);
            BestMatch(g, t, s[..i + 1])
              == if prev.None? || Score(g, s[i], t) < Score(g, s[prev.value], t) then Some(i) else prev
  {
    assert s[..i + 1][..i] == s[..i];
  }

  /** The weighted-distance loop of the resolver. */
  method FindBestMatch(g: Garment, t: Target, s: SizeMapping) returns (best: Option<nat>)
    ensures best == BestMatch(g, t, s)
  {
    best := None;
    var minDiff := 0.0;
    for i := 0 to |s|
      invariant best == BestMatch(g, t, s[..i])
      invariant best.Some? ==> best.value < i && minDiff == Score(g, s[best.value], t)
    {
      BestMatchStep(g, t, s, i);
      var totalDiff := Score(g, s[i], t);
      if best.None? || totalDiff < minDiff {
        minDiff := totalDiff;
        best := Some(i);
      }
    }
    assert s[..|s|] == s;
  }

  /** One step of the scan at pair `i`. */
  lemma ScanAt(g: Garment, tp: real, s: SizeMapping, i: nat)
    requires i + 1 < |s|
    ensures
      var lo, hi := Primary(g, s[i]), Primary(g, s[i + 1]);
      var gate := WithinGate(Abs(lo - tp), Abs(hi - tp), hi - lo);
      && (lo <= tp <= hi && hi - lo == 0.0 ==> ScanFrom(g, tp, s, i) == ZeroRange)
      && (lo <= tp <= hi && hi - lo != 0.0 && gate ==> ScanFrom(g, tp, s, i) == Hit(i))
      && (!(lo <= tp <= hi) || (hi - lo != 0.0 && !gate) ==> ScanFrom(g, tp, s, i) == ScanFrom(g, tp, s, i + 1))
  {
  }

  /** The loop's fraction test is the gate. */
  lemma GateTest(lowerDiff: real, upperDiff: real, range: real, hit: bool)
    requires 0.0 < range
    requires hit == (lowerDiff / range <= 0.3 || upperDiff / range <= 0.3)
    ensures hit == WithinGate(lowerDiff, upperDiff, range)
  {
    FractionTests(lowerDiff, upperDiff, range);
  }

  /** The between-size loop over adjacent pairs, stopping at the first hit. */
  method ScanPairs(g: Garment, tp: real, s: SizeMapping) returns (r: Scan)
    ensures r == ScanFrom(g, tp, s, 0)
  {
    var i := 0;
    while i + 1 < |s|
      invariant ScanFrom(g, tp, s, 0) == ScanFrom(g, tp, s, i)
    {
      var current, next := Primary(g, s[i]), Primary(g, s[i + 1]);
      ScanAt(g, tp, s, i);
      if current <= tp <= next {
        var lowerDiff := Abs(current - tp);
        var upperDiff := Abs(next - tp);
        var totalRange := next - current;
        if totalRange == 0.0 {
          return ZeroRange;
        }
        var hit := lowerDiff / totalRange <= 0.3 || upperDiff / totalRange <= 0.3;
        GateTest(lowerDiff, upperDiff, totalRange, hit);
        if hit {
          return Hit(i);
        }
      }
      i := i + 1;
    }
    return NoHit;
  }

  /** The resolver as the source writes it: the entries are copied out of
      the dictionary, sorted, searched for the weighted minimum, scanned for
      a between-size pair (stopping at the first hit) and formatted. */
  method DetermineSize(g: Garment, t: Target, charts: SizeCharts) returns (r: Result<string>)
    ensures r == ResolveText(g, t, charts)
  {
    var mapping := Mapping(charts, g);
    var sizeData: SizeMapping := [];
    for i := 0 to |mapping|
      invariant sizeData == mapping[..i]
    {
      sizeData := sizeData + [mapping[i]];
    }
    assert sizeData == mapping;
    sizeData := SortByPrimary(g, sizeData);

    var bestMatch := FindBestMatch(g, t, sizeData);
    var tp := TargetPrimary(g, t);
    var scan := ScanPairs(g, tp, sizeData);
    r := FormatResult(g, t, sizeData, bestMatch, scan);
  }

  /** The tail of the resolver: the scan's hit overrides the best match
      with the nearer end, a hit in the compound window gives "lower-upper". */
  method FormatResult(g: Garment, t: Target, s: SizeMapping, bestMatch: Option<nat>, scan: Scan)
    returns (r: Result<string>)
    requires bestMatch == BestMatch(g, t, s)
    requires scan == ScanFrom(g, TargetPrimary(g, t), s, 0)
    ensures r == Render(ResolveSorted(g, t, s))
  {
    var tp := TargetPrimary(g, t);
    if scan.ZeroRange? {
      return Err(ZeroDivision);
    }
    if scan.NoHit? {
      return Ok(if bestMatch.Some? then FormatCode(g, s[bestMatch.value].code) else "");
    }
    var i := scan.index;
    var lowerDiff := Abs(Primary(g, s[i]) - tp);
    var upperDiff := Abs(Primary(g, s[i + 1]) - tp);
    var best := if upperDiff < lowerDiff then i + 1 else i;
    var result := FormatCode(g, s[best].code);
    var lower := FormatCode(g, s[i].code);
    var upper := FormatCode(g, s[i + 1].code);
    var totalRange := Primary(g, s[i + 1]) - Primary(g, s[i]);
    ResolveSortedOnHit(g, t, s, i);
    PairCodeText(g, tp, s[i], s[i + 1], lowerDiff, upperDiff, totalRange);
    if 0.15 < lowerDiff / totalRange < 0.85 && 0.15 < upperDiff / totalRange < 0.85 {
      result := lower + "-" + upper;
    }
    r := Ok(result);
  }

  /** The text of a pair's code in the source's divided form. */
  lemma PairCodeText(g: Garment, tp: real, lower: SizeEntry, upper: SizeEntry,
                     lowerDiff: real, upperDiff: real, range: real)
    requires lowerDiff == Abs(Primary(g, lower) - tp) && upperDiff == Abs(Primary(g, upper) - tp)
    requires range == Primary(g, upper) - Primary(g, lower) && 0.0 < range
    ensures 0.15 < lowerDiff / range < 0.85 && 0.15 < upperDiff / range < 0.85 ==>
              PairCode(g, tp, lower, upper).Text() == FormatCode(g, lower.code) + "-" + FormatCode(g, upper.code)
    ensures !(0.15 < lowerDiff / range < 0.85 && 0.15 < upperDiff / range < 0.85) ==>
              PairCode(g, tp, lower, upper).Text() == FormatCode(g, (if upperDiff < lowerDiff then upper else lower).code)
  {
    FractionTests(lowerDiff, upperDiff, range);
  }

  lemma ResolveSortedOnNoHit(g: Garment, t: Target, s: SizeMapping)
    requires ScanFrom(g, TargetPrimary(g, t), s, 0) == NoHit
    ensures BestMatch(g, t, s).Some? <==> |s| > 0
    ensures ResolveSorted(g, t, s)
         == Ok(if |s| == 0 then NoSize else Single(FormatCode(g, s[BestMatch(g, t, s).value].code)))
  {
  }

  lemma ResolveSortedOnHit(g: Garment, t: Target, s: SizeMapping, i: nat)
    requires ScanFrom(g, TargetPrimary(g, t), s, 0) == Hit(i)
    ensures i + 1 < |s| && Primary(g, s[i]) < Primary(g, s[i + 1])
    ensures ResolveSorted(g, t, s) == Ok(PairCode(g, TargetPrimary(g, t), s[i], s[i + 1]))
  {
  }

  // ---------------------------------------------------------------------
  // Size details (EU/UK data of a resolved code)

  /** Index of the dictionary item with key `key`. */
  function FindCode(m: SizeMapping, key: string): (r: Option<nat>)
    ensures r.Some? ==> r.value < |m| && m[r.value].code == key
    ensures r.Some? ==> forall j :: 0 <= j < r.value ==> m[j].code != key
    ensures r.None? ==> forall j :: 0 <= j < |m| ==> m[j].code != key
  {
    if m == [] then None
    else if m[0].code == key then Some(0)
    else match FindCode(m[1..], key)
      case None => None
      case Some(k) => Some(k + 1)
  }

  /** Index of the first key that starts with `prefix`. */
  function FindPrefix(m: SizeMapping, prefix: string): (r: Option<nat>)
    ensures r.Some? ==> r.value < |m| && prefix <= m[r.value].code
    ensures r.Some? ==> forall j :: 0 <= j < r.value ==> !(prefix <= m[j].code)
    ensures r.None? ==> forall j :: 0 <= j < |m| ==> !(prefix <= m[j].code)
  {
    if m == [] then None
    else if prefix <= m[0].code then Some(0)
    else match FindPrefix(m[1..], prefix)
      case None => None
      case Some(k) => Some(k + 1)
  }

  /** `get_size_details`: an empty code has no details; jeans look the
      prefixed code up exactly; dresses and skirts try the exact key, then
      the first key of the form "US_<code>/...". */
  function SizeDetails(g: Garment, code: string, charts: SizeCharts): (r: Option<SizeEntry>)
    ensures code == "" ==> r == None
    ensures r.Some? ==> r.value in Mapping(charts, g)
    ensures r.Some? && g == Jeans ==> r.value.code == "US_" + code
    ensures r.Some? && g != Jeans ==>
              r.value.code == "US_" + code || ("US_" + code + "/" <= r.value.code)
  {
    var m := Mapping(charts, g);
    var key := "US_" + code;
    if code == "" then None
    else match FindCode(m, key)
      case Some(k) => Some(m[k])
      case None =>
        if g == Jeans then None
        else match FindPrefix(m, key + "/")
          case Some(k) => Some(m[k])
          case None => None
  }

  /** `get_size_details` as the source writes it, with the loop over the
      dictionary keys for the prefix match. */
  method GetSizeDetails(g: Garment, code: string, charts: SizeCharts) returns (r: Option<SizeEntry>)
    ensures r == SizeDetails(g, code, charts)
  {
    if code == "" {
      return None;
    }
    var lookup := "US_" + code;
    var m := Mapping(charts, g);
    var exact := FindCode(m, lookup);
    if g == Dresses || g == Skirts {
      if exact.Some? {
        return Some(m[exact.value]);
      }
      var prefix := lookup + "/";
      for k := 0 to |m|
        invariant forall j :: 0 <= j < k ==> !(prefix <= m[j].code)
      {
        if prefix <= m[k].code {
          assert FindPrefix(m, prefix) == Some(k) by { FirstPrefixIsFound(m, prefix, k); }
          return Some(m[k]);
        }
      }
      assert FindPrefix(m, prefix) == None;
    } else {
      return if exact.Some? then Some(m[exact.value]) else None;
    }
    return None;
  }

  lemma FirstPrefixIsFound(m: SizeMapping, prefix: string, k: nat)
    requires k < |m| && prefix <= m[k].code
    requires forall j :: 0 <= j < k ==> !(prefix <= m[j].code)
    ensures FindPrefix(m, prefix) == Some(k)
  {
    var r := FindPrefix(m, prefix);
    assert r.Some?;
  }

  /** The formatted code of a jeans entry finds that entry again. */
  lemma JeansDetailsRoundTrip(charts: SizeCharts, c: string, k: nat)
    requires k < |Mapping(charts, Jeans)|
    requires Mapping(charts, Jeans)[k].code == "US_" + c
    requires c != "" && !Occurs("US_", c)
    requires forall j :: 0 <= j < k ==> Mapping(charts, Jeans)[j].code != "US_" + c
    ensures SizeDetails(Jeans, FormatCode(Jeans, "US_" + c), charts) == Some(Mapping(charts, Jeans)[k])
  {
    RemovePrefix(c);
    var f := FindCode(Mapping(charts, Jeans), "US_" + c);
    assert f == Some(k);
  }

  /** The formatted code of a dress or skirt entry keyed "US_<c>/<rest>"
      finds that entry again through the prefix match. */
  lemma SlashedDetailsRoundTrip(g: Garment, charts: SizeCharts, c: string, rest: string, k: nat)
    requires g != Jeans
    requires k < |Mapping(charts, g)|
    requires Mapping(charts, g)[k].code == "US_" + c + "/" + rest
    requires c != "" && '/' !in c && !Occurs("US_", c)
    requires forall j :: 0 <= j < |Mapping(charts, g)| ==> Mapping(charts, g)[j].code != "US_" + c
    requires forall j :: 0 <= j < k ==> !("US_" + c + "/" <= Mapping(charts, g)[j].code)
    ensures SizeDetails(g, FormatCode(g, "US_" + c + "/" + rest), charts) == Some(Mapping(charts, g)[k])
  {
    SlashedCodeFormats(g, c, rest);
    PrefixDetails(g, charts, c, k);
  }

  lemma SlashedCodeFormats(g: Garment, c: string, rest: string)
    requires g != Jeans
    requires '/' !in c && !Occurs("US_", c)
    ensures FormatCode(g, "US_" + c + "/" + rest) == c
  {
    assert '/' !in "US_" + c;
    BeforeSlashOfSlashFree("US_" + c, rest);
    RemovePrefix(c);
  }

  lemma PrefixDetails(g: Garment, charts: SizeCharts, c: string, k: nat)
    requires g != Jeans
    requires k < |Mapping(charts, g)|
    requires "US_" + c + "/" <= Mapping(charts, g)[k].code
    requires c != ""
    requires forall j :: 0 <= j < |Mapping(charts, g)| ==> Mapping(charts, g)[j].code != "US_" + c
    requires forall j :: 0 <= j < k ==> !("US_" + c + "/" <= Mapping(charts, g)[j].code)
    ensures SizeDetails(g, c, charts) == Some(Mapping(charts, g)[k])
  {
    var m := Mapping(charts, g);
    assert FindCode(m, "US_" + c) == None;
    FirstPrefixIsFound(m, "US_" + c + "/", k);
  }
}
