/** The measurement form (frontend/src/components/MeasurementForm.tsx): the
    form's waist, hip and clothing preferences, the style and colour
    toggles, and the guard in front of `onSubmit`. */
module MeasurementForm {
  import opened Catalogue

  datatype FormState = FormState(waist: real, hip: real, preferences: Preferences)

  /** The form as first shown. */
  const InitialForm := FormState(28.0, 36.0, Preferences(Regular, ["casual"], ["neutral"]))

  /** `xs.filter(s => s !== x)` */
  function Without(xs: seq<string>, x: string): (r: seq<string>)
    ensures |r| <= |xs|
    ensures forall y :: y in r <==> y in xs && y != x
  {
    if |xs| == 0 then []
    else (if xs[0] != x then [xs[0]] else []) + Without(xs[1..], x)
  }

  /** A value is dropped from a list that lacks it: the list is unchanged. */
  lemma {:induction false} WithoutAbsent(xs: seq<string>, x: string)
    requires x !in xs
    ensures Without(xs, x) == xs
  {
    if |xs| > 0 {
      WithoutAbsent(xs[1..], x);
      assert xs == [xs[0]] + xs[1..];
    }
  }

  /** The filter keeps the order of what it keeps, and each other value as
      often as it occurs. */
  lemma {:induction false} WithoutCounts(xs: seq<string>, x: string)
    ensures multiset(Without(xs, x))[x] == 0
    ensures forall y | y != x :: multiset(Without(xs, x))[y] == multiset(xs)[y]
  {
    if |xs| > 0 {
      WithoutCounts(xs[1..], x);
      assert xs == [xs[0]] + xs[1..];
    }
  }

  /** The filter distributes over a split of the list, so the kept values
      stay in their order. */
  lemma {:induction false} WithoutKeepsOrder(a: seq<string>, b: seq<string>, x: string)
    ensures Without(a + b, x) == Without(a, x) + Without(b, x)
  {
    if |a| > 0 {
      assert (a + b)[1..] == a[1..] + b;
      WithoutKeepsOrder(a[1..], b, x);
    } else {
      assert a + b == b;
    }
  }

  /** The update inside `handleStyleChange` and `handleColorChange`: a value
      already present is removed, every occurrence of it; an absent one is
      appended at the end. */
  function Toggle(xs: seq<string>, x: string): (r: seq<string>)
    ensures x in r <==> x !in xs
    ensures forall y | y != x :: y in r <==> y in xs
  {
    if x in xs then Without(xs, x) else xs + [x]
  }

  /** Toggling a present value removes all of its occurrences and keeps
      the rest, counts and order included. */
  lemma ToggleRemovesAll(xs: seq<string>, x: string)
    requires x in xs
    ensures multiset(Toggle(xs, x))[x] == 0
    ensures forall y | y != x :: multiset(Toggle(xs, x))[y] == multiset(xs)[y]
    ensures Toggle(xs, x) == Without(xs, x)
  {
    WithoutCounts(xs, x);
  }

  /** Toggling an absent value twice restores the list. */
  lemma ToggleTwiceRestores(xs: seq<string>, x: string)
    requires x !in xs
    ensures Toggle(Toggle(xs, x), x) == xs
  {
    WithoutKeepsOrder(xs, [x], x);
    WithoutAbsent(xs, x);
    assert Without([x], x) == [];
  }

  /** Toggling a present value twice does not restore the list: the value
      comes back once, at the end. */
  lemma ToggleTwiceMovesToEnd(xs: seq<string>, x: string)
    requires x in xs
    ensures Toggle(Toggle(xs, x), x) == Without(xs, x) + [x]
  {
  }

  /** `handleStyleChange`: only the styles change. */
  function StyleChange(f: FormState, style: string): (r: FormState)
    ensures r.waist == f.waist && r.hip == f.hip
    ensures r.preferences.fit == f.preferences.fit && r.preferences.colors == f.preferences.colors
    ensures r.preferences.style == Toggle(f.preferences.style, style)
  {
    f.(preferences := f.preferences.(style := Toggle(f.preferences.style, style)))
  }

  /** `handleColorChange`: only the colours change. */
  function ColorChange(f: FormState, color: string): (r: FormState)
    ensures r.waist == f.waist && r.hip == f.hip
    ensures r.preferences.fit == f.preferences.fit && r.preferences.style == f.preferences.style
    ensures r.preferences.colors == Toggle(f.preferences.colors, color)
  {
    f.(preferences := f.preferences.(colors := Toggle(f.preferences.colors, color)))
  }

  /** The fit radio group: only the fit changes. */
  function FitChange(f: FormState, fit: Fit): (r: FormState)
    ensures r.waist == f.waist && r.hip == f.hip && r.preferences.fit == fit
    ensures r.preferences.style == f.preferences.style && r.preferences.colors == f.preferences.colors
  {
    f.(preferences := f.preferences.(fit := fit))
  }

  /** What pressing the submit button does. */
  datatype Submission = Rejected | Submitted(waist: real, hip: real, preferences: Preferences)

  /** `handleSubmit`: a zero waist or hip is refused; anything else reaches
      `onSubmit` with the form's current values. */
  function Submit(f: FormState): (r: Submission)
    ensures r.Rejected? <==> f.waist == 0.0 || f.hip == 0.0
    ensures r.Submitted? ==> r.waist == f.waist && r.hip == f.hip && r.preferences == f.preferences
  {
    if f.waist == 0.0 || f.hip == 0.0 then Rejected
    else Submitted(f.waist, f.hip, f.preferences)
  }

  /** The untouched form can be submitted as it stands, and toggling its
      one style off leaves no style. */
  lemma InitialFormSubmits()
    ensures Submit(InitialForm) == Submitted(28.0, 36.0, Preferences(Regular, ["casual"], ["neutral"]))
    ensures StyleChange(InitialForm, "casual").preferences.style == []
  {
    assert "casual" in InitialForm.preferences.style;
  }
}
