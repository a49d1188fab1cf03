/** The dashboard page (frontend/src/pages/Dashboard.tsx): the items of the
    sample catalogue whose ranges contain the stored user's sizes, each
    labelled with the waist-based size, the labelled offers, and the
    fallback to the first three items when nothing fits. */
module Dashboard {
  import opened Common
  import opened Catalogue

  /** The filter test: both ranges contain the user's sizes, bounds included. */
  predicate Fits(u: User, item: ClothingItem) {
    item.waistRange.Contains(u.waistSize) && item.hipRange.Contains(u.hipSize)
  }

  /** `getOfferSizeRecommendation`, the page's second copy of the thresholds;
      it is the item label, whatever the hip. */
  function OfferSizeLabel(waist: real, hip: real): (r: string)
    ensures r == SizeLabel(waist)
  {
    if waist < 27.0 then "XS"
    else if waist < 29.0 then "S"
    else if waist < 32.0 then "M"
    else if waist < 35.0 then "L"
    else "XL"
  }

  /** The filter and map of the timer callback: the fitting items, each with
      the user's size label. */
  function Recommended(items: seq<ClothingItem>, u: User): (r: seq<ClothingItem>)
    ensures |r| <= |items|
    ensures forall x | x in r :: Fits(u, x) && x.sizeRecommendation == Some(SizeLabel(u.waistSize))
  {
    if |items| == 0 then []
    else (if Fits(u, items[0]) then [WithSize(items[0], SizeLabel(u.waistSize))] else [])
         + Recommended(items[1..], u)
  }

  /** An item is recommended exactly when it fits, and it is then the
      catalogue item with only its size label set. */
  lemma {:induction false} RecommendedExactly(items: seq<ClothingItem>, u: User, x: ClothingItem)
    ensures x in Recommended(items, u) <==>
            exists i | 0 <= i < |items| :: Fits(u, items[i]) && x == WithSize(items[i], SizeLabel(u.waistSize))
  {
    if |items| > 0 {
      RecommendedExactly(items[1..], u, x);
      assert forall i | 0 < i < |items| :: items[1..][i - 1] == items[i];
      if x in Recommended(items[1..], u) {
        var i :| 0 <= i < |items[1..]| && Fits(u, items[1..][i]) && x == WithSize(items[1..][i], SizeLabel(u.waistSize));
        assert items[i + 1] == items[1..][i];
      }
    }
  }

  /** The filter keeps the catalogue order: it distributes over a split of
      the catalogue. */
  lemma {:induction false} RecommendedKeepsOrder(a: seq<ClothingItem>, b: seq<ClothingItem>, u: User)
    ensures Recommended(a + b, u) == Recommended(a, u) + Recommended(b, u)
  {
    if |a| > 0 {
      assert (a + b)[1..] == a[1..] + b;
      RecommendedKeepsOrder(a[1..], b, u);
    } else {
      assert a + b == b;
    }
  }

  /** When every item fits, every item is kept, labelled, in place. */
  lemma {:induction false} AllFitAllRecommended(items: seq<ClothingItem>, u: User)
    requires forall i | 0 <= i < |items| :: Fits(u, items[i])
    ensures |Recommended(items, u)| == |items|
    ensures forall i | 0 <= i < |items| :: Recommended(items, u)[i] == WithSize(items[i], SizeLabel(u.waistSize))
  {
    if |items| > 0 {
      AllFitAllRecommended(items[1..], u);
    }
  }

  /** `sampleOffers.map(...)`: every offer, in order, with the waist label. */
  function OffersWithSizes(offers: seq<ExternalOffer>, u: User): (r: seq<ExternalOffer>)
    ensures |r| == |offers|
    ensures forall i | 0 <= i < |offers| :: r[i] == OfferWithSize(offers[i], SizeLabel(u.waistSize))
  {
    seq(|offers|, i requires 0 <= i < |offers| => OfferWithSize(offers[i], OfferSizeLabel(u.waistSize, u.hipSize)))
  }

  /** `sampleClothingItems.slice(0, 3)` */
  function FirstThree(items: seq<ClothingItem>): seq<ClothingItem> {
    if |items| <= 3 then items else items[..3]
  }

  /** The recommendations once the timer has run: the filtered items, or
      the first three catalogue items when the filter keeps nothing. */
  function ShownItems(items: seq<ClothingItem>, u: User): seq<ClothingItem> {
    var filtered := Recommended(items, u);
    if |filtered| == 0 then FirstThree(items) else filtered
  }

  /** The fallback happens exactly when no catalogue item fits; the page
      then shows unlabelled catalogue items and is never empty for a
      non-empty catalogue. */
  lemma FallbackWhenNothingFits(items: seq<ClothingItem>, u: User)
    ensures (forall i | 0 <= i < |items| :: !Fits(u, items[i])) ==> ShownItems(items, u) == FirstThree(items)
    ensures (exists i | 0 <= i < |items| :: Fits(u, items[i])) ==>
              ShownItems(items, u) == Recommended(items, u) && |ShownItems(items, u)| > 0
    ensures 0 < |items| ==> 0 < |ShownItems(items, u)|
  {
    if exists i | 0 <= i < |items| :: Fits(u, items[i]) {
      var i :| 0 <= i < |items| && Fits(u, items[i]);
      RecommendedExactly(items, u, WithSize(items[i], SizeLabel(u.waistSize)));
    } else if |Recommended(items, u)| > 0 {
      RecommendedExactly(items, u, Recommended(items, u)[0]);
    }
  }

  /** No sample item takes a waist above 36 inches, so such a user is shown
      the first three sample items. */
  lemma LargeWaistFallsBack(u: User)
    requires 36.0 < u.waistSize
    ensures ShownItems(SampleItems, u) == SampleItems[..3]
  {
    assert forall i | 0 <= i < |SampleItems| :: SampleItems[i].waistRange.max <= 36.0;
    FallbackWhenNothingFits(SampleItems, u);
  }

  /** A user with the form's default sizes (waist 28, hip 36) fits all six
      sample items; the last one only because the bounds are inclusive. */
  lemma DefaultSizesFitAll(u: User)
    requires u.waistSize == 28.0 && u.hipSize == 36.0
    ensures ShownItems(SampleItems, u) == Recommended(SampleItems, u)
    ensures |Recommended(SampleItems, u)| == 6
    ensures Recommended(SampleItems, u)[5].sizeRecommendation == Some("S")
    ensures SampleItems[5].hipRange.min == u.hipSize
  {
    assert forall i | 0 <= i < |SampleItems| :: Fits(u, SampleItems[i]);
    AllFitAllRecommended(SampleItems, u);
  }

  /** The page's state: the `useState` hooks, the route it navigated to and
      the user the 1.5 second timer was started for. */
  class DashboardPage {
    var user: Option<User>
    var loading: bool
    var recommendedItems: seq<ClothingItem>
    var offers: seq<ExternalOffer>
    var route: Option<string>
    var pending: Option<User>

    constructor ()
      ensures user == None && loading && recommendedItems == [] && offers == []
      ensures route == None && pending == None
    {
      user := None;
      loading := true;
      recommendedItems := [];
      offers := [];
      route := None;
      pending := None;
    }

    /** The synchronous part of the effect: without a readable stored user
        the page goes to /register and computes nothing; otherwise it
        records the user and starts the timer. */
    method Mount(stored: StoredUser)
      modifies this
      ensures !stored.Stored? ==> route == Some("/register") && user == old(user)
                                  && loading == old(loading) && pending == old(pending)
      ensures stored.Stored? ==> route == old(route) && user == Some(stored.user)
                                 && loading && pending == Some(stored.user)
      ensures recommendedItems == old(recommendedItems) && offers == old(offers)
    {
      match stored {
        case NoUser =>
          route := Some("/register");
        case Unparsable =>
          route := Some("/register");
        case Stored(u) =>
          user := Some(u);
          loading := true;
          pending := Some(u);
      }
    }

    /** The timer callback: the filtered and labelled items, overwritten by
        the first three sample items when the filter keeps none, and every
        offer labelled. */
    method TimerFires()
      requires pending.Some?
      modifies this
      ensures recommendedItems == ShownItems(SampleItems, old(pending).value)
      ensures offers == OffersWithSizes(SampleOffers, old(pending).value)
      ensures !loading && pending == None && user == old(user) && route == old(route)
    {
      var u := pending.value;
      var filtered := Recommended(SampleItems, u);
      var offersWithSizes := OffersWithSizes(SampleOffers, u);
      recommendedItems := filtered;
      offers := offersWithSizes;
      loading := false;
      if |filtered| == 0 {
        recommendedItems := SampleItems[..3];
      }
      pending := None;
    }
  }
}
