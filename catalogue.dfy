/** The frontend's shared vocabulary (frontend/src/types/index.ts): users,
    their clothing preferences, catalogue items and external offers, the
    sample catalogue both pages show, and the waist-based size label. */
module Catalogue {
  import opened Common

  /** An inclusive `{ min, max }` range in inches. */
  datatype Range = Range(min: real, max: real) {
    predicate Contains(v: real) { min <= v <= max }
  }

  datatype Garment = Pants | Skirt | Dress

  datatype Fit = Tight | Regular | Loose

  /** `ClothingPreference`. */
  datatype Preferences = Preferences(fit: Fit, style: seq<string>, colors: seq<string>)

  /** `User`; the optional name, photo and preferences are not read by the
      pages modelled here. */
  datatype User = User(id: string, email: string, waistSize: real, hipSize: real)

  /** `ClothingItem`, without its display-only description, image and shop
      URLs. */
  datatype ClothingItem = ClothingItem(id: string, name: string, brand: string, kind: Garment,
                                       price: real, waistRange: Range, hipRange: Range,
                                       sizeRecommendation: Option<string>)

  /** `ExternalOffer`, without its image and shop URLs. */
  datatype ExternalOffer = ExternalOffer(id: string, name: string, brand: string, price: real,
                                         discountedPrice: Option<real>, discount: Option<string>,
                                         store: string, sizeRecommendation: Option<string>)

  /** What `localStorage.getItem('fashionUser')` yields once parsed: nothing
      (a missing or empty entry), stored text that is not valid JSON, or a
      user. */
  datatype StoredUser = NoUser | Unparsable | Stored(user: User)

  /** `{ ...item, sizeRecommendation: size }` */
  function WithSize(item: ClothingItem, size: string): ClothingItem {
    item.(sizeRecommendation := Some(size))
  }

  /** `{ ...offer, sizeRecommendation: size }` */
  function OfferWithSize(offer: ExternalOffer, size: string): ExternalOffer {
    offer.(sizeRecommendation := Some(size))
  }

  /** The size labels from smallest to largest. */
  const SizeOrder: seq<string> := ["XS", "S", "M", "L", "XL"]

  /** The waists (inches) at which the label moves one size up. */
  const WaistBreaks: seq<real> := [27.0, 29.0, 32.0, 35.0]

  /** How many of the breaks `bs` a waist has reached. */
  function Reached(bs: seq<real>, waist: real): (n: nat)
    ensures n <= |bs|
  {
    if |bs| == 0 then 0
    else (if bs[0] <= waist then 1 else 0) + Reached(bs[1..], waist)
  }

  /** The position of a waist's label in `SizeOrder`. */
  function SizeRank(waist: real): (n: nat)
    ensures n < |SizeOrder|
  {
    Reached(WaistBreaks, waist)
  }

  /** `getSizeRecommendation`: the label depends on the waist alone and is
      the label at the waist's rank, the number of breaks it has reached. */
  function SizeLabel(waist: real): (r: string)
    ensures r == SizeOrder[SizeRank(waist)]
  {
    RankBands(waist);
    if waist < 27.0 then "XS"
    else if waist < 29.0 then "S"
    else if waist < 32.0 then "M"
    else if waist < 35.0 then "L"
    else "XL"
  }

  /** The rank unfolded over the four breaks. */
  lemma RankBands(waist: real)
    ensures SizeRank(waist) == (if waist < 27.0 then 0 else if waist < 29.0 then 1
                                else if waist < 32.0 then 2 else if waist < 35.0 then 3 else 4)
  {
    var b4: seq<real> := [35.0];
    var b3: seq<real> := [32.0, 35.0];
    var b2: seq<real> := [29.0, 32.0, 35.0];
    assert b4[1..] == [] && b3[1..] == b4 && b2[1..] == b3 && WaistBreaks[1..] == b2;
    assert Reached(b4, waist) == if 35.0 <= waist then 1 else 0;
    assert Reached(b3, waist) == (if 32.0 <= waist then 1 else 0) + Reached(b4, waist);
    assert Reached(b2, waist) == (if 29.0 <= waist then 1 else 0) + Reached(b3, waist);
  }

  /** A larger waist has reached at least as many breaks. */
  lemma {:induction false} ReachedMonotone(bs: seq<real>, w1: real, w2: real)
    requires w1 <= w2
    ensures Reached(bs, w1) <= Reached(bs, w2)
  {
    if |bs| > 0 {
      ReachedMonotone(bs[1..], w1, w2);
    }
  }

  /** A larger waist never gets a smaller label: by `SizeLabel`'s contract
      the labels sit at these ranks of `SizeOrder`. */
  lemma SizeLabelMonotone(w1: real, w2: real)
    requires w1 <= w2
    ensures SizeRank(w1) <= SizeRank(w2)
  {
    ReachedMonotone(WaistBreaks, w1, w2);
  }

  function Item(id: string, name: string, brand: string, kind: Garment, price: real,
                waistMin: real, waistMax: real, hipMin: real, hipMax: real): ClothingItem
  {
    ClothingItem(id, name, brand, kind, price, Range(waistMin, waistMax), Range(hipMin, hipMax), None)
  }

  /** `sampleClothingItems`; both pages carry the same six items, differing
      only in the descriptions left out here. */
  const SampleItems: seq<ClothingItem> := [
    Item("1", "High-Waisted Straight Leg Jeans", "Levi's", Pants, 79.99, 26.0, 32.0, 34.0, 42.0),
    Item("2", "Pleated Midi Skirt", "Zara", Skirt, 49.99, 24.0, 34.0, 34.0, 44.0),
    Item("3", "Wrap Maxi Dress", "Reformation", Dress, 128.00, 24.0, 36.0, 34.0, 46.0),
    Item("4", "Wide Leg Cropped Pants", "Everlane", Pants, 68.00, 25.0, 34.0, 35.0, 44.0),
    Item("5", "A-Line Denim Skirt", "Madewell", Skirt, 72.00, 24.0, 32.0, 34.0, 42.0),
    Item("6", "Floral Midi Wrap Dress", "Anthropologie", Dress, 148.00, 25.0, 32.0, 36.0, 43.0)
  ]

  /** `sampleOffers` of the dashboard. */
  const SampleOffers: seq<ExternalOffer> := [
    ExternalOffer("101", "Stretch Skinny Jeans", "Gap", 69.95, Some(49.99), Some("30% OFF"), "Gap Online", None),
    ExternalOffer("102", "Linen Blend Wide Leg Pants", "H&M", 49.99, Some(34.99), Some("SALE"), "H&M", None),
    ExternalOffer("103", "Ribbed Bodycon Dress", "ASOS", 45.00, None, None, "ASOS", None),
    ExternalOffer("104", "Relaxed Fit Cargo Pants", "Uniqlo", 39.90, None, None, "Uniqlo", None),
    ExternalOffer("105", "Pleated Tennis Skirt", "American Eagle", 39.95, Some(29.99), Some("25% OFF"), "American Eagle", None)
  ]
}
