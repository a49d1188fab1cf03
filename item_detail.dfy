/** The item page (frontend/src/pages/ItemDetail.tsx): the catalogue item
    with the requested id, up to three similar items, and the size label of
    the stored user on each of them. */
module ItemDetail {
  import opened Common
  import opened Catalogue

  /** The page's own copy of `getSizeRecommendation`: the dashboard's
      thresholds. */
  function ItemSizeLabel(waist: real, hip: real, item: ClothingItem): (r: string)
    ensures r == SizeLabel(waist)
  {
    if waist < 27.0 then "XS"
    else if waist < 29.0 then "S"
    else if waist < 32.0 then "M"
    else if waist < 35.0 then "L"
    else "XL"
  }

  predicate IsSimilar(current: ClothingItem, item: ClothingItem) {
    item.id != current.id && item.kind == current.kind
  }

  /** The filter of `getSimilarItems`. */
  function SimilarCandidates(items: seq<ClothingItem>, current: ClothingItem): (r: seq<ClothingItem>)
    ensures |r| <= |items|
    ensures forall x | x in r :: x in items && IsSimilar(current, x)
  {
    if |items| == 0 then []
    else (if IsSimilar(current, items[0]) then [items[0]] else []) + SimilarCandidates(items[1..], current)
  }

  /** `getSimilarItems`: the first three candidates. */
  function SimilarItems(items: seq<ClothingItem>, current: ClothingItem): (r: seq<ClothingItem>)
    ensures |r| <= 3
    ensures forall x | x in r :: x in items && IsSimilar(current, x)
  {
    var c := SimilarCandidates(items, current);
    if |c| <= 3 then c else c[..3]
  }

  /** Every similar catalogue item is a candidate. */
  lemma {:induction false} CandidatesComplete(items: seq<ClothingItem>, current: ClothingItem, x: ClothingItem)
    requires x in items && IsSimilar(current, x)
    ensures x in SimilarCandidates(items, current)
  {
    if items[0] != x {
      assert x in items[1..];
      CandidatesComplete(items[1..], current, x);
    }
  }

  /** The candidates keep the catalogue order: the filter distributes over
      a split of the catalogue. */
  lemma {:induction false} CandidatesKeepOrder(a: seq<ClothingItem>, b: seq<ClothingItem>, current: ClothingItem)
    ensures SimilarCandidates(a + b, current) == SimilarCandidates(a, current) + SimilarCandidates(b, current)
  {
    if |a| > 0 {
      assert (a + b)[1..] == a[1..] + b;
      CandidatesKeepOrder(a[1..], b, current);
    } else {
      assert a + b == b;
    }
  }

  /** The similar items are the leading candidates: all of them when there
      are at most three, so no similar item is missed; three otherwise. */
  lemma SimilarItemsAreLeading(items: seq<ClothingItem>, current: ClothingItem)
    ensures var c := SimilarCandidates(items, current);
            |SimilarItems(items, current)| == (if |c| <= 3 then |c| else 3)
            && SimilarItems(items, current) <= c
    ensures |SimilarCandidates(items, current)| <= 3 ==>
              forall x | x in items && IsSimilar(current, x) :: x in SimilarItems(items, current)
  {
    forall x | x in items && IsSimilar(current, x)
      ensures x in SimilarCandidates(items, current)
    {
      CandidatesComplete(items, current, x);
    }
  }

  /** An item is never similar to itself. */
  lemma NotSimilarToItself(items: seq<ClothingItem>, current: ClothingItem)
    ensures current !in SimilarItems(items, current)
  {
  }

  /** In the sample catalogue the only other pants are item 4, so the jeans
      of item 1 get exactly that one similar item. */
  lemma SampleJeansSimilar()
    ensures SimilarItems(SampleItems, SampleItems[0]) == [SampleItems[3]]
  {
    var c := SampleItems[0];
    var s := SampleItems;
    assert !IsSimilar(c, s[0]) && !IsSimilar(c, s[1]) && !IsSimilar(c, s[2]);
    assert IsSimilar(c, s[3]) && !IsSimilar(c, s[4]) && !IsSimilar(c, s[5]);
    OnlyFourthOfSix(s, c);
  }

  /** Of six items only the fourth is similar: the candidates are that item. */
  lemma OnlyFourthOfSix(s: seq<ClothingItem>, c: ClothingItem)
    requires |s| == 6
    requires !IsSimilar(c, s[0]) && !IsSimilar(c, s[1]) && !IsSimilar(c, s[2])
    requires IsSimilar(c, s[3]) && !IsSimilar(c, s[4]) && !IsSimilar(c, s[5])
    ensures SimilarCandidates(s, c) == [s[3]]
  {
    assert s[5..][1..] == [];
    CandidatesStep(s[5..], c);
    assert s[4..][1..] == s[5..];
    CandidatesStep(s[4..], c);
    assert s[3..][1..] == s[4..];
    CandidatesStep(s[3..], c);
    assert s[2..][1..] == s[3..];
    CandidatesStep(s[2..], c);
    assert s[1..][1..] == s[2..];
    CandidatesStep(s[1..], c);
    CandidatesStep(s, c);
  }

  /** One step of the filter, with the rest of the list named. */
  lemma CandidatesStep(items: seq<ClothingItem>, current: ClothingItem)
    requires |items| > 0
    ensures SimilarCandidates(items, current)
            == (if IsSimilar(current, items[0]) then [items[0]] else []) + SimilarCandidates(items[1..], current)
  {
  }

  /** `sampleClothingItems.find(item => item.id === id)`. */
  function FindById(items: seq<ClothingItem>, id: string): (r: Option<ClothingItem>)
    ensures r.None? <==> forall i | 0 <= i < |items| :: items[i].id != id
    ensures r.Some? ==> exists i | 0 <= i < |items| :: items[i] == r.value && r.value.id == id
                          && forall j | 0 <= j < i :: items[j].id != id
  {
    if |items| == 0 then None
    else if items[0].id == id then Some(items[0])
    else
      var r := FindById(items[1..], id);
      assert forall i | 0 < i < |items| :: items[1..][i - 1] == items[i];
      if r.Some? then
        var i :| 0 <= i < |items[1..]| && items[1..][i] == r.value && r.value.id == id
                 && forall j | 0 <= j < i :: items[1..][j].id != id;
        assert items[i + 1] == r.value;
        r
      else r
  }

  /** What the page holds once its 800 ms timer has run. */
  datatype ItemView = ItemView(user: Option<User>, item: Option<ClothingItem>,
                               similarItems: seq<ClothingItem>, route: Option<string>, loading: bool)

  function Labelled(items: seq<ClothingItem>, u: User): (r: seq<ClothingItem>)
    ensures |r| == |items|
    ensures forall i | 0 <= i < |items| :: r[i] == WithSize(items[i], SizeLabel(u.waistSize))
  {
    seq(|items|, i requires 0 <= i < |items| => WithSize(items[i], ItemSizeLabel(u.waistSize, u.hipSize, items[i])))
  }

  /** The effect with its timer callback over the catalogue `items` (the
      page passes the sample catalogue): the found item and its similar
      items, labelled for a stored user, or a move to /dashboard when the
      id is unknown. */
  function ViewItem(items: seq<ClothingItem>, stored: Option<User>, id: string): ItemView {
    match FindById(items, id)
    case None => ItemView(stored, None, [], Some("/dashboard"), false)
    case Some(found) =>
      match stored
      case Some(u) =>
        ItemView(stored, Some(WithSize(found, ItemSizeLabel(u.waistSize, u.hipSize, found))),
                 Labelled(SimilarItems(items, found), u), None, false)
      case None => ItemView(stored, Some(found), SimilarItems(items, found), None, false)
  }

  /** The page shows an item exactly when the id is in the catalogue, and
      goes to /dashboard otherwise; the similar items share its kind and
      not its id. */
  lemma ViewFindsItem(items: seq<ClothingItem>, stored: Option<User>, id: string)
    ensures !ViewItem(items, stored, id).loading && ViewItem(items, stored, id).user == stored
    ensures ViewItem(items, stored, id).item.None? <==> forall i | 0 <= i < |items| :: items[i].id != id
    ensures ViewItem(items, stored, id).item.None? <==> ViewItem(items, stored, id).route == Some("/dashboard")
    ensures ViewItem(items, stored, id).item.Some? ==>
              ViewItem(items, stored, id).item.value.id == id && |ViewItem(items, stored, id).similarItems| <= 3
    ensures ViewItem(items, stored, id).item.Some? ==>
              forall x | x in ViewItem(items, stored, id).similarItems ::
                x.id != id && x.kind == ViewItem(items, stored, id).item.value.kind
  {
    var v := ViewItem(items, stored, id);
    match FindById(items, id)
    case None =>
    case Some(found) =>
      var similar := SimilarItems(items, found);
      if stored.Some? {
        forall x | x in v.similarItems
          ensures x.id != id && x.kind == found.kind
        {
          var i :| 0 <= i < |similar| && v.similarItems[i] == x;
          assert similar[i] in similar;
        }
      }
  }

  /** With a stored user the item and every similar item carry the user's
      label; without one they are catalogue items as they stand. */
  lemma ViewLabels(items: seq<ClothingItem>, stored: Option<User>, id: string)
    ensures ViewItem(items, stored, id).item.Some? && stored.Some? ==>
              ViewItem(items, stored, id).item.value.sizeRecommendation == Some(SizeLabel(stored.value.waistSize))
              && forall x | x in ViewItem(items, stored, id).similarItems ::
                   x.sizeRecommendation == Some(SizeLabel(stored.value.waistSize))
    ensures ViewItem(items, stored, id).item.Some? && stored.None? ==>
              ViewItem(items, stored, id).item.value in items
              && forall x | x in ViewItem(items, stored, id).similarItems :: x in items
  {
  }
}
