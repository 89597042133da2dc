/**
 * `flatten_reviews`: for each inspection, the text of all reviews of its
 * restaurant written strictly before it, joined by single spaces in
 * review-table order, returned in the label table's order.
 */
module Flatten {
  import opened Wrappers
  import opened Records
  import opened Tables
  import opened Crosswalk
  import opened Reviews

  /** `' '.join(texts)`. */
  function JoinWithSpace(texts: seq<string>): (joined: string)
    ensures texts == [] ==> joined == ""
    ensures texts != [] ==> texts[0] <= joined
  {
    if texts == [] then ""
    else if |texts| == 1 then texts[0]
    else texts[0] + " " + JoinWithSpace(texts[1..])
  }

  /** Joining two non-empty lists of texts puts exactly one space between their joins. */
  lemma {:induction false} JoinWithSpaceConcat(a: seq<string>, b: seq<string>)
    requires a != [] && b != []
    ensures JoinWithSpace(a + b) == JoinWithSpace(a) + " " + JoinWithSpace(b)
  {
    assert (a + b)[0] == a[0];
    if |a| == 1 {
      assert (a + b)[1..] == b;
    } else {
      assert (a + b)[1..] == a[1..] + b;
      JoinWithSpaceConcat(a[1..], b);
    }
  }

  function SumOfLengths(texts: seq<string>): nat
  {
    if texts == [] then 0 else |texts[0]| + SumOfLengths(texts[1..])
  }

  /** The joined text holds every character of every text plus one separator between neighbours. */
  lemma {:induction false} JoinWithSpaceLength(texts: seq<string>)
    ensures |JoinWithSpace(texts)| == if texts == [] then 0 else SumOfLengths(texts) + |texts| - 1
  {
    if |texts| > 1 {
      JoinWithSpaceLength(texts[1..]);
    }
  }

  /** The `text` column of a review table, in row order. */
  function Texts(rows: seq<Keyed<ReviewFeatures>>): (texts: seq<string>)
    ensures |texts| == |rows|
  {
    if rows == [] then [] else [rows[0].fields.review.text] + Texts(rows[1..])
  }

  lemma {:induction false} TextsConcat(a: seq<Keyed<ReviewFeatures>>, b: seq<Keyed<ReviewFeatures>>)
    ensures Texts(a + b) == Texts(a) + Texts(b)
  {
    if a == [] {
      assert a + b == b;
    } else {
      assert (a + b)[0] == a[0];
      assert (a + b)[1..] == a[1..] + b;
      TextsConcat(a[1..], b);
    }
  }

  /** `pre_inspection_mask`: same restaurant, and strictly earlier than the inspection. */
  predicate Qualifies(r: Keyed<ReviewFeatures>, l: Label)
    ensures Qualifies(r, l) ==> r.restaurantId.Some? && r.fields.review.date != l.date
  {
    r.restaurantId == Some(l.restaurantId) && Before(r.fields.review.date, l.date)
  }

  function QualifiesFor(l: Label): Keyed<ReviewFeatures> -> bool
  {
    r => Qualifies(r, l)
  }

  /** `reviews[pre_inspection_mask]`. */
  function PreInspection(l: Label, reviews: seq<Keyed<ReviewFeatures>>): (pre: seq<Keyed<ReviewFeatures>>)
    ensures |pre| <= |reviews|
    ensures forall r :: r in pre ==> r in reviews && Qualifies(r, l)
  {
    Filter(reviews, QualifiesFor(l))
  }

  /** The document of one inspection, `' '.join(pre_inspection_reviews.text)`. */
  function Document(l: Label, reviews: seq<Keyed<ReviewFeatures>>): (doc: string)
    ensures PreInspection(l, reviews) == [] ==> doc == ""
  {
    JoinWithSpace(Texts(PreInspection(l, reviews)))
  }

  /** One document per label row, in label-table order (the intended result). */
  function Documents(labels: seq<Label>, reviews: seq<Keyed<ReviewFeatures>>): seq<string>
  {
    seq(|labels|, i requires 0 <= i < |labels| => Document(labels[i], reviews))
  }

  /**
   * The reviews behind a document are exactly the reviews of the inspected
   * restaurant dated strictly before the inspection, each as often as in the
   * review table; a same-day review never contributes.
   */
  lemma PreInspectionExactly(l: Label, reviews: seq<Keyed<ReviewFeatures>>, r: Keyed<ReviewFeatures>)
    ensures multiset(PreInspection(l, reviews))[r] ==
      if r.restaurantId == Some(l.restaurantId) && Before(r.fields.review.date, l.date) then multiset(reviews)[r] else 0
    ensures r in PreInspection(l, reviews) ==> r.fields.review.date != l.date
  {
    FilterMultiplicity(reviews, QualifiesFor(l), r);
  }

  /** A label with no qualifying review gets the empty string, not a missing entry. */
  lemma DocumentEmpty(l: Label, reviews: seq<Keyed<ReviewFeatures>>)
    ensures (forall r :: r in reviews ==> !Qualifies(r, l)) <==> PreInspection(l, reviews) == []
    ensures (forall r :: r in reviews ==> !Qualifies(r, l)) ==> Document(l, reviews) == ""
  {
    FilterEmpty(reviews, QualifiesFor(l));
  }

  /**
   * No leakage: inserting reviews that do not qualify (later or same-day
   * reviews, or other restaurants' reviews) anywhere in the review table
   * leaves the document unchanged.
   */
  lemma DocumentIgnoresNonQualifying(l: Label, before: seq<Keyed<ReviewFeatures>>,
                                     inserted: seq<Keyed<ReviewFeatures>>, after: seq<Keyed<ReviewFeatures>>)
    requires forall r :: r in inserted ==> !Qualifies(r, l)
    ensures Document(l, before + inserted + after) == Document(l, before + after)
  {
    var p := QualifiesFor(l);
    FilterConcat(before + inserted, after, p);
    FilterConcat(before, inserted, p);
    FilterConcat(before, after, p);
    FilterEmpty(inserted, p);
    assert Filter(inserted, p) == [];
    assert Filter(before, p) + [] == Filter(before, p);
    assert before + inserted + after == (before + inserted) + after;
    assert PreInspection(l, before + inserted + after) == PreInspection(l, before + after);
  }

  /**
   * Review-table order: a qualifying review appended to the table is appended
   * to the document, after one space if the document was not empty.
   */
  lemma DocumentAppend(l: Label, reviews: seq<Keyed<ReviewFeatures>>, r: Keyed<ReviewFeatures>)
    requires Qualifies(r, l)
    ensures Document(l, reviews + [r]) ==
      if PreInspection(l, reviews) == [] then r.fields.review.text
      else Document(l, reviews) + " " + r.fields.review.text
  {
    var p := QualifiesFor(l);
    FilterConcat(reviews, [r], p);
    assert Filter([r], p) == [r];
    var pre := PreInspection(l, reviews);
    assert PreInspection(l, reviews + [r]) == pre + [r];
    TextsConcat(pre, [r]);
    assert Texts([r]) == [r.fields.review.text];
    if pre != [] {
      JoinWithSpaceConcat(Texts(pre), [r.fields.review.text]);
    } else {
      assert pre + [r] == [r];
    }
  }

  /**
   * Two inspections of one restaurant: the reviews behind the earlier
   * inspection's document are exactly those behind the later one's that
   * also precede the earlier date; each label is filtered by its own date.
   */
  lemma EarlierInspectionSeesPrefix(l1: Label, l2: Label, reviews: seq<Keyed<ReviewFeatures>>)
    requires l1.restaurantId == l2.restaurantId
    requires !Before(l2.date, l1.date)
    ensures Filter(PreInspection(l2, reviews), QualifiesFor(l1)) == PreInspection(l1, reviews)
  {
    forall r | QualifiesFor(l1)(r) ensures QualifiesFor(l2)(r) {
      BeforeIsStrictTotalOrder(r.fields.review.date, l1.date, l2.date);
    }
    FilterOfFilter(reviews, QualifiesFor(l1), QualifiesFor(l2));
  }

  /**
   * The label whose document the dictionary finally holds for the inspection
   * id of label `i`: the last label row carrying that id.
   */
  function Owner(labels: seq<Label>, i: int): (j: int)
    requires 0 <= i < |labels|
    ensures i <= j < |labels| && labels[j].inspectionId == labels[i].inspectionId
    ensures forall k :: j < k < |labels| ==> labels[k].inspectionId != labels[i].inspectionId
  {
    var n := |labels| - 1;
    if labels[n].inspectionId == labels[i].inspectionId then n else Owner(labels[..n], i)
  }

  /** `reviews_dictionary` after the loop has visited `labels`: `reviews_dictionary[pid] = all_text`. */
  function DictOf(labels: seq<Label>, reviews: seq<Keyed<ReviewFeatures>>): (dict: map<Id, string>)
    ensures dict.Keys == set l | l in labels :: l.inspectionId
  {
    if labels == [] then map[]
    else
      var n := |labels| - 1;
      assert labels == labels[..n] + [labels[n]];
      DictOf(labels[..n], reviews)[labels[n].inspectionId := Document(labels[n], reviews)]
  }

  /** Label `i`'s inspection id is a key, bound to the document of the last label with that id. */
  lemma {:induction false} DictOfAtIndex(labels: seq<Label>, reviews: seq<Keyed<ReviewFeatures>>, i: int)
    requires 0 <= i < |labels|
    ensures labels[i].inspectionId in DictOf(labels, reviews)
    ensures DictOf(labels, reviews)[labels[i].inspectionId] == Document(labels[Owner(labels, i)], reviews)
  {
    var n := |labels| - 1;
    var front := labels[..n];
    var id := labels[i].inspectionId;
    assert DictOf(labels, reviews) == DictOf(front, reviews)[labels[n].inspectionId := Document(labels[n], reviews)];
    if id == labels[n].inspectionId {
      assert Owner(labels, i) == n;
    } else {
      assert front[i] == labels[i];
      DictOfAtIndex(front, reviews, i);
      var j := Owner(front, i);
      assert Owner(labels, i) == j;
      assert front[j] == labels[j];
    }
  }

  /** The dictionary holds every inspection id, bound to the document of the last label with that id. */
  lemma DictOfAt(labels: seq<Label>, reviews: seq<Keyed<ReviewFeatures>>)
    ensures forall i :: 0 <= i < |labels| ==>
      labels[i].inspectionId in DictOf(labels, reviews) &&
      DictOf(labels, reviews)[labels[i].inspectionId] == Document(labels[Owner(labels, i)], reviews)
  {
    forall i | 0 <= i < |labels|
      ensures labels[i].inspectionId in DictOf(labels, reviews)
      ensures DictOf(labels, reviews)[labels[i].inspectionId] == Document(labels[Owner(labels, i)], reviews)
    {
      DictOfAtIndex(labels, reviews, i);
    }
  }

  /** `pd.Series(reviews_dictionary)[label_df.index]`: the dictionary read back in label order. */
  function ReIndex(dict: map<Id, string>, labels: seq<Label>): (docs: seq<string>)
    requires forall l :: l in labels ==> l.inspectionId in dict
    ensures |docs| == |labels|
    ensures forall i :: 0 <= i < |labels| ==> docs[i] == dict[labels[i].inspectionId]
  {
    if labels == [] then [] else [dict[labels[0].inspectionId]] + ReIndex(dict, labels[1..])
  }

  /**
   * What `flatten_reviews` returns as written: one entry per label row, in
   * label order; entry `i` is the document of the LAST label row sharing
   * label `i`'s inspection id (label `i` itself when ids are unique).
   */
  function FlattenedAsWritten(labels: seq<Label>, reviews: seq<Keyed<ReviewFeatures>>): (docs: seq<string>)
    ensures |docs| == |labels|
    ensures forall i :: 0 <= i < |labels| ==> docs[i] == Document(labels[Owner(labels, i)], reviews)
  {
    DictOfAt(labels, reviews);
    ReIndex(DictOf(labels, reviews), labels)
  }

  /** `flatten_reviews` as written: fills the dictionary label by label, then re-indexes it. */
  method FlattenReviews(labels: seq<Label>, reviews: seq<Keyed<ReviewFeatures>>) returns (docs: seq<string>)
    ensures docs == FlattenedAsWritten(labels, reviews)
  {
    var reviewsDictionary: map<Id, string> := map[];
    var i := 0;
    while i < |labels|
      invariant 0 <= i <= |labels|
      invariant reviewsDictionary == DictOf(labels[..i], reviews)
    {
      var row := labels[i];
      var preInspectionReviews := PreInspection(row, reviews);
      var allText := JoinWithSpace(Texts(preInspectionReviews));
      assert labels[..i + 1][..i] == labels[..i];
      reviewsDictionary := reviewsDictionary[row.inspectionId := allText];
      i := i + 1;
    }
    assert labels[..i] == labels;
    DictOfAt(labels, reviews);
    docs := ReIndex(reviewsDictionary, labels);
  }

  predicate UniqueInspectionIds(labels: seq<Label>)
  {
    forall i, j :: 0 <= i < j < |labels| ==> labels[i].inspectionId != labels[j].inspectionId
  }

  /** With unique inspection ids, the code as written returns one document per label, in label order. */
  lemma AsWrittenIsByRowForUniqueIds(labels: seq<Label>, reviews: seq<Keyed<ReviewFeatures>>)
    requires UniqueInspectionIds(labels)
    ensures FlattenedAsWritten(labels, reviews) == Documents(labels, reviews)
  {
    forall i | 0 <= i < |labels| ensures Owner(labels, i) == i {
    }
  }

  /**
   * Two label rows with one inspection id: the earlier row is given the later
   * row's document, and its own pre-inspection review is lost.
   */
  lemma DuplicateInspectionIdShadowsEarlierLabel()
    ensures var labels := [Label("1", Date(2012, 5, 1), "B1", []), Label("1", Date(2012, 1, 1), "B1", [])];
            var review := ReviewBody(Date(2012, 3, 1), "r1", 5, "good food", "review", "u1", Votes(0, 0, 0));
            var reviews := [Keyed(Some("B1"), UnwindOne(review))];
            FlattenedAsWritten(labels, reviews)[0] == "" && Documents(labels, reviews)[0] == "good food"
  {
    var labels := [Label("1", Date(2012, 5, 1), "B1", []), Label("1", Date(2012, 1, 1), "B1", [])];
    var review := ReviewBody(Date(2012, 3, 1), "r1", 5, "good food", "review", "u1", Votes(0, 0, 0));
    var reviews := [Keyed(Some("B1"), UnwindOne(review))];
    assert Owner(labels, 0) == 1;
    assert PreInspection(labels[0], reviews) == reviews;
    assert PreInspection(labels[1], reviews) == [];
    assert Texts(reviews) == ["good food"];
  }

  /**
   * `flatten_reviews` as intended: one document per label row, built row by
   * row, so that a repeated inspection id cannot overwrite an earlier entry.
   */
  method FlattenReviewsByRow(labels: seq<Label>, reviews: seq<Keyed<ReviewFeatures>>) returns (docs: seq<string>)
    ensures docs == Documents(labels, reviews)
  {
    docs := [];
    var i := 0;
    while i < |labels|
      invariant 0 <= i <= |labels|
      invariant |docs| == i
      invariant forall k :: 0 <= k < i ==> docs[k] == Document(labels[k], reviews)
    {
      var allText := JoinWithSpace(Texts(PreInspection(labels[i], reviews)));
      docs := docs + [allText];
      i := i + 1;
    }
    assert forall k :: 0 <= k < |labels| ==> docs[k] == Documents(labels, reviews)[k];
  }

  // A worked case: Boston id B1 has Yelp ids Y1 and Y2; Y1 has a review
  // before and a review after an inspection of B1; B2 has no reviews.
  const ExampleIdMap := [CrosswalkRow("B1", [Some("Y1"), Some("Y2")])]
  const ExampleEarly := ReviewBody(Date(2012, 1, 1), "r1", 4, "good food", "review", "u1", Votes(1, 0, 2))
  const ExampleLate := ReviewBody(Date(2012, 1, 5), "r2", 1, "bad service", "review", "u2", Votes(0, 0, 0))
  const ExampleRaw := [Keyed(Some("Y1"), ExampleEarly), Keyed(Some("Y1"), ExampleLate)]
  const ExampleLabels := [Label("10", Date(2012, 1, 3), "B1", []), Label("11", Date(2012, 1, 3), "B2", [])]

  const ExampleTable := [Keyed(Some("B1"), UnwindOne(ExampleEarly)), Keyed(Some("B1"), UnwindOne(ExampleLate))]

  /** In the worked case, `get_reviews` rewrites both Y1 reviews to B1 and keeps them. */
  lemma ExampleReviewTable()
    ensures ReviewTable(IdDict(ExampleIdMap), ExampleRaw) == ExampleTable
  {
    var ids := NonNullIds(ExampleIdMap[0].yelpSlots);
    assert ids == ["Y1", "Y2"];
    var idDict := IdDict(ExampleIdMap);
    assert ExampleIdMap[..0] == [];
    assert idDict == InsertIds(map[], ids, "B1");
    assert "Y1" in ids;
    assert "Y1" in idDict && idDict["Y1"] == "B1";
    var remapped := [Keyed(Some("B1"), ExampleEarly), Keyed(Some("B1"), ExampleLate)];
    assert RemapIds(idDict, ExampleRaw) == remapped;
    assert DropUnresolved(remapped) == remapped;
  }

  /** The inspection of B1 on day 3 sees the day-1 review but not the day-5 one. */
  lemma ExampleFirstDocument()
    ensures Document(ExampleLabels[0], ExampleTable) == "good food"
  {
    var table, l := ExampleTable, ExampleLabels[0];
    assert !Qualifies(table[1], l);
    assert table[1..][1..] == [];
    assert Filter(table[1..], QualifiesFor(l)) == [];
    assert Qualifies(table[0], l);
    assert PreInspection(l, table) == [table[0]];
    assert Texts([table[0]]) == ["good food"];
  }

  /** The inspection of B2 sees no review at all. */
  lemma ExampleSecondDocument()
    ensures Document(ExampleLabels[1], ExampleTable) == ""
  {
    var table, l := ExampleTable, ExampleLabels[1];
    assert !Qualifies(table[0], l) && !Qualifies(table[1], l);
    assert table[1..][1..] == [];
    assert Filter(table[1..], QualifiesFor(l)) == [];
    assert PreInspection(l, table) == [];
  }

  /**
   * In the worked case, the inspection of B1 gets only the text of the review
   * written before it, and the inspection of B2 gets "".
   */
  lemma CrosswalkThenFlattenExample()
    ensures Documents(ExampleLabels, ReviewTable(IdDict(ExampleIdMap), ExampleRaw)) == ["good food", ""]
  {
    ExampleReviewTable();
    ExampleFirstDocument();
    ExampleSecondDocument();
    DocumentsOfTwo(ExampleLabels, ExampleTable);
  }

  lemma DocumentsOfTwo(labels: seq<Label>, reviews: seq<Keyed<ReviewFeatures>>)
    requires |labels| == 2
    ensures Documents(labels, reviews) == [Document(labels[0], reviews), Document(labels[1], reviews)]
  {
  }
}
