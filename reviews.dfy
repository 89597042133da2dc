/**
 * `get_reviews`: the Yelp reviews with their business id replaced by the
 * Boston restaurant id, the unknown restaurants dropped, and the review date
 * and the vote counts unwound into columns of their own.
 */
module Reviews {
  import opened Wrappers
  import opened Records
  import opened Tables
  import opened Crosswalk

  /** A review with the columns `review_year`, `review_month`, `review_day`, `vote_cool`, `vote_funny`, `vote_useful` added. */
  datatype ReviewFeatures = ReviewFeatures(review: ReviewBody, reviewYear: int, reviewMonth: int, reviewDay: int,
                                           voteCool: int, voteFunny: int, voteUseful: int)

  /** The added columns agree with the review's date and with the sub-counts of its `votes`. */
  predicate Unwound(f: ReviewFeatures)
  {
    && f.reviewYear == f.review.date.year
    && f.reviewMonth == f.review.date.month
    && f.reviewDay == f.review.date.day
    && f.voteCool == f.review.votes.cool
    && f.voteFunny == f.review.votes.funny
    && f.voteUseful == f.review.votes.useful
  }

  function UnwindOne(r: ReviewBody): ReviewFeatures
  {
    ReviewFeatures(r, r.date.year, r.date.month, r.date.day, r.votes.cool, r.votes.funny, r.votes.useful)
  }

  /** Adds the date and vote columns to every row; nothing else about a row changes. */
  function Unwind(rows: seq<Review>): (out: seq<Keyed<ReviewFeatures>>)
    ensures |out| == |rows|
    ensures forall i :: 0 <= i < |rows| ==>
      && out[i].restaurantId == rows[i].restaurantId
      && out[i].fields.review == rows[i].fields
      && Unwound(out[i].fields)
  {
    if rows == [] then [] else [Keyed(rows[0].restaurantId, UnwindOne(rows[0].fields))] + Unwind(rows[1..])
  }

  /** Drops the added columns again. */
  function Strip(rows: seq<Keyed<ReviewFeatures>>): (out: seq<Review>)
    ensures |out| == |rows|
  {
    if rows == [] then [] else [Keyed(rows[0].restaurantId, rows[0].fields.review)] + Strip(rows[1..])
  }

  /** Unwinding loses nothing: dropping the added columns gives back the input table. */
  lemma {:induction false} StripUnwind(rows: seq<Review>)
    ensures Strip(Unwind(rows)) == rows
  {
    if rows != [] {
      StripUnwind(rows[1..]);
    }
  }

  /** The table `get_reviews` returns, given the crosswalk dictionary and the raw reviews. */
  function ReviewTable(idDict: map<Id, Id>, raw: seq<Review>): (table: seq<Keyed<ReviewFeatures>>)
    ensures |table| <= |raw|
    ensures forall i :: 0 <= i < |table| ==> table[i].restaurantId.Some? && Unwound(table[i].fields)
  {
    var kept := DropUnresolved(RemapIds(idDict, raw));
    assert forall i :: 0 <= i < |kept| ==> kept[i] in kept;
    Unwind(kept)
  }

  /**
   * `get_reviews`, with the id-map table and the review file already read:
   * builds the crosswalk, remaps `business_id`, drops the NaN rows, unwinds date and votes.
   */
  method GetReviews(idMap: seq<CrosswalkRow>, raw: seq<Review>) returns (reviews: seq<Keyed<ReviewFeatures>>)
    ensures reviews == ReviewTable(IdDict(idMap), raw)
  {
    var idDict := BuildIdDict(idMap);
    var remapped := RemapIds(idDict, raw);
    var kept := DropUnresolved(remapped);
    reviews := Unwind(kept);
  }

  /**
   * What `get_reviews` returns: every row has a Boston id and consistent
   * date and vote columns, and without those columns the table is exactly the
   * raw reviews whose business id is in the crosswalk, in file order, with
   * only their id rewritten.
   */
  lemma ReviewTableShape(idDict: map<Id, Id>, raw: seq<Review>)
    ensures |ReviewTable(idDict, raw)| <= |raw|
    ensures forall i :: 0 <= i < |ReviewTable(idDict, raw)| ==>
      ReviewTable(idDict, raw)[i].restaurantId.Some? && Unwound(ReviewTable(idDict, raw)[i].fields)
    ensures Strip(ReviewTable(idDict, raw)) == RemapIds(idDict, Filter(raw, KnownIn(idDict)))
  {
    var kept := DropUnresolved(RemapIds(idDict, raw));
    forall i | 0 <= i < |kept| ensures kept[i].restaurantId.Some? {
      assert kept[i] in kept;
    }
    StripUnwind(kept);
    RemapThenDrop(idDict, raw);
  }
}
