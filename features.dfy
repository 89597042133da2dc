/**
 * `get_full_features`: reviews and tips joined with their users, their
 * businesses and (optionally) the businesses' check-ins, remapped to Boston
 * restaurant ids, joined with the inspection labels, and restricted to the
 * events strictly before their inspection.
 */
module Features {
  import opened Wrappers
  import opened Records
  import opened Tables
  import opened Crosswalk

  /**
   * A row of `reviews.append(tips)` after the positional rename: the union of
   * the review and tip columns, NaN (`None`) where a source lacks a column.
   */
  datatype EventBody = EventBody(date: Date, tipLikes: Option<int>, reviewId: Option<Id>, stars: Option<int>,
                                 text: string, kind: string, userId: Id, votes: Option<Votes>)

  type Event = Keyed<EventBody>

  function EventOfReview(r: Review): Event
  {
    Keyed(r.restaurantId, EventBody(r.fields.date, None, Some(r.fields.reviewId), Some(r.fields.stars),
                                    r.fields.text, r.fields.kind, r.fields.userId, Some(r.fields.votes)))
  }

  function EventOfTip(t: Tip): Event
  {
    Keyed(t.restaurantId, EventBody(t.fields.date, Some(t.fields.likes), None, None,
                                    t.fields.text, t.fields.kind, t.fields.userId, None))
  }

  /** `reviews.append(tips)`: every review, then every tip, each as one event row. */
  function ReviewsAndTips(reviews: seq<Review>, tips: seq<Tip>): (events: seq<Event>)
    ensures forall r :: r in reviews ==> EventOfReview(r) in events
    ensures forall t :: t in tips ==> EventOfTip(t) in events
  {
    var reviewEvents := seq(|reviews|, i requires 0 <= i < |reviews| => EventOfReview(reviews[i]));
    var tipEvents := seq(|tips|, i requires 0 <= i < |tips| => EventOfTip(tips[i]));
    assert forall r :: r in reviews ==> EventOfReview(r) in reviewEvents by {
      forall r | r in reviews ensures EventOfReview(r) in reviewEvents {
        var i :| 0 <= i < |reviews| && reviews[i] == r;
        assert reviewEvents[i] == EventOfReview(r);
      }
    }
    assert forall t :: t in tips ==> EventOfTip(t) in tipEvents by {
      forall t | t in tips ensures EventOfTip(t) in tipEvents {
        var i :| 0 <= i < |tips| && tips[i] == t;
        assert tipEvents[i] == EventOfTip(t);
      }
    }
    reviewEvents + tipEvents
  }

  /** The review an event row came from, if its review-only columns are present and its tip column is NaN. */
  function ReviewOfEvent(e: Event): Option<Review>
  {
    match e.fields
    case EventBody(date, None, Some(reviewId), Some(stars), text, kind, userId, Some(votes)) =>
      Some(Keyed(e.restaurantId, ReviewBody(date, reviewId, stars, text, kind, userId, votes)))
    case _ => None
  }

  /** The tip an event row came from, if its tip column is present and its review-only columns are NaN. */
  function TipOfEvent(e: Event): Option<Tip>
  {
    match e.fields
    case EventBody(date, Some(likes), None, None, text, kind, userId, None) =>
      Some(Keyed(e.restaurantId, TipBody(date, likes, text, kind, userId)))
    case _ => None
  }

  /**
   * Appending is total and lossless: one event per review and per tip, in
   * that order, from which the review or the tip is recovered, and no event
   * reads as both.
   */
  lemma ReviewsAndTipsLossless(reviews: seq<Review>, tips: seq<Tip>)
    ensures |ReviewsAndTips(reviews, tips)| == |reviews| + |tips|
    ensures forall i :: 0 <= i < |reviews| ==>
      ReviewOfEvent(ReviewsAndTips(reviews, tips)[i]) == Some(reviews[i]) &&
      TipOfEvent(ReviewsAndTips(reviews, tips)[i]) == None
    ensures forall i :: 0 <= i < |tips| ==>
      TipOfEvent(ReviewsAndTips(reviews, tips)[|reviews| + i]) == Some(tips[i]) &&
      ReviewOfEvent(ReviewsAndTips(reviews, tips)[|reviews| + i]) == None
  {
  }

  /** Every event row comes from a review or from a tip. */
  lemma ReviewsAndTipsSources(reviews: seq<Review>, tips: seq<Tip>)
    ensures forall e :: e in ReviewsAndTips(reviews, tips) ==>
      (exists r :: r in reviews && e == EventOfReview(r)) || (exists t :: t in tips && e == EventOfTip(t))
  {
    var events := ReviewsAndTips(reviews, tips);
    forall e | e in events
      ensures (exists r :: r in reviews && e == EventOfReview(r)) || (exists t :: t in tips && e == EventOfTip(t))
    {
      var i :| 0 <= i < |events| && events[i] == e;
      if i < |reviews| {
        assert reviews[i] in reviews;
      } else {
        assert tips[i - |reviews|] in tips;
      }
    }
  }

  // The key columns of the merges.
  function EventUser(e: Event): Id { e.fields.userId }
  function UserKey(u: User): Id { u.userId }
  function EventRestaurant(p: (Event, User)): Option<Id> { p.0.restaurantId }
  function BusinessKey(b: Business): Option<Id> { Some(b.restaurantId) }
  function JoinedRestaurant(p: ((Event, User), Business)): Option<Id> { p.0.0.restaurantId }
  function CheckinKey(c: Checkin): Option<Id> { Some(c.restaurantId) }

  /** A row of `full_features`: the event, the user's, business's and check-in's other columns. */
  datatype Context = Context(event: EventBody, user: Profile, business: Profile, checkin: Option<Profile>)

  type FeatureRow = Keyed<Context>

  function Assemble(x: (((Event, User), Business), Option<Checkin>)): FeatureRow
  {
    var event := x.0.0.0;
    Keyed(event.restaurantId,
          Context(event.fields, x.0.0.1.profile, x.0.1.profile, match x.1 case Some(c) => Some(c.info) case None => None))
  }

  function AssembleAll(xs: seq<(((Event, User), Business), Option<Checkin>)>): (rows: seq<FeatureRow>)
    ensures |rows| == |xs|
    ensures forall x :: x in xs ==> Assemble(x) in rows
    ensures forall o :: o in rows ==> exists x :: x in xs && o == Assemble(x)
  {
    if xs == [] then [] else [Assemble(xs[0])] + AssembleAll(xs[1..])
  }

  /** The events joined with their users and their businesses (lines 89 and 96). */
  function EventsUsersBusinesses(reviews: seq<Review>, tips: seq<Tip>, users: seq<User>, businesses: seq<Business>)
    : (eub: seq<((Event, User), Business)>)
    ensures forall x :: x in eub ==>
      && x.0.0 in ReviewsAndTips(reviews, tips) && x.0.1 in users && x.1 in businesses
      && Joinable(x.0.0, x.0.1, x.1)
  {
    var withUsers := InnerJoin(ReviewsAndTips(reviews, tips), users, EventUser, UserKey);
    InnerJoin(withUsers, businesses, EventRestaurant, BusinessKey)
  }

  /** `full_features` before the remap: the left merge with the check-ins on the Yelp id (line 103). */
  function Combined(reviews: seq<Review>, tips: seq<Tip>, users: seq<User>, businesses: seq<Business>,
                    checkins: seq<Checkin>): (rows: seq<FeatureRow>)
    ensures |rows| >= |EventsUsersBusinesses(reviews, tips, users, businesses)|
  {
    AssembleAll(LeftJoin(EventsUsersBusinesses(reviews, tips, users, businesses), checkins, JoinedRestaurant, CheckinKey))
  }

  function RowKey(r: FeatureRow): Option<Id> { r.restaurantId }
  function LabelKey(l: Label): Option<Id> { Some(l.restaurantId) }

  /** `inspection_date > review_date`: the event strictly precedes its inspection. */
  predicate NoFuture(x: (FeatureRow, Label))
  {
    Before(x.0.fields.event.date, x.1.date)
  }

  /**
   * `no_future`: keeps, in order, exactly the (event, inspection) rows whose
   * event is strictly before the inspection; same-day events are not kept.
   */
  function TemporalFilter(rows: seq<(FeatureRow, Label)>): (kept: seq<(FeatureRow, Label)>)
    ensures forall x :: x in kept ==> x in rows && NoFuture(x) && x.0.fields.event.date != x.1.date
    ensures forall x :: x in rows && NoFuture(x) ==> x in kept
  {
    FilterMembers(rows, NoFuture);
    Filter(rows, NoFuture)
  }

  /** The table `get_full_features` returns, given the crosswalk dictionary and the tables it reads. */
  function FullFeatures(idDict: map<Id, Id>, reviews: seq<Review>, tips: seq<Tip>, users: seq<User>,
                        businesses: seq<Business>, checkins: seq<Checkin>, labels: seq<Label>)
    : (noFuture: seq<(FeatureRow, Label)>)
    ensures forall x :: x in noFuture ==>
      && x.1 in labels && x.0.restaurantId == Some(x.1.restaurantId)
      && Before(x.0.fields.event.date, x.1.date)
  {
    var resolved := DropUnresolved(RemapIds(idDict, Combined(reviews, tips, users, businesses, checkins)));
    TemporalFilter(InnerJoin(resolved, labels, RowKey, LabelKey))
  }

  /** `get_full_features`, with the seven tables already read. */
  method GetFullFeatures(reviews: seq<Review>, tips: seq<Tip>, users: seq<User>, businesses: seq<Business>,
                         checkins: seq<Checkin>, idMap: seq<CrosswalkRow>, labels: seq<Label>)
    returns (noFuture: seq<(FeatureRow, Label)>)
    ensures noFuture == FullFeatures(IdDict(idMap), reviews, tips, users, businesses, checkins, labels)
  {
    var reviewsTips := ReviewsAndTips(reviews, tips);
    var usersReviewsTips := InnerJoin(reviewsTips, users, EventUser, UserKey);
    var restaurantsUsersReviewsTips := InnerJoin(usersReviewsTips, businesses, EventRestaurant, BusinessKey);
    var fullFeatures := AssembleAll(LeftJoin(restaurantsUsersReviewsTips, checkins, JoinedRestaurant, CheckinKey));
    var idDict := BuildIdDict(idMap);
    fullFeatures := DropUnresolved(RemapIds(idDict, fullFeatures));
    var fullFeaturesResponse := InnerJoin(fullFeatures, labels, RowKey, LabelKey);
    noFuture := TemporalFilter(fullFeaturesResponse);
  }

  /** The event's user and business rows: the two inner merges pair an event with them. */
  predicate Joinable(e: Event, u: User, b: Business)
  {
    e.fields.userId == u.userId && e.restaurantId == Some(b.restaurantId)
  }

  /** The check-in column of a row is one matching check-in's, or NaN when the business has none. */
  predicate CheckinFits(info: Option<Profile>, yelpId: Option<Id>, checkins: seq<Checkin>)
  {
    match info
    case Some(p) => exists c :: c in checkins && Some(c.restaurantId) == yelpId && c.info == p
    case None => forall c :: c in checkins ==> Some(c.restaurantId) != yelpId
  }

  /** Where a row of `full_features` (before the remap) comes from. */
  predicate CombinedFrom(o: FeatureRow, e: Event, u: User, b: Business, checkins: seq<Checkin>)
  {
    && o.restaurantId == e.restaurantId
    && o.fields.event == e.fields && o.fields.user == u.profile && o.fields.business == b.profile
    && CheckinFits(o.fields.checkin, e.restaurantId, checkins)
  }

  /** Each combined row is one event with its user, its business and a fitting check-in column. */
  lemma CombinedSound(reviews: seq<Review>, tips: seq<Tip>, users: seq<User>, businesses: seq<Business>,
                      checkins: seq<Checkin>, o: FeatureRow)
    requires o in Combined(reviews, tips, users, businesses, checkins)
    ensures exists e, u, b ::
      && e in ReviewsAndTips(reviews, tips) && u in users && b in businesses
      && Joinable(e, u, b) && CombinedFrom(o, e, u, b, checkins)
  {
    var eub := EventsUsersBusinesses(reviews, tips, users, businesses);
    var x :| x in LeftJoin(eub, checkins, JoinedRestaurant, CheckinKey) && o == Assemble(x);
    CheckinColumnFits(eub, checkins, x);
    var withUsers := InnerJoin(ReviewsAndTips(reviews, tips), users, EventUser, UserKey);
    var e, u, b := x.0.0.0, x.0.0.1, x.0.1;
    assert x.0.0 in withUsers;
    assert e in ReviewsAndTips(reviews, tips) && u in users && b in businesses;
    assert Joinable(e, u, b) && CombinedFrom(o, e, u, b, checkins);
  }

  /** A row of the check-in left merge carries a merged row and a fitting check-in column. */
  lemma CheckinColumnFits(eub: seq<((Event, User), Business)>, checkins: seq<Checkin>,
                          x: (((Event, User), Business), Option<Checkin>))
    requires x in LeftJoin(eub, checkins, JoinedRestaurant, CheckinKey)
    ensures x.0 in eub
    ensures CheckinFits(Assemble(x).fields.checkin, x.0.0.0.restaurantId, checkins)
  {
    match x.1
    case Some(c) =>
      assert c in checkins && Some(c.restaurantId) == x.0.0.0.restaurantId;
    case None =>
  }

  /** Each event with a user and a business appears in the combined table, with some check-in column. */
  lemma CombinedComplete(reviews: seq<Review>, tips: seq<Tip>, users: seq<User>, businesses: seq<Business>,
                         checkins: seq<Checkin>, e: Event, u: User, b: Business)
    requires e in ReviewsAndTips(reviews, tips) && u in users && b in businesses && Joinable(e, u, b)
    ensures exists o :: o in Combined(reviews, tips, users, businesses, checkins) && CombinedFrom(o, e, u, b, checkins)
  {
    var eub := EventsUsersBusinesses(reviews, tips, users, businesses);
    EventsUsersBusinessesComplete(reviews, tips, users, businesses, e, u, b);
    var full := LeftJoin(eub, checkins, JoinedRestaurant, CheckinKey);
    LeftJoinComplete(eub, checkins, JoinedRestaurant, CheckinKey, ((e, u), b));
    var c :| (((e, u), b), c) in full;
    CheckinColumnFits(eub, checkins, (((e, u), b), c));
    var o := Assemble((((e, u), b), c));
    assert o in Combined(reviews, tips, users, businesses, checkins);
    assert CombinedFrom(o, e, u, b, checkins);
  }

  /** The two inner merges keep every event together with its user and its business. */
  lemma EventsUsersBusinessesComplete(reviews: seq<Review>, tips: seq<Tip>, users: seq<User>, businesses: seq<Business>,
                                      e: Event, u: User, b: Business)
    requires e in ReviewsAndTips(reviews, tips) && u in users && b in businesses && Joinable(e, u, b)
    ensures ((e, u), b) in EventsUsersBusinesses(reviews, tips, users, businesses)
  {
    var events := ReviewsAndTips(reviews, tips);
    var withUsers := InnerJoin(events, users, EventUser, UserKey);
    InnerJoinComplete(events, users, EventUser, UserKey, e, u);
    InnerJoinComplete(withUsers, businesses, EventRestaurant, BusinessKey, (e, u), b);
  }

  /**
   * No leakage, and nothing but joined rows: every row of `get_full_features`
   * pairs an inspection with an event of the same (resolved) restaurant that
   * happened strictly before it, the event's user and business rows, and a
   * fitting check-in column.
   */
  lemma FullFeaturesSound(idDict: map<Id, Id>, reviews: seq<Review>, tips: seq<Tip>, users: seq<User>,
                          businesses: seq<Business>, checkins: seq<Checkin>, labels: seq<Label>, o: (FeatureRow, Label))
    requires o in FullFeatures(idDict, reviews, tips, users, businesses, checkins, labels)
    ensures o.1 in labels
    ensures o.0.restaurantId == Some(o.1.restaurantId)
    ensures Before(o.0.fields.event.date, o.1.date) && o.0.fields.event.date != o.1.date
    ensures exists e, u, b ::
      && e in ReviewsAndTips(reviews, tips) && u in users && b in businesses
      && Joinable(e, u, b) && Resolve(idDict, e.restaurantId) == o.0.restaurantId
      && CombinedFrom(Keyed(e.restaurantId, o.0.fields), e, u, b, checkins)
  {
    var combined := Combined(reviews, tips, users, businesses, checkins);
    var resolved := DropUnresolved(RemapIds(idDict, combined));
    assert o in InnerJoin(resolved, labels, RowKey, LabelKey);
    assert o.0 in RemapIds(idDict, combined);
    RemapIdsMembers(idDict, combined);
    var x :| x in combined && o.0 == Keyed(Resolve(idDict, x.restaurantId), x.fields);
    CombinedSound(reviews, tips, users, businesses, checkins, x);
    var e, u, b :| e in ReviewsAndTips(reviews, tips) && u in users && b in businesses &&
      Joinable(e, u, b) && CombinedFrom(x, e, u, b, checkins);
    assert Keyed(e.restaurantId, o.0.fields) == x;
  }

  /**
   * Completeness of the joins and of the temporal filter: every event with a
   * user and a business whose Yelp id resolves to an inspected restaurant, and
   * that is strictly before that inspection, yields a row of `get_full_features`.
   */
  lemma FullFeaturesComplete(idDict: map<Id, Id>, reviews: seq<Review>, tips: seq<Tip>, users: seq<User>,
                             businesses: seq<Business>, checkins: seq<Checkin>, labels: seq<Label>,
                             e: Event, u: User, b: Business, l: Label)
    requires e in ReviewsAndTips(reviews, tips) && u in users && b in businesses && l in labels
    requires Joinable(e, u, b)
    requires Resolve(idDict, e.restaurantId) == Some(l.restaurantId)
    requires Before(e.fields.date, l.date)
    ensures exists o ::
      && o in FullFeatures(idDict, reviews, tips, users, businesses, checkins, labels)
      && o.1 == l && o.0.restaurantId == Some(l.restaurantId)
      && CombinedFrom(Keyed(e.restaurantId, o.0.fields), e, u, b, checkins)
  {
    var combined := Combined(reviews, tips, users, businesses, checkins);
    CombinedComplete(reviews, tips, users, businesses, checkins, e, u, b);
    var x :| x in combined && CombinedFrom(x, e, u, b, checkins);
    RemapIdsMembers(idDict, combined);
    var row := Keyed(Resolve(idDict, x.restaurantId), x.fields);
    assert row in RemapIds(idDict, combined);
    var resolved := DropUnresolved(RemapIds(idDict, combined));
    assert row in resolved;
    InnerJoinComplete(resolved, labels, RowKey, LabelKey, row, l);
    assert NoFuture((row, l));
    assert (row, l) in FullFeatures(idDict, reviews, tips, users, businesses, checkins, labels);
    assert Keyed(e.restaurantId, row.fields) == x;
  }
}
