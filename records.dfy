/**
 * The records the pipeline reads, with their columns already carrying the
 * canonical names the source assigns positionally.
 */
module Records {
  import opened Wrappers

  /** Restaurant, business, user, review and inspection identifiers are opaque strings. */
  type Id = string

  /** A calendar date, as pandas' `dt.year`, `dt.month` and `dt.day` decompose it. */
  datatype Date = Date(year: int, month: int, day: int)

  /** Strict chronological order on dates: lexicographic on (year, month, day). */
  predicate Before(a: Date, b: Date)
  {
    || a.year < b.year
    || (a.year == b.year && a.month < b.month)
    || (a.year == b.year && a.month == b.month && a.day < b.day)
  }

  /** `Before` is a strict total order, so a same-day event is never before its label. */
  lemma BeforeIsStrictTotalOrder(a: Date, b: Date, c: Date)
    ensures !Before(a, a)
    ensures Before(a, b) && Before(b, c) ==> Before(a, c)
    ensures a == b || Before(a, b) || Before(b, a)
  {
  }

  /** The nested `votes` object of a review. */
  datatype Votes = Votes(cool: int, funny: int, useful: int)

  /**
   * A table row whose `restaurant_id` column may hold NaN. Before the crosswalk
   * is applied the column holds a Yelp business id, afterwards a Boston
   * restaurant id or NaN; `fields` are the row's other columns.
   */
  datatype Keyed<T> = Keyed(restaurantId: Option<Id>, fields: T)

  /** The columns of a Yelp review other than its business id. */
  datatype ReviewBody = ReviewBody(date: Date, reviewId: Id, stars: int, text: string,
                                   kind: string, userId: Id, votes: Votes)

  /** The columns of a Yelp tip other than its business id. */
  datatype TipBody = TipBody(date: Date, likes: int, text: string, kind: string, userId: Id)

  type Review = Keyed<ReviewBody>
  type Tip = Keyed<TipBody>

  /** The columns of a user, business or check-in record that the pipeline carries along unread. */
  type Profile = seq<string>

  datatype User = User(userId: Id, profile: Profile)
  datatype Business = Business(restaurantId: Id, profile: Profile)
  datatype Checkin = Checkin(restaurantId: Id, info: Profile)

  /**
   * An inspection: its id (the label table's index), its date, the Boston
   * restaurant id, and the violation counts `*`, `**`, `***` (empty for the
   * submission table).
   */
  datatype Label = Label(inspectionId: Id, date: Date, restaurantId: Id, targets: seq<int>)
}
