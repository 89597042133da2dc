# Temporal join-and-flatten pipeline of `data_grab.py`, in Dafny

This project models the data-preparation core of a restaurant-inspection
predictor. The predictor's inputs are the Yelp academic dataset (reviews, tips,
users, businesses, check-ins) and the Boston inspection labels. The model
covers four parts:

- **The crosswalk.** The id-map table lists, for each Boston restaurant id, up
  to four Yelp business ids, some of them NaN. Two nested loops turn it into a
  dictionary from Yelp id to Boston id. A later row overwrites an earlier one.
- **Resolution and drop.** Each table's `restaurant_id` column is mapped through
  the dictionary. An unknown id becomes NaN, and the NaN rows are dropped.
- **`get_full_features`.** Reviews and tips are appended into one event table.
  That table is inner-merged with the users on `user_id`, inner-merged with the
  businesses on the Yelp id, and left-merged with the check-ins on the Yelp id.
  The ids are then remapped to Boston ids and the NaN rows dropped. The result
  is inner-merged with the inspection labels on `restaurant_id`. Only the rows
  whose event is strictly before its inspection are kept
  (`inspection_date > review_date`).
- **`get_reviews` and `flatten_reviews`.** `get_reviews` remaps and drops the
  review rows, then unwinds the date and the vote counts into columns of their
  own. For every inspection, `flatten_reviews` joins with single spaces the
  texts of that restaurant's reviews dated strictly before it, in review-table
  order. It keys the results by the label index and re-indexes them into label
  order.

Modelling choices:

- Tables are sequences of records. A row whose `restaurant_id` the crosswalk
  rewrites is a `Keyed<T>`: an optional id (`None` is NaN) plus the other
  columns. This lets the remap and the drop be defined once for both tables.
- Dates are `Date(year, month, day)`, ordered lexicographically by `Before`.
- The boolean-mask selection is `Tables.Filter`. `pd.merge` is
  `Tables.InnerJoin` or `Tables.LeftJoin`, and their output pairs the merged
  rows.
- The crosswalk builder and `flatten_reviews` update a dictionary in loops, so
  they are methods. Each is proved against a specification function:
  `Crosswalk.IdDict` and `Flatten.FlattenedAsWritten` respectively. Everything
  else is a whole-table expression and is modelled as a function.

Behaviour of the code that the model keeps as it is:

- **Order of remap and joins.** The code merges users, businesses and
  check-ins on the Yelp id before it remaps and drops (lines 103-124).
- **Crosswalk collisions.** A Yelp id listed by several rows silently keeps
  the last write (lines 16-22).
- **Empty result.** An empty joined table is returned, not rejected.

## Model

| member | source | states |
|---|---|---|
| `Records.BeforeIsStrictTotalOrder` | data_grab.py:135 | the date order used by the filters is irreflexive, transitive and total, so a same-day event is never "before" |
| `Tables.Filter` | data_grab.py:40 | a mask selection keeps no more rows than it is given, and only rows of the input that satisfy the mask |
| `Tables.FilterMultiplicity` | data_grab.py:124 | a row satisfying the mask keeps exactly its multiplicity; any other row disappears |
| `Tables.FilterMembers` | data_grab.py:135 | a row is kept iff it is in the input and satisfies the mask (soundness and completeness) |
| `Tables.FilterConcat` | data_grab.py:169 | masking commutes with concatenation, so kept rows stay in input order |
| `Tables.FilterEmpty` | data_grab.py:169 | the selection is empty iff no row satisfies the mask |
| `Tables.FilterOfFilter` | data_grab.py:166-169 | a stronger mask applied after a weaker one gives the stronger mask's selection |
| `Tables.MatchesMembers` | data_grab.py:89 | the merge partners of a left row are exactly the right rows with its key |
| `Tables.PairWith` | data_grab.py:89 | pairs one left row with exactly the given right rows |
| `Tables.InnerJoin` | data_grab.py:89 | every output row pairs a left and a right row that carry equal keys |
| `Tables.PairWithMultiplicity` | data_grab.py:89 | pairing one left row with a list of right rows holds each pair exactly as often as the list holds that right row |
| `Tables.MatchesPairMultiplicity` | data_grab.py:89 | one left row contributes each key-equal pair as often as the right table holds that right row, and nothing else |
| `Tables.InnerJoinMultiplicity` | data_grab.py:96 | no deduplication: a key-equal pair appears (count on the left) × (count on the right) times, any other pair never |
| `Tables.InnerJoinComplete` | data_grab.py:96 | every (left, right) pair with equal keys appears in the inner merge |
| `Tables.SomePairs` | data_grab.py:103 | pairs one left row with exactly the given right rows, each marked present |
| `Tables.LeftRows` | data_grab.py:103 | one left row yields its matches, or one row with NaN right columns when it has none |
| `Tables.LeftJoin` | data_grab.py:103 | the left merge has at least as many rows as its left table; each row has a matching right row, or NaN only when no right row matches |
| `Tables.LeftJoinComplete` | data_grab.py:103 | every left row survives the left merge: with each match, or with NaN when unmatched |
| `Crosswalk.NonNullIds` | data_grab.py:19-20 | the ids taken from a row are exactly its non-null Yelp-id slots |
| `Crosswalk.InsertIds` | data_grab.py:21-22 | inserting one row's ids adds exactly those keys, each bound to the row's Boston id, and leaves other keys alone |
| `Crosswalk.IdDict` | data_grab.py:13-22 | the dictionary the id-map rows build; every value in it is the Boston id of some row |
| `Crosswalk.IdDictKeys` | data_grab.py:16-22 | the dictionary's keys are exactly the non-null Yelp ids of all rows; NaN slots never become keys |
| `Crosswalk.IdDictLastWriteWins` | data_grab.py:16-22 | a Yelp id maps to the Boston id of the last row listing it |
| `Crosswalk.BuildIdDict` | data_grab.py:13-22 | the nested loops (also lines 106-117) build exactly `IdDict(rows)` |
| `Crosswalk.Resolve` | data_grab.py:33 | `map_to_boston_ids`: a result exists iff the id is non-null and a key of the dictionary, and then it is the dictionary's value |
| `Crosswalk.ResolveThroughCrosswalk` | data_grab.py:33 | an id no row lists resolves to NaN, and conversely; a listed id resolves to its last row's Boston id |
| `Crosswalk.RemapIds` | data_grab.py:34 | remapping keeps the row count and every other column; each id becomes its resolution |
| `Crosswalk.RemapIdsMembers` | data_grab.py:120-121 | a row is in the remapped table iff it is an input row with its id resolved |
| `Crosswalk.DropUnresolved` | data_grab.py:40 | after the drop every row has a non-null id, and every resolved row is still there |
| `Crosswalk.RemapThenDrop` | data_grab.py:33-40 | remap-then-drop equals the order-preserving subsequence of rows whose id is known, with only the id rewritten |
| `Reviews.Unwind` | data_grab.py:43-48 | unwinding keeps the row count, the id and the review; the year, month and day columns equal the date's components, and the vote columns equal the `votes` sub-counts |
| `Reviews.StripUnwind` | data_grab.py:43-48 | unwinding loses nothing: removing the added columns gives back the input |
| `Reviews.ReviewTable` | data_grab.py:33-48 | the table `get_reviews` returns: no longer than the raw reviews, every row with a Boston id and date and vote columns that agree with the review |
| `Reviews.GetReviews` | data_grab.py:8-53 | returns the unwound, dropped, remapped review table under the crosswalk the id map builds |
| `Reviews.ReviewTableShape` | data_grab.py:33-48 | every returned row has a Boston id and consistent added columns; without those columns the table is the raw reviews with a known id, in file order, with only their id rewritten |
| `Features.ReviewsAndTips` | data_grab.py:81 | appending puts every review and every tip into the event table |
| `Features.ReviewsAndTipsLossless` | data_grab.py:80-82 | one event per review then per tip, in order; each review or tip is recovered from its event; no event reads as both |
| `Features.ReviewsAndTipsSources` | data_grab.py:81 | every event comes from a review or a tip |
| `Features.AssembleAll` | data_grab.py:103 | one merged row per merged tuple; the merged rows are exactly the assembled (event, user, business, check-in) tuples |
| `Features.EventsUsersBusinesses` | data_grab.py:89-96 | the two inner merges: every row is an event with a user of the same `user_id` and a business of the same Yelp id |
| `Features.Combined` | data_grab.py:89-103 | the left merge with the check-ins loses no row of the two inner merges |
| `Features.FullFeatures` | data_grab.py:121-135 | the table `get_full_features` returns: every row pairs an inspection label with an event of the same resolved restaurant, strictly before it |
| `Features.TemporalFilter` | data_grab.py:135 | a row is kept iff its event is strictly before its inspection; kept rows are never same-day |
| `Features.GetFullFeatures` | data_grab.py:68-139 | returns `FullFeatures` under the crosswalk the id map builds |
| `Features.EventsUsersBusinessesComplete` | data_grab.py:89-96 | the two inner merges keep every event together with its user and its business |
| `Features.CheckinColumnFits` | data_grab.py:103 | a row of the check-in left merge carries a merged row and either a matching check-in's info or NaN when the business has no check-in |
| `Features.CombinedSound` | data_grab.py:89-103 | each merged row is one event with its user, its business and a fitting check-in column |
| `Features.CombinedComplete` | data_grab.py:89-103 | each event that has a user and a business yields a merged row |
| `Features.FullFeaturesSound` | data_grab.py:121-135 | no leakage: each output row pairs an inspection with an event of the same resolved restaurant, strictly earlier, plus that event's user and business |
| `Features.FullFeaturesComplete` | data_grab.py:121-135 | each such event with a user and a business, whose Yelp id resolves to an inspected restaurant and that is strictly before the inspection, yields an output row |
| `Flatten.JoinWithSpace` | data_grab.py:172 | `' '.join`: no texts give "", otherwise the join starts with the first text |
| `Flatten.JoinWithSpaceConcat` | data_grab.py:172 | joining two non-empty text lists puts exactly one space between their joins |
| `Flatten.JoinWithSpaceLength` | data_grab.py:172 | the joined text's length is the total text length plus one separator per neighbour pair |
| `Flatten.Qualifies` | data_grab.py:166 | `pre_inspection_mask`: a qualifying review has a restaurant id and is never dated on the inspection day |
| `Flatten.PreInspection` | data_grab.py:166-169 | `reviews[pre_inspection_mask]`: no longer than the review table, and only qualifying reviews of it |
| `Flatten.Document` | data_grab.py:166-172 | one inspection's `all_text`: "" when no review is selected |
| `Flatten.PreInspectionExactly` | data_grab.py:166-169 | a label's selected reviews are exactly that restaurant's reviews strictly before the inspection, each with its own multiplicity; same-day reviews are excluded |
| `Flatten.DocumentEmpty` | data_grab.py:172 | nothing is selected iff no review qualifies, and then the document is the empty string |
| `Flatten.DocumentIgnoresNonQualifying` | data_grab.py:166-172 | no leakage: inserting later, same-day or other-restaurant reviews anywhere leaves the document unchanged |
| `Flatten.DocumentAppend` | data_grab.py:172 | texts appear in review-table order: a qualifying review appended to the table is appended to the document after one space |
| `Flatten.EarlierInspectionSeesPrefix` | data_grab.py:166 | for two inspections of one restaurant, the earlier one's reviews are the later one's reviews filtered by the earlier date |
| `Flatten.Owner` | data_grab.py:175 | names the last label row sharing a row's inspection id |
| `Flatten.DictOf` | data_grab.py:161-175 | `reviews_dictionary` after the loop: its keys are exactly the labels' inspection ids |
| `Flatten.DictOfAtIndex` | data_grab.py:175 | a label's inspection id is bound to the document of the last label with that id |
| `Flatten.DictOfAt` | data_grab.py:161-175 | the filled dictionary holds every inspection id, bound to the document of the last label row with that id |
| `Flatten.ReIndex` | data_grab.py:181 | re-indexing yields one entry per label row, in label order, read from the dictionary |
| `Flatten.FlattenedAsWritten` | data_grab.py:153-181 | one entry per label row in label order; entry i is the document of the last label row sharing row i's inspection id |
| `Flatten.FlattenReviews` | data_grab.py:153-181 | the loop and re-index compute exactly `FlattenedAsWritten` |
| `Flatten.AsWrittenIsByRowForUniqueIds` | data_grab.py:175-181 | with unique inspection ids, the output is each label's own document, in label order |
| `Flatten.DuplicateInspectionIdShadowsEarlierLabel` | data_grab.py:175-181 | with a repeated inspection id, the earlier row is given the later row's document ("" instead of "good food") |
| `Flatten.FlattenReviewsByRow` | data_grab.py:164-181 | one document per label row, built row by row, equal to each label's own document |
| `Flatten.ExampleReviewTable` | data_grab.py:16-40 | worked case: with B1 listing Yelp ids Y1 and Y2, both Y1 reviews are rewritten to B1 and kept |
| `Flatten.ExampleFirstDocument` | data_grab.py:166-172 | worked case: the day-3 inspection of B1 gets the day-1 review's text and not the day-5 one |
| `Flatten.ExampleSecondDocument` | data_grab.py:166-172 | worked case: an inspection of B2, which has no reviews, gets "" |
| `Flatten.CrosswalkThenFlattenExample` | data_grab.py:153-181 | worked case end to end: crosswalk, remap, drop and flatten give ["good food", ""] |

## Left out

- Reading the JSON-lines and CSV files, and `pd.read_json` / `pd.read_csv` (lines 24-30, 57, 64, 69-100, 105, 126). The model takes the tables as in-memory sequences.
- The positional column renames (lines 37, 82, 87, 94, 101, 127). Records carry the canonical names directly. The event record takes the union of the review and tip columns, in the order the rename at line 82 assumes.
- `flatten_reviews` reads the columns `date` and `text`, but `get_reviews` names its date column `review_date`. The model has one date field and one text field.
- `pd.to_datetime` (line 130) is not modelled. Dates are already (year, month, day) values, so time-of-day is not modelled.
- `get_response` and `get_submission` (lines 56-65): the `astype(np.float64)` target extraction is floating point and not modelled. Targets are kept as integers on the label record.
- `train_and_save` and `load_flattened_reviews` (lines 184-195) are joblib persistence, an external cache.
- The progress printing and timing (lines 137, 177-178, 198-205) are side effects.
- `main` calls the undefined `load_full_features` (line 204). `transform_features` (lines 142-150) reads a `votes` column that line 82 renamed. Both are broken glue code and are not modelled.
- NaN as a merge key is not modelled: pandas matches NaN with NaN. Every record's own id is present here, and only a remapped id can be NaN.
- NaN in the crosswalk's Boston-id column is not modelled. Every Boston id is a string.
- The bound of four Yelp ids per crosswalk row is not enforced. A row may have any number of slots.
- `Tables.InnerJoin`: the output order is left row by left row, not pandas' own. No contract claims an order for the merged tables, and nothing in the pipeline reads that order. Multiplicities are stated, by `Tables.InnerJoinMultiplicity`.
- `Tables.LeftJoin`: it states that every left row is present and that the output is at least as long as the left table. It does not state a per-duplicate multiplicity of left rows.

## Findings

| source | as written | input that shows it | evidently intended | confidence | as-written member | corrected member |
|---|---|---|---|---|---|---|
| data_grab.py:175-181 | documents are stored in a dictionary keyed by the label index (the inspection id) and read back with `[label_df.index]` | two label rows with inspection id "1" for restaurant B1, dated 2012-05-01 then 2012-01-01, and one B1 review on 2012-03-01 "good food": the first row gets "" | one document per label row, each filtered by its own date ("good food" for the first row) | not executed; follows from dictionary overwrite, and matters only if the label index repeats | `Flatten.DuplicateInspectionIdShadowsEarlierLabel` | `Flatten.FlattenReviewsByRow` |
