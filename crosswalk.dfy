/**
 * The crosswalk from Yelp business ids to Boston restaurant ids: building the
 * dictionary from the id-map table, resolving an id through it, and dropping
 * the rows whose id does not resolve.
 */
module Crosswalk {
  import opened Wrappers
  import opened Records
  import opened Tables

  /**
   * One row of the id-map table: the Boston restaurant id in the first column
   * and the remaining columns, each a Yelp business id or NaN.
   */
  datatype CrosswalkRow = CrosswalkRow(restaurantId: Id, yelpSlots: seq<Option<Id>>)

  /** Row `row` lists Yelp id `y` in one of its non-null slots. */
  predicate Lists(row: CrosswalkRow, y: Id)
  {
    Some(y) in row.yelpSlots
  }

  /** `row[1:][non_null_mask].values`: the non-null Yelp ids of a row, in column order. */
  function NonNullIds(slots: seq<Option<Id>>): (ids: seq<Id>)
    ensures |ids| <= |slots|
    ensures forall y :: y in ids <==> Some(y) in slots
  {
    if slots == [] then []
    else
      assert slots == [slots[0]] + slots[1..];
      (match slots[0] case Some(y) => [y] case None => []) + NonNullIds(slots[1..])
  }

  /** The dictionary after `id_dict[yelp_id] = boston_id` for each id of `ids`, in order. */
  function InsertIds(m: map<Id, Id>, ids: seq<Id>, boston: Id): (r: map<Id, Id>)
    ensures forall y :: y in r <==> y in m || y in ids
    ensures forall y :: y in ids ==> r[y] == boston
    ensures forall y :: y in m && y !in ids ==> r[y] == m[y]
  {
    if ids == [] then m
    else
      assert ids == ids[..|ids| - 1] + [ids[|ids| - 1]];
      InsertIds(m, ids[..|ids| - 1], boston)[ids[|ids| - 1] := boston]
  }

  /** The dictionary the id-map rows build, row after row (the specification of `BuildIdDict`). */
  function IdDict(rows: seq<CrosswalkRow>): (d: map<Id, Id>)
    ensures forall y :: y in d ==> exists i :: 0 <= i < |rows| && d[y] == rows[i].restaurantId
  {
    if rows == [] then map[]
    else
      var n := |rows| - 1;
      var front := rows[..n];
      var ids := NonNullIds(rows[n].yelpSlots);
      var d := InsertIds(IdDict(front), ids, rows[n].restaurantId);
      assert forall y :: y in d ==> exists i :: 0 <= i < |rows| && d[y] == rows[i].restaurantId by {
        forall y | y in d ensures exists i :: 0 <= i < |rows| && d[y] == rows[i].restaurantId {
          if y !in ids {
            var i :| 0 <= i < |front| && IdDict(front)[y] == front[i].restaurantId;
            assert rows[i] == front[i];
          }
        }
      }
      d
  }

  /** The dictionary's keys are exactly the non-null Yelp ids of all rows; null slots never become keys. */
  lemma {:induction false} IdDictKeys(rows: seq<CrosswalkRow>, y: Id)
    ensures y in IdDict(rows) <==> exists i :: 0 <= i < |rows| && Lists(rows[i], y)
  {
    if rows != [] {
      var n := |rows| - 1;
      var front := rows[..n];
      IdDictKeys(front, y);
      assert forall i :: 0 <= i < n ==> front[i] == rows[i];
      if y in IdDict(rows) && !Lists(rows[n], y) {
        var i :| 0 <= i < n && Lists(front[i], y);
        assert Lists(rows[i], y);
      }
    }
  }

  /** Last write wins: a listed id maps to the Boston id of the last row that lists it. */
  lemma {:induction false} IdDictLastWriteWins(rows: seq<CrosswalkRow>, i: int, y: Id)
    requires 0 <= i < |rows| && Lists(rows[i], y)
    requires forall j :: i < j < |rows| ==> !Lists(rows[j], y)
    ensures y in IdDict(rows) && IdDict(rows)[y] == rows[i].restaurantId
  {
    var n := |rows| - 1;
    var front := rows[..n];
    if i < n {
      IdDictLastWriteWins(front, i, y);
    }
  }

  /**
   * The crosswalk-building loops of `get_reviews` and `get_full_features`:
   * for each row, for each of its non-null Yelp ids, `id_dict[yelp_id] = boston_id`.
   */
  method BuildIdDict(rows: seq<CrosswalkRow>) returns (idDict: map<Id, Id>)
    ensures idDict == IdDict(rows)
  {
    idDict := map[];
    var i := 0;
    while i < |rows|
      invariant 0 <= i <= |rows|
      invariant idDict == IdDict(rows[..i])
    {
      var bostonId := rows[i].restaurantId;
      var yelpIds := NonNullIds(rows[i].yelpSlots);
      var j := 0;
      while j < |yelpIds|
        invariant 0 <= j <= |yelpIds|
        invariant idDict == InsertIds(IdDict(rows[..i]), yelpIds[..j], bostonId)
      {
        assert yelpIds[..j + 1][..j] == yelpIds[..j];
        idDict := idDict[yelpIds[j] := bostonId];
        j := j + 1;
      }
      assert yelpIds[..j] == yelpIds;
      assert rows[..i + 1][..i] == rows[..i];
      i := i + 1;
    }
    assert rows[..i] == rows;
  }

  /** `map_to_boston_ids`: a known Yelp id becomes its Boston id; an unknown or null id becomes NaN. */
  function Resolve(idDict: map<Id, Id>, id: Option<Id>): (r: Option<Id>)
    ensures r.Some? <==> id.Some? && id.value in idDict
    ensures r.Some? ==> r.value == idDict[id.value]
  {
    match id
    case Some(y) => if y in idDict then Some(idDict[y]) else None
    case None => None
  }

  /**
   * Resolution through the crosswalk: an id listed by some row resolves to the
   * Boston id of the last row listing it, an id no row lists resolves to NaN.
   */
  lemma ResolveThroughCrosswalk(rows: seq<CrosswalkRow>, y: Id)
    ensures (forall i :: 0 <= i < |rows| ==> !Lists(rows[i], y)) <==> Resolve(IdDict(rows), Some(y)) == None
    ensures forall i :: 0 <= i < |rows| && Lists(rows[i], y) && (forall j :: i < j < |rows| ==> !Lists(rows[j], y))
               ==> Resolve(IdDict(rows), Some(y)) == Some(rows[i].restaurantId)
  {
    IdDictKeys(rows, y);
    forall i | 0 <= i < |rows| && Lists(rows[i], y) && (forall j :: i < j < |rows| ==> !Lists(rows[j], y))
      ensures Resolve(IdDict(rows), Some(y)) == Some(rows[i].restaurantId)
    {
      IdDictLastWriteWins(rows, i, y);
    }
  }

  /** `df.restaurant_id = df.restaurant_id.map(map_to_boston_ids)`: rewrites that one column of every row. */
  function RemapIds<T>(idDict: map<Id, Id>, rows: seq<Keyed<T>>): (out: seq<Keyed<T>>)
    ensures |out| == |rows|
    ensures forall i :: 0 <= i < |rows| ==>
      out[i].fields == rows[i].fields && out[i].restaurantId == Resolve(idDict, rows[i].restaurantId)
  {
    if rows == [] then []
    else [Keyed(Resolve(idDict, rows[0].restaurantId), rows[0].fields)] + RemapIds(idDict, rows[1..])
  }

  /** A row is in the remapped table iff some input row, with its id resolved, is that row. */
  lemma RemapIdsMembers<T>(idDict: map<Id, Id>, rows: seq<Keyed<T>>)
    ensures forall x :: x in rows ==> Keyed(Resolve(idDict, x.restaurantId), x.fields) in RemapIds(idDict, rows)
    ensures forall o :: o in RemapIds(idDict, rows) ==>
      exists x :: x in rows && o == Keyed(Resolve(idDict, x.restaurantId), x.fields)
  {
    var out := RemapIds(idDict, rows);
    forall x | x in rows ensures Keyed(Resolve(idDict, x.restaurantId), x.fields) in out {
      var i :| 0 <= i < |rows| && rows[i] == x;
      assert out[i] == Keyed(Resolve(idDict, x.restaurantId), x.fields);
    }
    forall o | o in out ensures exists x :: x in rows && o == Keyed(Resolve(idDict, x.restaurantId), x.fields) {
      var i :| 0 <= i < |out| && out[i] == o;
      assert rows[i] in rows;
    }
  }

  predicate IsResolved<T>(row: Keyed<T>)
  {
    row.restaurantId.Some?
  }

  /** `df[pd.notnull(df.restaurant_id)]`: drops the rows whose id did not resolve. */
  function DropUnresolved<T>(rows: seq<Keyed<T>>): (kept: seq<Keyed<T>>)
    ensures |kept| <= |rows|
    ensures forall x :: x in kept ==> x in rows && x.restaurantId.Some?
    ensures forall x :: x in rows && x.restaurantId.Some? ==> x in kept
  {
    FilterMembers(rows, IsResolved);
    Filter(rows, IsResolved)
  }

  /** A row whose (Yelp) id the dictionary knows. */
  function KnownIn<T>(idDict: map<Id, Id>): Keyed<T> -> bool
  {
    (row: Keyed<T>) => Resolve(idDict, row.restaurantId).Some?
  }

  /**
   * Remapping and then dropping the NaN rows keeps, in their original order,
   * exactly the rows whose id resolved, with only their id rewritten.
   */
  lemma {:induction false} RemapThenDrop<T>(idDict: map<Id, Id>, rows: seq<Keyed<T>>)
    ensures DropUnresolved(RemapIds(idDict, rows)) == RemapIds(idDict, Filter(rows, KnownIn(idDict)))
  {
    if rows != [] {
      var head := Keyed(Resolve(idDict, rows[0].restaurantId), rows[0].fields);
      assert RemapIds(idDict, rows) == [head] + RemapIds(idDict, rows[1..]);
      FilterConcat([head], RemapIds(idDict, rows[1..]), IsResolved);
      RemapThenDrop(idDict, rows[1..]);
      if KnownIn(idDict)(rows[0]) {
        assert Filter(rows, KnownIn(idDict)) == [rows[0]] + Filter(rows[1..], KnownIn(idDict));
      }
    }
  }
}
