/**
 * The two DataFrame operations the pipeline is built from: selecting rows with
 * a boolean mask (`df[mask]`) and `pd.merge` on one key column, inner or left.
 */
module Tables {
  import opened Wrappers

  /** `s[mask]`: the rows of `s` that satisfy `p`, in their original order. */
  function Filter<T>(s: seq<T>, p: T -> bool): (r: seq<T>)
    ensures |r| <= |s|
    ensures forall x :: x in r ==> x in s && p(x)
  {
    if s == [] then [] else (if p(s[0]) then [s[0]] else []) + Filter(s[1..], p)
  }

  /** A row that satisfies the mask keeps exactly its multiplicity; any other row is gone. */
  lemma {:induction false} FilterMultiplicity<T>(s: seq<T>, p: T -> bool, x: T)
    ensures multiset(Filter(s, p))[x] == if p(x) then multiset(s)[x] else 0
  {
    if s != [] {
      FilterMultiplicity(s[1..], p, x);
      assert s == [s[0]] + s[1..];
    }
  }

  /** Soundness and completeness of the mask: a row is kept iff it is in `s` and satisfies `p`. */
  lemma FilterMembers<T>(s: seq<T>, p: T -> bool)
    ensures forall x :: x in Filter(s, p) <==> x in s && p(x)
  {
    forall x | x in s && p(x) ensures x in Filter(s, p) {
      FilterMultiplicity(s, p, x);
    }
  }

  /** The mask commutes with concatenation: the relative order of the kept rows is the input order. */
  lemma {:induction false} FilterConcat<T>(a: seq<T>, b: seq<T>, p: T -> bool)
    ensures Filter(a + b, p) == Filter(a, p) + Filter(b, p)
  {
    if a == [] {
      assert a + b == b;
    } else {
      assert (a + b)[1..] == a[1..] + b;
      FilterConcat(a[1..], b, p);
    }
  }

  /** Nothing is kept iff no row satisfies the mask. */
  lemma {:induction false} FilterEmpty<T>(s: seq<T>, p: T -> bool)
    ensures Filter(s, p) == [] <==> forall x :: x in s ==> !p(x)
  {
    if s != [] {
      FilterEmpty(s[1..], p);
      assert s == [s[0]] + s[1..];
    }
  }

  /** Applying a weaker mask and then a stronger one is the same as applying the stronger one. */
  lemma {:induction false} FilterOfFilter<T>(s: seq<T>, p: T -> bool, q: T -> bool)
    requires forall x :: p(x) ==> q(x)
    ensures Filter(Filter(s, q), p) == Filter(s, p)
  {
    if s != [] {
      var head := if q(s[0]) then [s[0]] else [];
      FilterConcat(head, Filter(s[1..], q), p);
      FilterOfFilter(s[1..], p, q);
    }
  }

  /** The mask `rk(r) == k` as a value, so that every use of it denotes the same function. */
  function KeyIs<R, K(==)>(k: K, rk: R -> K): R -> bool
  {
    r => rk(r) == k
  }

  /** The right rows whose key equals the key of `l`, in right-table order. */
  function Matches<L, R, K(==)>(l: L, rs: seq<R>, lk: L -> K, rk: R -> K): seq<R>
  {
    Filter(rs, KeyIs(lk(l), rk))
  }

  /** A row of `rs` is a match of `l` iff it is in `rs` and carries the key of `l`. */
  lemma MatchesMembers<L, R, K>(l: L, rs: seq<R>, lk: L -> K, rk: R -> K)
    ensures forall r :: r in Matches(l, rs, lk, rk) <==> r in rs && rk(r) == lk(l)
  {
    FilterMembers(rs, KeyIs(lk(l), rk));
  }

  /** Pairs `l` with each row of `ms`, in order. */
  function PairWith<L, R>(l: L, ms: seq<R>): (out: seq<(L, R)>)
    ensures forall o :: o in out ==> o.0 == l && o.1 in ms
    ensures forall r :: r in ms ==> (l, r) in out
  {
    if ms == [] then [] else [(l, ms[0])] + PairWith(l, ms[1..])
  }

  /**
   * `pd.merge(ls, rs, on=key)`: one output row per (left, right) pair with equal keys.
   * The rows come left row by left row; pandas' own row order is not claimed.
   */
  function InnerJoin<L, R, K(==)>(ls: seq<L>, rs: seq<R>, lk: L -> K, rk: R -> K): (out: seq<(L, R)>)
    ensures forall o :: o in out ==> o.0 in ls && o.1 in rs && lk(o.0) == rk(o.1)
  {
    if ls == [] then []
    else
      MatchesMembers(ls[0], rs, lk, rk);
      PairWith(ls[0], Matches(ls[0], rs, lk, rk)) + InnerJoin(ls[1..], rs, lk, rk)
  }

  /** Every pair of rows with equal keys appears in the inner join. */
  lemma {:induction false} InnerJoinComplete<L, R, K>(ls: seq<L>, rs: seq<R>, lk: L -> K, rk: R -> K, l: L, r: R)
    requires l in ls && r in rs && lk(l) == rk(r)
    ensures (l, r) in InnerJoin(ls, rs, lk, rk)
  {
    if ls[0] == l {
      MatchesMembers(l, rs, lk, rk);
      assert (l, r) in PairWith(l, Matches(l, rs, lk, rk));
    } else {
      assert l in ls[1..] by { assert ls == [ls[0]] + ls[1..]; }
      InnerJoinComplete(ls[1..], rs, lk, rk, l, r);
    }
  }

  /** `l0` paired with `ms` holds `(l0, r)` as often as `ms` holds `r`, and nothing else. */
  lemma {:induction false} PairWithMultiplicity<L, R>(l0: L, ms: seq<R>, l: L, r: R)
    ensures multiset(PairWith(l0, ms))[(l, r)] == if l == l0 then multiset(ms)[r] else 0
  {
    if ms != [] {
      PairWithMultiplicity(l0, ms[1..], l, r);
      assert ms == [ms[0]] + ms[1..];
      assert multiset(PairWith(l0, ms)) == multiset([(l0, ms[0])]) + multiset(PairWith(l0, ms[1..]));
    }
  }

  /** The rows one left row `l0` contributes to the inner join hold `(l, r)` as often as `rs` holds a matching `r`. */
  lemma MatchesPairMultiplicity<L, R, K>(l0: L, rs: seq<R>, lk: L -> K, rk: R -> K, l: L, r: R)
    ensures multiset(PairWith(l0, Matches(l0, rs, lk, rk)))[(l, r)] ==
      if l == l0 && lk(l) == rk(r) then multiset(rs)[r] else 0
  {
    PairWithMultiplicity(l0, Matches(l0, rs, lk, rk), l, r);
    FilterMultiplicity(rs, KeyIs(lk(l0), rk), r);
  }

  /**
   * The inner join has no deduplication: a key-equal pair `(l, r)` appears
   * once for every occurrence of `l` on the left and of `r` on the right.
   */
  lemma {:induction false} InnerJoinMultiplicity<L, R, K>(ls: seq<L>, rs: seq<R>, lk: L -> K, rk: R -> K, l: L, r: R)
    ensures multiset(InnerJoin(ls, rs, lk, rk))[(l, r)] ==
      if lk(l) == rk(r) then multiset(ls)[l] * multiset(rs)[r] else 0
  {
    if ls != [] {
      var rest := ls[1..];
      InnerJoinUnfold(ls, rs, lk, rk, l, r);
      InnerJoinMultiplicity(rest, rs, lk, rk, l, r);
      MatchesPairMultiplicity(ls[0], rs, lk, rk, l, r);
      MultisetOfCons(ls, l);
      if lk(l) == rk(r) && l == ls[0] {
        ProductSplit(1, multiset(rest)[l], multiset(rs)[r]);
      }
    }
  }

  lemma MultisetOfCons<T>(s: seq<T>, x: T)
    requires s != []
    ensures multiset(s)[x] == (if x == s[0] then 1 else 0) + multiset(s[1..])[x]
  {
    assert s == [s[0]] + s[1..];
  }

  /** The inner join's count of `(l, r)` is the first left row's share plus the rest's. */
  lemma InnerJoinUnfold<L, R, K>(ls: seq<L>, rs: seq<R>, lk: L -> K, rk: R -> K, l: L, r: R)
    requires ls != []
    ensures multiset(InnerJoin(ls, rs, lk, rk))[(l, r)] ==
      multiset(PairWith(ls[0], Matches(ls[0], rs, lk, rk)))[(l, r)] + multiset(InnerJoin(ls[1..], rs, lk, rk))[(l, r)]
  {
    var head := PairWith(ls[0], Matches(ls[0], rs, lk, rk));
    var tail := InnerJoin(ls[1..], rs, lk, rk);
    assert InnerJoin(ls, rs, lk, rk) == head + tail;
  }

  lemma ProductSplit(h: nat, a: nat, b: nat)
    ensures (h + a) * b == h * b + a * b
  {
  }

  /** Pairs `l` with each row of `ms` as a present right-hand side, in order. */
  function SomePairs<L, R>(l: L, ms: seq<R>): (out: seq<(L, Option<R>)>)
    ensures forall o :: o in out ==> o.0 == l && o.1.Some? && o.1.value in ms
    ensures forall r :: r in ms ==> (l, Some(r)) in out
  {
    if ms == [] then [] else [(l, Some(ms[0]))] + SomePairs(l, ms[1..])
  }

  /** The output rows `pd.merge(..., how='left')` produces for one left row. */
  function LeftRows<L, R>(l: L, ms: seq<R>): (out: seq<(L, Option<R>)>)
    ensures forall o :: o in out ==> o.0 == l && (if ms == [] then o.1 == None else o.1.Some? && o.1.value in ms)
    ensures ms == [] ==> (l, None) in out
    ensures forall r :: r in ms ==> (l, Some(r)) in out
  {
    if ms == [] then [(l, None)]
    else
      SomePairs(l, ms)
  }

  /**
   * `pd.merge(ls, rs, how='left', on=key)`: each left row paired with each
   * matching right row, or with `None` when it has no match; no left row is lost.
   */
  function LeftJoin<L, R, K(==)>(ls: seq<L>, rs: seq<R>, lk: L -> K, rk: R -> K): (out: seq<(L, Option<R>)>)
    ensures |out| >= |ls|
    ensures forall o :: o in out ==>
      && o.0 in ls
      && match o.1
         case Some(r) => r in rs && lk(o.0) == rk(r)
         case None => forall r :: r in rs ==> rk(r) != lk(o.0)
  {
    if ls == [] then []
    else
      var ms := Matches(ls[0], rs, lk, rk);
      MatchesMembers(ls[0], rs, lk, rk);
      FilterEmpty(rs, KeyIs(lk(ls[0]), rk));
      LeftRows(ls[0], ms) + LeftJoin(ls[1..], rs, lk, rk)
  }

  /** Every left row appears in the left join: with each of its matches, or with `None` if it has none. */
  lemma {:induction false} LeftJoinComplete<L, R, K>(ls: seq<L>, rs: seq<R>, lk: L -> K, rk: R -> K, l: L)
    requires l in ls
    ensures forall r :: r in rs && rk(r) == lk(l) ==> (l, Some(r)) in LeftJoin(ls, rs, lk, rk)
    ensures (forall r :: r in rs ==> rk(r) != lk(l)) ==> (l, None) in LeftJoin(ls, rs, lk, rk)
    ensures exists c :: (l, c) in LeftJoin(ls, rs, lk, rk)
  {
    if ls[0] == l {
      var ms := Matches(l, rs, lk, rk);
      MatchesMembers(l, rs, lk, rk);
      FilterEmpty(rs, KeyIs(lk(l), rk));
      assert LeftJoin(ls, rs, lk, rk) == LeftRows(l, ms) + LeftJoin(ls[1..], rs, lk, rk);
      if ms == [] {
        assert (l, None) in LeftRows(l, ms);
      } else {
        assert (l, Some(ms[0])) in LeftRows(l, ms);
      }
    } else {
      assert l in ls[1..] by { assert ls == [ls[0]] + ls[1..]; }
      LeftJoinComplete(ls[1..], rs, lk, rk, l);
      var c :| (l, c) in LeftJoin(ls[1..], rs, lk, rk);
      assert (l, c) in LeftJoin(ls, rs, lk, rk);
    }
  }
}
