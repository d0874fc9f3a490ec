/**
 * The rating ledger as functions on the `ratings` table: the upsert of
 * `INSERT ... ON CONFLICT (user_id, store_id) DO UPDATE`, the pair-keyed
 * `UPDATE`, the id-keyed `DELETE`, and the per-user and per-store selections
 * the aggregates are computed over.
 */
module Ledger {
  import opened Tables
  import opened Seqs
  import opened Averages

  /** `!rating || rating < 1 || rating > 5` rejects: the value must be present and on the 1..5 scale. */
  predicate AcceptedRating(rating: Option<int>) {
    rating.Some? && 1 <= rating.value <= 5
  }

  predicate SamePair(r: Rating, userId: int, storeId: int) {
    r.userId == userId && r.storeId == storeId
  }

  /** The uniqueness constraint on (user_id, store_id). */
  ghost predicate UniquePairs(rs: seq<Rating>) {
    forall i, j :: 0 <= i < j < |rs| ==> !SamePair(rs[j], rs[i].userId, rs[i].storeId)
  }

  /** Serial ids, so the table read in its order is read in id order. */
  ghost predicate IdsAscending(rs: seq<Rating>) {
    forall i, j :: 0 <= i < j < |rs| ==> rs[i].id < rs[j].id
  }

  /** `SELECT * FROM ratings WHERE user_id = $1 AND store_id = $2`, first row. */
  function FindPair(rs: seq<Rating>, userId: int, storeId: int): (r: Option<Rating>)
    ensures r.Some? ==> r.value in rs && SamePair(r.value, userId, storeId)
    ensures r.None? <==> forall i :: 0 <= i < |rs| ==> !SamePair(rs[i], userId, storeId)
  {
    if rs == [] then None
    else if SamePair(rs[0], userId, storeId) then Some(rs[0])
    else
      var r := FindPair(rs[1..], userId, storeId);
      assert forall i :: 1 <= i < |rs| ==> rs[i] == rs[1..][i - 1];
      r
  }

  /** With the uniqueness constraint, the pair lookup finds exactly the pair's row. */
  lemma FindPairUnique(rs: seq<Rating>, userId: int, storeId: int, x: Rating)
    requires UniquePairs(rs)
    ensures FindPair(rs, userId, storeId) == Some(x) <==> x in rs && SamePair(x, userId, storeId)
  {
    if x in rs && SamePair(x, userId, storeId) {
      var f := FindPair(rs, userId, storeId);
      assert f.Some?;
      var i :| 0 <= i < |rs| && rs[i] == x;
      var j :| 0 <= j < |rs| && rs[j] == f.value;
      assert i == j;
    }
  }

  /** The rows of one (user, store) pair. */
  function PairRatings(rs: seq<Rating>, userId: int, storeId: int): seq<Rating> {
    Filter(rs, r => SamePair(r, userId, storeId))
  }

  /** The rows of every other pair, in table order. */
  function OtherPairs(rs: seq<Rating>, userId: int, storeId: int): seq<Rating> {
    Filter(rs, r => !SamePair(r, userId, storeId))
  }

  /** `UPDATE ratings SET rating = $1 WHERE user_id = $2 AND store_id = $3`. */
  function SetRating(rs: seq<Rating>, userId: int, storeId: int, value: int): (r: seq<Rating>)
    ensures |r| == |rs|
    ensures forall i :: 0 <= i < |rs| ==>
              r[i] == if SamePair(rs[i], userId, storeId) then rs[i].(rating := value) else rs[i]
  {
    if rs == [] then []
    else
      var head := if SamePair(rs[0], userId, storeId) then rs[0].(rating := value) else rs[0];
      [head] + SetRating(rs[1..], userId, storeId, value)
  }

  /**
   * `INSERT INTO ratings (user_id, store_id, rating) VALUES (...) ON CONFLICT
   * (user_id, store_id) DO UPDATE SET rating = EXCLUDED.rating`: a new row
   * with the next serial id, or the pair's existing row rewritten.
   */
  function Upsert(rs: seq<Rating>, freshId: int, userId: int, storeId: int, value: int): seq<Rating> {
    if FindPair(rs, userId, storeId).Some? then SetRating(rs, userId, storeId, value)
    else rs + [Rating(freshId, userId, storeId, value)]
  }

  /** `DELETE FROM ratings WHERE id = $1`. */
  function RemoveId(rs: seq<Rating>, id: int): seq<Rating> {
    Filter(rs, (r: Rating) => r.id != id)
  }

  /** The ratings of one user (the `WHERE r.user_id = $1` selection). */
  function RatingsOfUser(rs: seq<Rating>, userId: int): seq<Rating> {
    Filter(rs, (r: Rating) => r.userId == userId)
  }

  /** The ratings of one store (the `WHERE store_id = $1` selection). */
  function RatingsOfStore(rs: seq<Rating>, storeId: int): seq<Rating> {
    Filter(rs, (r: Rating) => r.storeId == storeId)
  }

  /** The rating values, in order. */
  function Values(rs: seq<Rating>): seq<int> {
    Map(rs, (r: Rating) => r.rating)
  }

  /** `ROUND(AVG(rating)::numeric, 2) FROM ratings WHERE store_id = $1`, or 0 without rows. */
  function StoreAverage(rs: seq<Rating>, storeId: int): int {
    RoundedAverage(Values(RatingsOfStore(rs, storeId)))
  }

  /** Every stored rating is on the 1..5 scale. */
  ghost predicate ValuesInScale(rs: seq<Rating>) {
    forall i :: 0 <= i < |rs| ==> 1 <= rs[i].rating <= 5
  }

  // ----- the upsert -----

  /** After the upsert the pair has exactly one row, holding the submitted value,
      and a later lookup of the pair reads that value back. */
  lemma UpsertStoresValue(rs: seq<Rating>, freshId: int, userId: int, storeId: int, value: int)
    requires UniquePairs(rs)
    ensures var rs' := Upsert(rs, freshId, userId, storeId, value);
            && |PairRatings(rs', userId, storeId)| == 1
            && PairRatings(rs', userId, storeId)[0].rating == value
            && FindPair(rs', userId, storeId).Some?
            && FindPair(rs', userId, storeId).value.rating == value
  {
    var rs' := Upsert(rs, freshId, userId, storeId, value);
    var p := (r: Rating) => SamePair(r, userId, storeId);
    var f := FindPair(rs, userId, storeId);
    if f.Some? {
      var k :| 0 <= k < |rs| && rs[k] == f.value;
      assert forall i :: 0 <= i < |rs| && i != k ==> !p(rs'[i]);
      OnlyMatch(rs', p, k);
    } else {
      assert forall i :: 0 <= i < |rs'| - 1 ==> !p(rs'[i]);
      OnlyMatch(rs', p, |rs'| - 1);
    }
  }

  /** Only the pair's row changes: every other row, in order, is as before. */
  lemma UpsertKeepsOtherPairs(rs: seq<Rating>, freshId: int, userId: int, storeId: int, value: int)
    ensures OtherPairs(Upsert(rs, freshId, userId, storeId, value), userId, storeId)
            == OtherPairs(rs, userId, storeId)
  {
    if FindPair(rs, userId, storeId).Some? {
      SetRatingKeepsOtherPairs(rs, userId, storeId, value);
    } else {
      var p := (r: Rating) => !SamePair(r, userId, storeId);
      FilterAppendFailing(rs, Rating(freshId, userId, storeId, value), p);
    }
  }

  lemma {:induction false} SetRatingKeepsOtherPairs(rs: seq<Rating>, userId: int, storeId: int, value: int)
    ensures OtherPairs(SetRating(rs, userId, storeId, value), userId, storeId)
            == OtherPairs(rs, userId, storeId)
  {
    if rs != [] {
      var rs' := SetRating(rs, userId, storeId, value);
      assert rs'[1..] == SetRating(rs[1..], userId, storeId, value);
      SetRatingKeepsOtherPairs(rs[1..], userId, storeId, value);
    }
  }

  /** Submitting the same pair and value twice leaves the table the first submission left. */
  lemma UpsertIdempotent(rs: seq<Rating>, id1: int, id2: int, userId: int, storeId: int, value: int)
    ensures Upsert(Upsert(rs, id1, userId, storeId, value), id2, userId, storeId, value)
            == Upsert(rs, id1, userId, storeId, value)
  {
    var once := Upsert(rs, id1, userId, storeId, value);
    assert FindPair(once, userId, storeId).Some? by {
      if FindPair(rs, userId, storeId).Some? {
        var x := FindPair(rs, userId, storeId).value;
        var k :| 0 <= k < |rs| && rs[k] == x;
        assert SamePair(once[k], userId, storeId);
      } else {
        assert SamePair(once[|once| - 1], userId, storeId);
      }
    }
    var twice := SetRating(once, userId, storeId, value);
    assert twice == once;
  }

  /** The upsert keeps the uniqueness constraint, and with a fresh serial id the id order. */
  lemma UpsertKeepsInvariants(rs: seq<Rating>, freshId: int, userId: int, storeId: int, value: int)
    requires UniquePairs(rs) && IdsAscending(rs)
    requires forall i :: 0 <= i < |rs| ==> rs[i].id < freshId
    ensures UniquePairs(Upsert(rs, freshId, userId, storeId, value))
    ensures IdsAscending(Upsert(rs, freshId, userId, storeId, value))
  {
  }

  // ----- the pair-keyed update -----

  /** Updating an existing pair rewrites only that pair's value; the row keeps its id. */
  lemma SetRatingRewritesPair(rs: seq<Rating>, userId: int, storeId: int, value: int)
    requires UniquePairs(rs) && FindPair(rs, userId, storeId).Some?
    ensures var old_ := FindPair(rs, userId, storeId).value;
            PairRatings(SetRating(rs, userId, storeId, value), userId, storeId)
              == [old_.(rating := value)]
    ensures OtherPairs(SetRating(rs, userId, storeId, value), userId, storeId)
            == OtherPairs(rs, userId, storeId)
  {
    var x := FindPair(rs, userId, storeId).value;
    var k :| 0 <= k < |rs| && rs[k] == x;
    var rs' := SetRating(rs, userId, storeId, value);
    var p := (r: Rating) => SamePair(r, userId, storeId);
    assert forall i :: 0 <= i < |rs| && i != k ==> !p(rs'[i]);
    OnlyMatch(rs', p, k);
    SetRatingKeepsOtherPairs(rs, userId, storeId, value);
  }

  lemma SetRatingKeepsInvariants(rs: seq<Rating>, userId: int, storeId: int, value: int)
    requires UniquePairs(rs) && IdsAscending(rs)
    ensures UniquePairs(SetRating(rs, userId, storeId, value))
    ensures IdsAscending(SetRating(rs, userId, storeId, value))
  {
  }

  // ----- the id-keyed delete -----

  /** After the delete no row has the id, and every other row remains, in order;
      with unique ids exactly one row goes. */
  lemma RemoveIdEffect(rs: seq<Rating>, id: int)
    requires IdsAscending(rs)
    ensures forall r :: r in RemoveId(rs, id) ==> r.id != id
    ensures forall r :: r in rs && r.id != id ==> r in RemoveId(rs, id)
    ensures Subsequence(RemoveId(rs, id), rs)
    ensures (exists k :: 0 <= k < |rs| && rs[k].id == id) ==> |RemoveId(rs, id)| == |rs| - 1
  {
    FilterIsSubsequence(rs, (r: Rating) => r.id != id);
    if exists k :: 0 <= k < |rs| && rs[k].id == id {
      var k :| 0 <= k < |rs| && rs[k].id == id;
      FilterDropsOne(rs, (r: Rating) => r.id != id, k);
    }
  }

  lemma RemoveIdKeepsInvariants(rs: seq<Rating>, id: int)
    requires UniquePairs(rs) && IdsAscending(rs)
    ensures UniquePairs(RemoveId(rs, id)) && IdsAscending(RemoveId(rs, id))
  {
    var p := (r: Rating) => r.id != id;
    FilterKeepsPairwise(rs, p, (a: Rating, b: Rating) => !SamePair(b, a.userId, a.storeId));
    FilterKeepsPairwise(rs, p, (a: Rating, b: Rating) => a.id < b.id);
  }

  // ----- aggregates -----

  /** A store's average lies in 1.00..5.00 when it has ratings, and is 0 without. */
  lemma StoreAverageRange(rs: seq<Rating>, storeId: int)
    requires ValuesInScale(rs)
    ensures RatingsOfStore(rs, storeId) == [] ==> StoreAverage(rs, storeId) == 0
    ensures RatingsOfStore(rs, storeId) != [] ==> 100 <= StoreAverage(rs, storeId) <= 500
  {
    var sel := RatingsOfStore(rs, storeId);
    forall i | 0 <= i < |sel| ensures 1 <= sel[i].rating <= 5 {
      assert sel[i] in rs;
    }
    if sel != [] {
      RoundedAverageInScale(Values(sel));
    }
  }

  /** A new pair adds one row to its store's ratings and none to any other store's. */
  lemma UpsertNewPairCounts(rs: seq<Rating>, freshId: int, userId: int, storeId: int, value: int,
                            other: int)
    requires FindPair(rs, userId, storeId).None?
    ensures RatingsOfStore(Upsert(rs, freshId, userId, storeId, value), storeId)
            == RatingsOfStore(rs, storeId) + [Rating(freshId, userId, storeId, value)]
    ensures other != storeId ==>
              RatingsOfStore(Upsert(rs, freshId, userId, storeId, value), other)
              == RatingsOfStore(rs, other)
  {
    var x := Rating(freshId, userId, storeId, value);
    FilterAppendPassing(rs, x, (r: Rating) => r.storeId == storeId);
    if other != storeId {
      FilterAppendFailing(rs, x, (r: Rating) => r.storeId == other);
    }
  }

}
