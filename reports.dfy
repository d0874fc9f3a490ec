/**
 * The read-only handlers over the three tables: a user's own ratings, the
 * ratings report of one store (for anyone, and for its owner), the list of
 * every rating, the store list with averages, the user list with owners'
 * averages, the admin dashboard and the list of store owners. Inner joins
 * on a primary key are lookups of the one matching row; a row whose key
 * matches nothing drops out, as in the join.
 */
module Reports {
  import opened Tables
  import opened Seqs
  import opened Averages
  import opened Ledger
  import opened Accounts

  /** Every rating names an existing store / an existing user (the foreign keys). */
  ghost predicate StoresReferenced(rs: seq<Rating>, stores: seq<Store>) {
    forall i :: 0 <= i < |rs| ==> HasStore(stores, rs[i].storeId)
  }

  ghost predicate UsersReferenced(rs: seq<Rating>, users: seq<User>) {
    forall i :: 0 <= i < |rs| ==> HasUser(users, rs[i].userId)
  }

  // ----- getMyRatingsController -----

  /** `SELECT r.id, r.rating, s.name AS store_name`. */
  datatype MyRatingRow = MyRatingRow(id: int, rating: int, storeName: string)

  /** `FROM ratings r JOIN stores s ON r.store_id = s.id`. */
  function MyRatingRows(rs: seq<Rating>, stores: seq<Store>): (rows: seq<MyRatingRow>)
    ensures |rows| <= |rs|
    ensures StoresReferenced(rs, stores) ==>
              |rows| == |rs|
              && forall i :: 0 <= i < |rs| ==>
                   && rows[i].id == rs[i].id && rows[i].rating == rs[i].rating
                   && rows[i].storeName == FindStore(stores, rs[i].storeId).value.name
  {
    if rs == [] then []
    else
      var rest := MyRatingRows(rs[1..], stores);
      assert StoresReferenced(rs, stores) ==> StoresReferenced(rs[1..], stores) by {
        if StoresReferenced(rs, stores) {
          forall i | 0 <= i < |rs[1..]| ensures HasStore(stores, rs[1..][i].storeId) {
            assert rs[1..][i] == rs[i + 1];
          }
        }
      }
      match FindStore(stores, rs[0].storeId)
      case None => rest
      case Some(s) => [MyRatingRow(rs[0].id, rs[0].rating, s.name)] + rest
  }

  /** `getMyRatingsController`: users only; the rows of the caller's own ratings. */
  function GetMyRatings(db: Db, caller: Caller): (r: Reply<seq<MyRatingRow>>)
    ensures r.Denied? <==> caller.role != UserRole
    ensures r.Denied? ==> r.status == Forbidden
    ensures r.Answer? ==> |r.body| <= |RatingsOfUser(db.ratings, caller.id)|
  {
    if caller.role != UserRole then Denied(Forbidden)
    else Answer(MyRatingRows(RatingsOfUser(db.ratings, caller.id), db.stores))
  }

  /**
   * With every store referenced, a user's list is exactly the user's ratings:
   * one row per rating whose user_id is the caller, in table order, with that
   * rating's id, value and store name, and no row for anyone else's rating.
   */
  lemma GetMyRatingsExact(db: Db, caller: Caller)
    requires caller.role == UserRole && StoresReferenced(db.ratings, db.stores)
    ensures var mine := RatingsOfUser(db.ratings, caller.id);
            var rows := GetMyRatings(db, caller).body;
            && |rows| == |mine|
            && (forall i :: 0 <= i < |mine| ==>
                  mine[i].userId == caller.id && rows[i].id == mine[i].id
                  && rows[i].rating == mine[i].rating
                  && FindStore(db.stores, mine[i].storeId).Some?
                  && rows[i].storeName == FindStore(db.stores, mine[i].storeId).value.name)
            && (forall x :: x in db.ratings && x.userId == caller.id ==> x in mine)
  {
    var mine := RatingsOfUser(db.ratings, caller.id);
    forall i | 0 <= i < |mine| ensures HasStore(db.stores, mine[i].storeId) {
      assert mine[i] in db.ratings;
    }
    forall i | 0 <= i < |mine| ensures mine[i].userId == caller.id {
      assert mine[i] in mine;
    }
  }

  // ----- getStoresRatingsController and getMyStoreRatingsController -----

  /** `SELECT r.id, r.rating, u.id AS user_id, u.name AS user_name, u.email AS user_email`. */
  datatype RaterRow = RaterRow(id: int, rating: int, userId: int, userName: string, userEmail: string)

  /** `FROM ratings r JOIN users u ON u.id = r.user_id`. */
  function RaterRows(rs: seq<Rating>, users: seq<User>): (rows: seq<RaterRow>)
    ensures |rows| <= |rs|
    ensures UsersReferenced(rs, users) ==>
              |rows| == |rs|
              && forall i :: 0 <= i < |rs| ==>
                   && rows[i].id == rs[i].id && rows[i].rating == rs[i].rating
                   && rows[i].userId == rs[i].userId
                   && rows[i].userName == FindUser(users, rs[i].userId).value.name
                   && rows[i].userEmail == FindUser(users, rs[i].userId).value.email
  {
    if rs == [] then []
    else
      var rest := RaterRows(rs[1..], users);
      assert UsersReferenced(rs, users) ==> UsersReferenced(rs[1..], users) by {
        if UsersReferenced(rs, users) {
          forall i | 0 <= i < |rs[1..]| ensures HasUser(users, rs[1..][i].userId) {
            assert rs[1..][i] == rs[i + 1];
          }
        }
      }
      match FindUser(users, rs[0].userId)
      case None => rest
      case Some(u) => [RaterRow(rs[0].id, rs[0].rating, u.id, u.name, u.email)] + rest
  }

  /** The body of `getStoresRatingsController`. */
  datatype StoreReport = StoreReport(store: Store, averageRating: int, totalRatings: int,
                                     ratings: seq<RaterRow>)

  /**
   * `getStoresRatingsController`: 404 for an unknown store; 403 for an owner
   * the store's owner_id does not name (a null owner_id included); otherwise
   * the store row, the rounded average (0 without ratings), the number of
   * rows and the rows.
   */
  function StoreRatings(db: Db, caller: Caller, storeId: int): (r: Reply<StoreReport>)
    ensures r == Denied(NotFound) <==> !HasStore(db.stores, storeId)
    ensures r == Denied(Forbidden) <==>
              HasStore(db.stores, storeId) && caller.role == OwnerRole
              && FindStore(db.stores, storeId).value.ownerId != Some(caller.id)
    ensures r.Denied? ==> r.status == NotFound || r.status == Forbidden
    ensures r.Answer? ==>
              && r.body.store in db.stores && r.body.store.id == storeId
              && r.body.averageRating == StoreAverage(db.ratings, storeId)
              && r.body.totalRatings == |r.body.ratings| <= |RatingsOfStore(db.ratings, storeId)|
  {
    match FindStore(db.stores, storeId)
    case None => Denied(NotFound)
    case Some(store) =>
      if caller.role == OwnerRole && store.ownerId != Some(caller.id) then Denied(Forbidden)
      else
        var rows := RaterRows(RatingsOfStore(db.ratings, storeId), db.users);
        Answer(StoreReport(store, StoreAverage(db.ratings, storeId), |rows|, rows))
  }

  /**
   * With every rater referenced, the report counts exactly the ratings with
   * that store_id, and its average is 0 iff there are none, else 1.00..5.00.
   */
  lemma StoreRatingsTotals(db: Db, caller: Caller, storeId: int)
    requires StoreRatings(db, caller, storeId).Answer?
    requires UsersReferenced(db.ratings, db.users) && ValuesInScale(db.ratings)
    ensures var body := StoreRatings(db, caller, storeId).body;
            && body.totalRatings == |RatingsOfStore(db.ratings, storeId)|
            && (body.totalRatings == 0 <==> body.averageRating == 0)
            && (body.totalRatings > 0 ==> 100 <= body.averageRating <= 500)
  {
    var sel := RatingsOfStore(db.ratings, storeId);
    forall i | 0 <= i < |sel| ensures HasUser(db.users, sel[i].userId) {
      assert sel[i] in db.ratings;
    }
    StoreAverageRange(db.ratings, storeId);
  }

  /** The stores whose owner_id is this user (`SELECT * FROM stores WHERE owner_id = $1`). */
  function OwnedStores(stores: seq<Store>, ownerId: int): seq<Store> {
    Filter(stores, (s: Store) => s.ownerId == Some(ownerId))
  }

  /** `store: {id, name, address, email}`: the store without its owner_id. */
  datatype StoreView = StoreView(id: int, name: string, email: string, address: string)

  function StoreViewOf(s: Store): StoreView {
    StoreView(s.id, s.name, s.email, s.address)
  }

  datatype OwnerReport = OwnerReport(store: StoreView, averageRating: int, totalRatings: int,
                                     ratings: seq<RaterRow>)

  /**
   * `getMyStoreRatingsController`: owners only; 404 when the caller owns no
   * store; otherwise the report of the first store it owns.
   */
  function MyStoreRatings(db: Db, caller: Caller): (r: Reply<OwnerReport>)
    ensures r == Denied(Forbidden) <==> caller.role != OwnerRole
    ensures r == Denied(NotFound) <==>
              caller.role == OwnerRole
              && forall s :: s in db.stores ==> s.ownerId != Some(caller.id)
    ensures r.Denied? ==> r.status == Forbidden || r.status == NotFound
    ensures r.Answer? ==>
              var s := OwnedStores(db.stores, caller.id)[0];
              && s in db.stores && s.ownerId == Some(caller.id)
              && r.body.store == StoreViewOf(s)
              && r.body.averageRating == StoreAverage(db.ratings, s.id)
              && r.body.totalRatings == |r.body.ratings| <= |RatingsOfStore(db.ratings, s.id)|
  {
    if caller.role != OwnerRole then Denied(Forbidden)
    else
      var owned := OwnedStores(db.stores, caller.id);
      if owned == [] then Denied(NotFound)
      else
        assert owned[0] in owned;
        var s := owned[0];
        var rows := RaterRows(RatingsOfStore(db.ratings, s.id), db.users);
        Answer(OwnerReport(StoreViewOf(s), StoreAverage(db.ratings, s.id), |rows|, rows))
  }

  /**
   * An owner's own report is the general report of the first store it owns,
   * less the owner_id: same average, same count, same rows.
   */
  lemma MyStoreIsStoreReport(db: Db, caller: Caller)
    requires forall i, j :: 0 <= i < j < |db.stores| ==> db.stores[i].id != db.stores[j].id
    requires MyStoreRatings(db, caller).Answer?
    ensures var s := OwnedStores(db.stores, caller.id)[0];
            var mine := MyStoreRatings(db, caller).body;
            && StoreRatings(db, caller, s.id).Answer?
            && mine.averageRating == StoreRatings(db, caller, s.id).body.averageRating
            && mine.totalRatings == StoreRatings(db, caller, s.id).body.totalRatings
            && mine.ratings == StoreRatings(db, caller, s.id).body.ratings
  {
    var owned := OwnedStores(db.stores, caller.id);
    var s := owned[0];
    assert s in owned;
    var k :| 0 <= k < |db.stores| && db.stores[k] == s;
    var found := FindStore(db.stores, s.id).value;
    var m :| 0 <= m < |db.stores| && db.stores[m] == found;
    assert m == k;
    assert found == s;
  }

  /**
   * Only the first store is reported: the store before any other owned by
   * the caller in table (id) order.
   */
  lemma MyStoreIsFirstOwned(db: Db, caller: Caller, k: int)
    requires MyStoreRatings(db, caller).Answer?
    requires 0 <= k < |db.stores| && db.stores[k].ownerId == Some(caller.id)
    requires forall i :: 0 <= i < k ==> db.stores[i].ownerId != Some(caller.id)
    ensures MyStoreRatings(db, caller).body.store == StoreViewOf(db.stores[k])
  {
    FirstOwned(db.stores, caller.id, k);
  }

  lemma {:induction false} FirstOwned(stores: seq<Store>, ownerId: int, k: int)
    requires 0 <= k < |stores| && stores[k].ownerId == Some(ownerId)
    requires forall i :: 0 <= i < k ==> stores[i].ownerId != Some(ownerId)
    ensures OwnedStores(stores, ownerId) != [] && OwnedStores(stores, ownerId)[0] == stores[k]
  {
    if k > 0 {
      FirstOwned(stores[1..], ownerId, k - 1);
    }
  }

  // ----- getRatingsController -----

  datatype RatingRow = RatingRow(id: int, rating: int, userId: int, userName: string,
                                 storeId: int, storeName: string)

  /** The ratings that `JOIN users u ON r.user_id = u.id JOIN stores s ON r.store_id = s.id` keeps. */
  function Joined(rs: seq<Rating>, users: seq<User>, stores: seq<Store>): seq<Rating> {
    Filter(rs, (r: Rating) => HasUser(users, r.userId) && HasStore(stores, r.storeId))
  }

  /** The joined rows, each with its user's name and its store's name. */
  function RatingRows(rs: seq<Rating>, users: seq<User>, stores: seq<Store>): (rows: seq<RatingRow>)
    ensures var j := Joined(rs, users, stores);
            && |rows| == |j|
            && forall i :: 0 <= i < |j| ==>
                 && rows[i].id == j[i].id && rows[i].rating == j[i].rating
                 && rows[i].userId == j[i].userId && rows[i].storeId == j[i].storeId
                 && FindUser(users, j[i].userId).Some? && FindStore(stores, j[i].storeId).Some?
                 && rows[i].userName == FindUser(users, j[i].userId).value.name
                 && rows[i].storeName == FindStore(stores, j[i].storeId).value.name
  {
    var j := Joined(rs, users, stores);
    assert forall i :: 0 <= i < |j| ==> HasUser(users, j[i].userId) && HasStore(stores, j[i].storeId) by {
      forall i | 0 <= i < |j| ensures HasUser(users, j[i].userId) && HasStore(stores, j[i].storeId) {
        assert j[i] in j;
      }
    }
    seq(|j|, i requires 0 <= i < |j| =>
      RatingRow(j[i].id, j[i].rating, j[i].userId, FindUser(users, j[i].userId).value.name,
                j[i].storeId, FindStore(stores, j[i].storeId).value.name))
  }

  /** `getRatingsController`: every rating, newest first (`ORDER BY r.id DESC`), joined. */
  function AllRatings(db: Db): (rows: seq<RatingRow>)
    ensures |rows| <= |db.ratings|
  {
    RatingRows(Reverse(db.ratings), db.users, db.stores)
  }

  /** The rows come in strictly decreasing id order, as `ORDER BY r.id DESC` promises. */
  lemma AllRatingsDescending(db: Db)
    requires IdsAscending(db.ratings)
    ensures var rows := AllRatings(db);
            forall i, j :: 0 <= i < j < |rows| ==> rows[i].id > rows[j].id
  {
    var rev := Reverse(db.ratings);
    var rel := (a: Rating, b: Rating) => a.id > b.id;
    forall i, j | 0 <= i < j < |rev| ensures rel(rev[i], rev[j]) {
      assert rev[i] == db.ratings[|db.ratings| - 1 - i];
      assert rev[j] == db.ratings[|db.ratings| - 1 - j];
    }
    FilterKeepsPairwise(rev, (r: Rating) => HasUser(db.users, r.userId) && HasStore(db.stores, r.storeId), rel);
  }

  /** With both foreign keys holding, every rating is listed, the newest first. */
  lemma AllRatingsComplete(db: Db)
    requires StoresReferenced(db.ratings, db.stores) && UsersReferenced(db.ratings, db.users)
    ensures |AllRatings(db)| == |db.ratings|
    ensures forall i :: 0 <= i < |db.ratings| ==>
              AllRatings(db)[i].id == db.ratings[|db.ratings| - 1 - i].id
  {
    var rev := Reverse(db.ratings);
    ReferencedReversed(db.ratings, db.users, db.stores);
    JoinedKeepsAll(rev, db.users, db.stores);
    var rows := AllRatings(db);
    forall i | 0 <= i < |db.ratings| ensures rows[i].id == db.ratings[|db.ratings| - 1 - i].id {
      assert rows[i].id == rev[i].id;
    }
  }

  /** The foreign keys hold of the reversed table when they hold of the table. */
  lemma ReferencedReversed(rs: seq<Rating>, users: seq<User>, stores: seq<Store>)
    requires StoresReferenced(rs, stores) && UsersReferenced(rs, users)
    ensures StoresReferenced(Reverse(rs), stores) && UsersReferenced(Reverse(rs), users)
  {
    var rev := Reverse(rs);
    forall i | 0 <= i < |rev| ensures HasStore(stores, rev[i].storeId) && HasUser(users, rev[i].userId) {
      assert rev[i] == rs[|rs| - 1 - i];
    }
  }

  /** With both foreign keys holding, the joins drop no rating. */
  lemma JoinedKeepsAll(rs: seq<Rating>, users: seq<User>, stores: seq<Store>)
    requires StoresReferenced(rs, stores) && UsersReferenced(rs, users)
    ensures Joined(rs, users, stores) == rs
  {
    FilterAll(rs, (r: Rating) => HasUser(users, r.userId) && HasStore(stores, r.storeId));
  }

  // ----- getStoresController (admin and public) -----

  /** `SELECT s.id, s.name, s.email, s.address, ... AS rating`, in hundredths. */
  datatype RatedStore = RatedStore(id: int, name: string, email: string, address: string, rating: int)

  /**
   * `FROM stores s LEFT JOIN ratings r ON s.id = r.store_id GROUP BY s.id ...
   * ORDER BY s.id`, with `average_rating || 0`: one row per store.
   */
  function StoresWithAverages(stores: seq<Store>, ratings: seq<Rating>): (rows: seq<RatedStore>)
    ensures |rows| == |stores|
    ensures forall i :: 0 <= i < |stores| ==>
              && rows[i].id == stores[i].id && rows[i].name == stores[i].name
              && rows[i].email == stores[i].email && rows[i].address == stores[i].address
              && rows[i].rating == StoreAverage(ratings, stores[i].id)
  {
    seq(|stores|, i requires 0 <= i < |stores| =>
      RatedStore(stores[i].id, stores[i].name, stores[i].email, stores[i].address,
                 StoreAverage(ratings, stores[i].id)))
  }

  /**
   * Every store is listed exactly once, in id order, and its rating is 0
   * when no rating names it and 1.00..5.00 otherwise.
   */
  lemma StoresListedOnce(stores: seq<Store>, ratings: seq<Rating>)
    requires forall i, j :: 0 <= i < j < |stores| ==> stores[i].id < stores[j].id
    requires ValuesInScale(ratings)
    ensures var rows := StoresWithAverages(stores, ratings);
            && (forall i, j :: 0 <= i < j < |rows| ==> rows[i].id < rows[j].id)
            && (forall s :: s in stores ==> exists i :: 0 <= i < |rows| && rows[i].id == s.id)
            && (forall i :: 0 <= i < |rows| ==>
                  && (RatingsOfStore(ratings, rows[i].id) == [] ==> rows[i].rating == 0)
                  && (RatingsOfStore(ratings, rows[i].id) != [] ==> 100 <= rows[i].rating <= 500))
  {
    var rows := StoresWithAverages(stores, ratings);
    forall s | s in stores ensures exists i :: 0 <= i < |rows| && rows[i].id == s.id {
      var i :| 0 <= i < |stores| && stores[i] == s;
      assert rows[i].id == s.id;
    }
    forall i | 0 <= i < |rows|
      ensures RatingsOfStore(ratings, rows[i].id) == [] ==> rows[i].rating == 0
      ensures RatingsOfStore(ratings, rows[i].id) != [] ==> 100 <= rows[i].rating <= 500
    {
      StoreAverageRange(ratings, rows[i].id);
    }
  }

  /** The admin `getStoresController`: admins only. */
  function AdminStores(db: Db, caller: Caller): (r: Reply<seq<RatedStore>>)
    ensures r.Denied? <==> caller.role != AdminRole
    ensures r.Denied? ==> r.status == Forbidden
    ensures r.Answer? ==> |r.body| == |db.stores|
  {
    if caller.role != AdminRole then Denied(Forbidden)
    else Answer(StoresWithAverages(db.stores, db.ratings))
  }

  /** The public `getStoresController`: no role check, the same list. */
  function PublicStores(db: Db): (rows: seq<RatedStore>)
    ensures |rows| == |db.stores|
  {
    StoresWithAverages(db.stores, db.ratings)
  }

  /** Any caller gets the public list; an admin gets the same list from the
      admin handler, and every other role 403. */
  lemma PublicStoresUngated(db: Db, caller: Caller)
    ensures AdminStores(db, caller) == if caller.role == AdminRole then Answer(PublicStores(db))
                                       else Denied(Forbidden)
  {
  }

  // ----- getUsersController (admin and stores controllers) -----

  /** Rating r joins a store with its id whose owner_id is the owner. */
  predicate OwnedBy(stores: seq<Store>, ownerId: int, r: Rating) {
    exists i :: 0 <= i < |stores| && stores[i].id == r.storeId && stores[i].ownerId == Some(ownerId)
  }

  /** `FROM ratings r JOIN stores s ON s.id = r.store_id WHERE s.owner_id = $1`. */
  function OwnerRatings(ratings: seq<Rating>, stores: seq<Store>, ownerId: int): seq<Rating> {
    Filter(ratings, (r: Rating) => OwnedBy(stores, ownerId, r))
  }

  /** `ROUND(AVG(r.rating)::numeric, 2) ... || 0` over all stores the owner owns. */
  function OwnerAverage(ratings: seq<Rating>, stores: seq<Store>, ownerId: int): (h: int)
    ensures OwnerRatings(ratings, stores, ownerId) == [] ==> h == 0
  {
    RoundedAverage(Values(OwnerRatings(ratings, stores, ownerId)))
  }

  /** An owner's average is 0 without ratings and 1.00..5.00 with some. */
  lemma OwnerAverageRange(ratings: seq<Rating>, stores: seq<Store>, ownerId: int)
    requires ValuesInScale(ratings)
    ensures OwnerRatings(ratings, stores, ownerId) != [] ==>
              100 <= OwnerAverage(ratings, stores, ownerId) <= 500
  {
    var sel := OwnerRatings(ratings, stores, ownerId);
    forall i | 0 <= i < |sel| ensures 1 <= sel[i].rating <= 5 {
      assert sel[i] in ratings;
    }
    if sel != [] {
      RoundedAverageInScale(Values(sel));
    }
  }

  /**
   * With store ids unique, the average of an owner of exactly one store is
   * that store's average.
   */
  lemma OwnerOfOneStore(ratings: seq<Rating>, stores: seq<Store>, ownerId: int, k: int)
    requires forall i, j :: 0 <= i < j < |stores| ==> stores[i].id != stores[j].id
    requires 0 <= k < |stores| && stores[k].ownerId == Some(ownerId)
    requires forall i :: 0 <= i < |stores| && i != k ==> stores[i].ownerId != Some(ownerId)
    ensures OwnerAverage(ratings, stores, ownerId) == StoreAverage(ratings, stores[k].id)
  {
    var p := (r: Rating) => OwnedBy(stores, ownerId, r);
    var q := (r: Rating) => r.storeId == stores[k].id;
    forall i | 0 <= i < |ratings| ensures p(ratings[i]) == q(ratings[i]) {
      if p(ratings[i]) {
        var j :| 0 <= j < |stores| && stores[j].id == ratings[i].storeId
                 && stores[j].ownerId == Some(ownerId);
        assert j == k;
      }
    }
    FilterExt(ratings, p, q);
  }

  /** A user without the password, plus `average_rating` for owners only. */
  datatype ListedUser = ListedUser(user: UserView, averageRating: Option<int>)

  function ListUsers(db: Db): (rows: seq<ListedUser>)
    ensures |rows| == |db.users|
    ensures forall i :: 0 <= i < |db.users| ==>
              && rows[i].user == View(db.users[i])
              && (rows[i].averageRating.Some? <==> db.users[i].role == OwnerRole)
              && (db.users[i].role == OwnerRole ==>
                    rows[i].averageRating.value == OwnerAverage(db.ratings, db.stores, db.users[i].id))
  {
    seq(|db.users|, i requires 0 <= i < |db.users| =>
      var u := db.users[i];
      ListedUser(View(u),
                 if u.role == OwnerRole then Some(OwnerAverage(db.ratings, db.stores, u.id)) else None))
  }

  /** Both `getUsersController`s: admins only, then every user in table order. */
  function GetUsers(db: Db, caller: Caller): (r: Reply<seq<ListedUser>>)
    ensures r.Denied? <==> caller.role != AdminRole
    ensures r.Denied? ==> r.status == Forbidden
    ensures r.Answer? ==> |r.body| == |db.users|
  {
    if caller.role != AdminRole then Denied(Forbidden) else Answer(ListUsers(db))
  }

  /** Users other than owners are listed unchanged; owners' averages lie in the scale. */
  lemma ListUsersAverages(db: Db, i: int)
    requires 0 <= i < |db.users| && ValuesInScale(db.ratings)
    ensures var row := ListUsers(db)[i];
            && (db.users[i].role != OwnerRole ==> row == ListedUser(View(db.users[i]), None))
            && (db.users[i].role == OwnerRole ==>
                  (OwnerRatings(db.ratings, db.stores, db.users[i].id) == [] ==> row.averageRating == Some(0))
                  && (OwnerRatings(db.ratings, db.stores, db.users[i].id) != [] ==>
                        100 <= row.averageRating.value <= 500))
  {
    OwnerAverageRange(db.ratings, db.stores, db.users[i].id);
  }

  // ----- getDashboardData and getStoreOwnersController -----

  datatype Stats = Stats(totalUsers: int, totalStores: int, totalRatings: int)

  datatype Dashboard = Dashboard(stats: Stats, users: seq<UserView>, stores: seq<StoreView>)

  /** `getDashboardData`: admins only; the three table sizes and the two tables. */
  function DashboardData(db: Db, caller: Caller): (r: Reply<Dashboard>)
    ensures r.Denied? <==> caller.role != AdminRole
    ensures r.Denied? ==> r.status == Forbidden
    ensures r.Answer? ==>
              && r.body.stats == Stats(|db.users|, |db.stores|, |db.ratings|)
              && |r.body.users| == |db.users| && |r.body.stores| == |db.stores|
              && (forall i :: 0 <= i < |db.users| ==> r.body.users[i] == View(db.users[i]))
              && (forall i :: 0 <= i < |db.stores| ==> r.body.stores[i] == StoreViewOf(db.stores[i]))
  {
    if caller.role != AdminRole then Denied(Forbidden)
    else
      var users := seq(|db.users|, i requires 0 <= i < |db.users| => View(db.users[i]));
      var stores := seq(|db.stores|, i requires 0 <= i < |db.stores| => StoreViewOf(db.stores[i]));
      Answer(Dashboard(Stats(|db.users|, |db.stores|, |db.ratings|), users, stores))
  }

  /** `SELECT id, name FROM users WHERE role = 'owner' ORDER BY id`. */
  datatype OwnerRow = OwnerRow(id: int, name: string)

  /** The owners of the users table, in table order (`WHERE role = 'owner'`). */
  function Owners(users: seq<User>): seq<User> {
    Filter(users, (u: User) => u.role == OwnerRole)
  }

  /** `SELECT id, name` of the owners: one row per owner, in table order. */
  function OwnerRows(users: seq<User>): (rows: seq<OwnerRow>)
    ensures |rows| == |Owners(users)|
    ensures forall i :: 0 <= i < |rows| ==>
              rows[i] == OwnerRow(Owners(users)[i].id, Owners(users)[i].name)
    ensures forall u :: u in users && u.role == OwnerRole ==> OwnerRow(u.id, u.name) in rows
    ensures forall i :: 0 <= i < |rows| ==> IsOwnerId(users, rows[i].id)
  {
    var f := Owners(users);
    var rows := Map(f, (u: User) => OwnerRow(u.id, u.name));
    forall u | u in users && u.role == OwnerRole ensures OwnerRow(u.id, u.name) in rows {
      var k :| 0 <= k < |f| && f[k] == u;
      assert rows[k] == OwnerRow(u.id, u.name);
    }
    forall i | 0 <= i < |rows| ensures IsOwnerId(users, rows[i].id) {
      assert f[i] in f;
      var k :| 0 <= k < |users| && users[k] == f[i];
    }
    rows
  }

  /**
   * With ids ascending in the table (`ORDER BY id`), the owner rows come in
   * strictly ascending id order, so each owner is listed exactly once.
   */
  lemma OwnerRowsAscending(users: seq<User>)
    requires forall i, j :: 0 <= i < j < |users| ==> users[i].id < users[j].id
    ensures var rows := OwnerRows(users);
            forall i, j :: 0 <= i < j < |rows| ==> rows[i].id < rows[j].id
  {
    var rel := (a: User, b: User) => a.id < b.id;
    FilterKeepsPairwise(users, (u: User) => u.role == OwnerRole, rel);
  }

  /** `getStoreOwnersController`: admins only; the id and name of every owner. */
  function StoreOwners(db: Db, caller: Caller): (r: Reply<seq<OwnerRow>>)
    ensures r.Denied? <==> caller.role != AdminRole
    ensures r.Denied? ==> r.status == Forbidden
    ensures r.Answer? ==> r.body == OwnerRows(db.users)
  {
    if caller.role != AdminRole then Denied(Forbidden) else Answer(OwnerRows(db.users))
  }
}
