/**
 * The admin dashboard's derived lists: the dashboard's stores enriched with
 * the client-side mean of the fetched ratings, and the two name searches.
 */
module AdminDashboard {
  import opened Seqs
  import opened Text
  import opened Averages
  import Accounts
  import Reports

  /** `average_rating`: the string "No ratings", or the mean before `toFixed(1)`. */
  datatype AverageLabel = NoRatings | MeanOf(value: real)

  /** `{ ...store, average_rating }`. */
  datatype AdminStore = AdminStore(store: Reports.StoreView, averageRating: AverageLabel)

  /** The rating values, in order. */
  function RowValues(rs: seq<Reports.RatingRow>): seq<int> {
    Map(rs, (r: Reports.RatingRow) => r.rating)
  }

  /** `ratings.filter(r => r.store_id === store.id)`. */
  function RowsOfStore(rs: seq<Reports.RatingRow>, storeId: int): seq<Reports.RatingRow> {
    Filter(rs, (r: Reports.RatingRow) => r.storeId == storeId)
  }

  function Label(rs: seq<Reports.RatingRow>, storeId: int): (l: AverageLabel)
    ensures l == NoRatings <==> forall r :: r in rs ==> r.storeId != storeId
    ensures l.MeanOf? ==>
              l.value * |RowsOfStore(rs, storeId)| as real == Sum(RowValues(RowsOfStore(rs, storeId))) as real
  {
    var mine := RowsOfStore(rs, storeId);
    if |mine| > 0 then
      assert mine[0] in mine;
      MeanOf(Mean(RowValues(mine)))
    else
      assert forall r :: r in rs ==> r.storeId != storeId;
      NoRatings
  }

  /** `enrichStoresWithRatings`: the same stores in the same order, each with its label. */
  function EnrichStoresWithRatings(stores: seq<Reports.StoreView>, rs: seq<Reports.RatingRow>)
    : (es: seq<AdminStore>)
    ensures |es| == |stores|
    ensures forall i :: 0 <= i < |stores| ==>
              es[i].store == stores[i] && es[i].averageRating == Label(rs, stores[i].id)
  {
    seq(|stores|, i requires 0 <= i < |stores| => AdminStore(stores[i], Label(rs, stores[i].id)))
  }

  /** With every fetched rating on the 1..5 scale, a store's mean lies between 1 and 5. */
  lemma LabelInScale(rs: seq<Reports.RatingRow>, storeId: int)
    requires forall i :: 0 <= i < |rs| ==> 1 <= rs[i].rating <= 5
    ensures Label(rs, storeId).MeanOf? ==> 1.0 <= Label(rs, storeId).value <= 5.0
  {
    var mine := RowsOfStore(rs, storeId);
    forall i | 0 <= i < |mine| ensures 1 <= mine[i].rating <= 5 {
      assert mine[i] in rs;
    }
    if |mine| > 0 {
      MeanInScale(RowValues(mine));
    }
  }

  /** `users.filter(user => user.name.toLowerCase().includes(searchUser.toLowerCase()))`. */
  function FilteredUsers(users: seq<Accounts.UserView>, search: string): seq<Accounts.UserView> {
    Filter(users, (u: Accounts.UserView) => Includes(Lower(u.name), Lower(search)))
  }

  /** `stores.filter(store => store.name.toLowerCase().includes(searchStore.toLowerCase()))`. */
  function FilteredStores(stores: seq<AdminStore>, search: string): seq<AdminStore> {
    Filter(stores, (s: AdminStore) => Includes(Lower(s.store.name), Lower(search)))
  }

  /**
   * A user is kept iff the lower-cased search occurs in the lower-cased name;
   * order is kept; an empty search keeps every user.
   */
  lemma FilteredUsersFacts(users: seq<Accounts.UserView>, search: string)
    ensures forall u :: u in FilteredUsers(users, search) <==>
              u in users && Occurs(Lower(u.name), Lower(search))
    ensures Subsequence(FilteredUsers(users, search), users)
    ensures search == "" ==> FilteredUsers(users, search) == users
  {
    var p := (u: Accounts.UserView) => Includes(Lower(u.name), Lower(search));
    forall u | u in users ensures p(u) <==> Occurs(Lower(u.name), Lower(search)) {
      IncludesIffOccurs(Lower(u.name), Lower(search));
    }
    FilterIsSubsequence(users, p);
    if search == "" {
      forall i | 0 <= i < |users| ensures p(users[i]) {
        IncludesEmpty(Lower(users[i].name));
      }
      FilterAll(users, p);
    }
  }

  /** The same for stores, on the store name only. */
  lemma FilteredStoresFacts(stores: seq<AdminStore>, search: string)
    ensures forall s :: s in FilteredStores(stores, search) <==>
              s in stores && Occurs(Lower(s.store.name), Lower(search))
    ensures Subsequence(FilteredStores(stores, search), stores)
    ensures search == "" ==> FilteredStores(stores, search) == stores
  {
    var p := (s: AdminStore) => Includes(Lower(s.store.name), Lower(search));
    forall s | s in stores ensures p(s) <==> Occurs(Lower(s.store.name), Lower(search)) {
      IncludesIffOccurs(Lower(s.store.name), Lower(search));
    }
    FilterIsSubsequence(stores, p);
    if search == "" {
      forall i | 0 <= i < |stores| ensures p(stores[i]) {
        IncludesEmpty(Lower(stores[i].store.name));
      }
      FilterAll(stores, p);
    }
  }

  /** The search ignores ASCII case: a search text and its lower-cased form keep the same users. */
  lemma SearchIgnoresCase(users: seq<Accounts.UserView>, search: string)
    ensures FilteredUsers(users, search) == FilteredUsers(users, Lower(search))
  {
    LowerIdempotent(search);
  }

  lemma LowerIdempotent(s: string)
    ensures Lower(Lower(s)) == Lower(s)
  {
  }
}
