/**
 * The user's store list page: its local copy of the ratings list and how a
 * submitted rating updates it, the edit toggle, the search filter over name
 * and address, the per-store enrichment (count, mean, the user's own rating)
 * and which stars are lit.
 */
module StoreList {
  import opened Tables
  import opened Seqs
  import opened Text
  import opened Averages
  import Reports

  /**
   * An entry of the page's `ratings` state. Entries fetched from the ratings
   * list carry a store name; entries the page appends itself do not.
   */
  datatype ClientRating = ClientRating(id: int, storeId: int, userId: int, userName: string,
                                       rating: int, storeName: Option<string>)

  /** The entries as fetched from `getRatingsController`. */
  function FromServer(rows: seq<Reports.RatingRow>): (rs: seq<ClientRating>)
    ensures |rs| == |rows|
    ensures forall i :: 0 <= i < |rows| ==>
              rs[i] == ClientRating(rows[i].id, rows[i].storeId, rows[i].userId, rows[i].userName,
                                    rows[i].rating, Some(rows[i].storeName))
  {
    seq(|rows|, i requires 0 <= i < |rows| =>
      ClientRating(rows[i].id, rows[i].storeId, rows[i].userId, rows[i].userName,
                   rows[i].rating, Some(rows[i].storeName)))
  }

  predicate Mine(r: ClientRating, storeId: int, userId: int) {
    r.storeId == storeId && r.userId == userId
  }

  /** `ratings.find(r => r.store_id === store_id && r.user_id === user.id)`. */
  function FindMine(rs: seq<ClientRating>, storeId: int, userId: int): (r: Option<ClientRating>)
    ensures r.None? <==> forall i :: 0 <= i < |rs| ==> !Mine(rs[i], storeId, userId)
    ensures r.Some? ==>
              exists k :: 0 <= k < |rs| && rs[k] == r.value && Mine(rs[k], storeId, userId)
                          && forall i :: 0 <= i < k ==> !Mine(rs[i], storeId, userId)
  {
    if rs == [] then None
    else if Mine(rs[0], storeId, userId) then Some(rs[0])
    else
      var r := FindMine(rs[1..], storeId, userId);
      assert forall i :: 1 <= i < |rs| ==> rs[i] == rs[1..][i - 1];
      if r.Some? then
        var k :| 0 <= k < |rs[1..]| && rs[1..][k] == r.value && Mine(rs[1..][k], storeId, userId)
                 && forall i :: 0 <= i < k ==> !Mine(rs[1..][i], storeId, userId);
        assert rs[k + 1] == r.value;
        r
      else r
  }

  /** `ratings.map(r => r.id === id ? { ...r, rating: value } : r)`. */
  function ReplaceRating(rs: seq<ClientRating>, id: int, value: int): (r: seq<ClientRating>)
    ensures |r| == |rs|
    ensures forall i :: 0 <= i < |rs| ==>
              r[i] == if rs[i].id == id then rs[i].(rating := value) else rs[i]
  {
    seq(|rs|, i requires 0 <= i < |rs| => if rs[i].id == id then rs[i].(rating := value) else rs[i])
  }

  /** The request `handleRatingSubmit` sends: PATCH when the user already rated the store, else POST. */
  datatype Request = Patch(storeId: int, rating: int) | Post(storeId: int, rating: int)

  /**
   * The list after a successful submit: with an existing entry of the user
   * for the store, every entry with that entry's id takes the rating the
   * server answered with; without one, the server's row is appended under
   * the user's name.
   */
  function NextRatings(rs: seq<ClientRating>, storeId: int, userId: int, userName: string,
                       reply: Rating): seq<ClientRating>
  {
    match FindMine(rs, storeId, userId)
    case Some(existing) => ReplaceRating(rs, existing.id, reply.rating)
    case None => rs + [ClientRating(reply.id, reply.storeId, reply.userId, userName, reply.rating, None)]
  }

  /**
   * With entry ids unique, updating an existing rating replaces the rating of
   * that one entry: the length and every other entry stay as they were.
   */
  lemma UpdateReplacesOneEntry(rs: seq<ClientRating>, storeId: int, userId: int, userName: string,
                               reply: Rating)
    requires forall i, j :: 0 <= i < j < |rs| ==> rs[i].id != rs[j].id
    requires FindMine(rs, storeId, userId).Some?
    ensures var rs' := NextRatings(rs, storeId, userId, userName, reply);
            && |rs'| == |rs|
            && exists k :: 0 <= k < |rs| && Mine(rs[k], storeId, userId)
                           && rs'[k] == rs[k].(rating := reply.rating)
                           && forall i :: 0 <= i < |rs| && i != k ==> rs'[i] == rs[i]
  {
    var existing := FindMine(rs, storeId, userId).value;
    var k :| 0 <= k < |rs| && rs[k] == existing && Mine(rs[k], storeId, userId)
             && forall i :: 0 <= i < k ==> !Mine(rs[i], storeId, userId);
    var rs' := NextRatings(rs, storeId, userId, userName, reply);
    forall i | 0 <= i < |rs| && i != k ensures rs'[i] == rs[i] {
      assert rs[i].id != rs[k].id;
    }
  }

  /** Without an existing entry, exactly the server's row is appended. */
  lemma AddAppendsOneEntry(rs: seq<ClientRating>, storeId: int, userId: int, userName: string,
                           reply: Rating)
    requires FindMine(rs, storeId, userId).None?
    ensures var rs' := NextRatings(rs, storeId, userId, userName, reply);
            && |rs'| == |rs| + 1 && rs'[..|rs|] == rs
            && rs'[|rs|] == ClientRating(reply.id, reply.storeId, reply.userId, userName, reply.rating, None)
  {
    var rs' := NextRatings(rs, storeId, userId, userName, reply);
    assert rs'[..|rs|] == rs;
  }

  /**
   * After a successful submit whose reply names the same user and store,
   * the page's "my rating" for that store is the rating the server stored.
   */
  lemma {:induction false} SubmitShowsReply(rs: seq<ClientRating>, storeId: int, userId: int,
                                            userName: string, reply: Rating)
    requires reply.storeId == storeId && reply.userId == userId
    ensures var found := FindMine(NextRatings(rs, storeId, userId, userName, reply), storeId, userId);
            found.Some? && found.value.rating == reply.rating
  {
    var rs' := NextRatings(rs, storeId, userId, userName, reply);
    match FindMine(rs, storeId, userId)
    case Some(existing) =>
      var k :| 0 <= k < |rs| && rs[k] == existing && Mine(rs[k], storeId, userId)
               && forall i :: 0 <= i < k ==> !Mine(rs[i], storeId, userId);
      forall i | 0 <= i < k ensures !Mine(rs'[i], storeId, userId) {
      }
      assert Mine(rs'[k], storeId, userId);
      FindMineAt(rs', storeId, userId, k);
    case None =>
      forall i | 0 <= i < |rs| ensures !Mine(rs'[i], storeId, userId) {
        assert rs'[i] == rs[i];
      }
      FindMineAt(rs', storeId, userId, |rs|);
  }

  /** `find` returns the entry at the first matching position. */
  lemma FindMineAt(rs: seq<ClientRating>, storeId: int, userId: int, k: int)
    requires 0 <= k < |rs| && Mine(rs[k], storeId, userId)
    requires forall i :: 0 <= i < k ==> !Mine(rs[i], storeId, userId)
    ensures FindMine(rs, storeId, userId) == Some(rs[k])
  {
    var r := FindMine(rs, storeId, userId);
    var j :| 0 <= j < |rs| && rs[j] == r.value && Mine(rs[j], storeId, userId)
             && forall i :: 0 <= i < j ==> !Mine(rs[i], storeId, userId);
    assert j == k;
  }

  /** `editingStoreId === store.id ? null : store.id`. */
  function Toggled(editing: Option<int>, storeId: int): (e: Option<int>)
    ensures editing == Some(storeId) ==> e == None
    ensures editing != Some(storeId) ==> e == Some(storeId)
  {
    if editing == Some(storeId) then None else Some(storeId)
  }

  /** Pressing the same store's edit button twice restores the state, unless
      another store was being edited, which the first press leaves. */
  lemma ToggleTwice(editing: Option<int>, storeId: int)
    ensures editing == None || editing == Some(storeId) ==>
              Toggled(Toggled(editing, storeId), storeId) == editing
    ensures editing.Some? && editing != Some(storeId) ==>
              Toggled(Toggled(editing, storeId), storeId) == None
  {
  }

  // ----- the derived lists -----

  /** `store.name.toLowerCase().includes(q) || store.address.toLowerCase().includes(q)`. */
  predicate StoreMatches(s: Reports.RatedStore, search: string) {
    Includes(Lower(s.name), Lower(search)) || Includes(Lower(s.address), Lower(search))
  }

  function FilteredStores(stores: seq<Reports.RatedStore>, search: string): seq<Reports.RatedStore> {
    Filter(stores, (s: Reports.RatedStore) => StoreMatches(s, search))
  }

  /**
   * A store is kept iff the lower-cased search text occurs in its lower-cased
   * name or address; the kept stores keep their order; an empty search keeps
   * every store.
   */
  lemma FilteredStoresFacts(stores: seq<Reports.RatedStore>, search: string)
    ensures forall s :: s in FilteredStores(stores, search) <==>
              s in stores
              && (Occurs(Lower(s.name), Lower(search)) || Occurs(Lower(s.address), Lower(search)))
    ensures Subsequence(FilteredStores(stores, search), stores)
    ensures search == "" ==> FilteredStores(stores, search) == stores
  {
    forall s | s in stores
      ensures StoreMatches(s, search) <==>
                Occurs(Lower(s.name), Lower(search)) || Occurs(Lower(s.address), Lower(search))
    {
      IncludesIffOccurs(Lower(s.name), Lower(search));
      IncludesIffOccurs(Lower(s.address), Lower(search));
    }
    FilterIsSubsequence(stores, (s: Reports.RatedStore) => StoreMatches(s, search));
    if search == "" {
      forall i | 0 <= i < |stores| ensures StoreMatches(stores[i], search) {
        IncludesEmpty(Lower(stores[i].name));
      }
      FilterAll(stores, (s: Reports.RatedStore) => StoreMatches(s, search));
    }
  }

  /** A store of the list with its ratings, their mean, their count and the user's own. */
  datatype EnrichedStore = EnrichedStore(store: Reports.RatedStore, ratings: seq<ClientRating>,
                                         averageRating: Option<real>, totalRatings: int,
                                         myRating: Option<int>)

  /** The rating values, in order. */
  function ClientValues(rs: seq<ClientRating>): seq<int> {
    Map(rs, (r: ClientRating) => r.rating)
  }

  /** `ratings.filter(r => r.store_id === store.id)`. */
  function StoreEntries(rs: seq<ClientRating>, storeId: int): seq<ClientRating> {
    Filter(rs, (r: ClientRating) => r.storeId == storeId)
  }

  /** The first entry by the user (`find(r => r.user_id === user.id)`). */
  function FirstByUser(rs: seq<ClientRating>, userId: int): Option<ClientRating> {
    if rs == [] then None
    else if rs[0].userId == userId then Some(rs[0])
    else FirstByUser(rs[1..], userId)
  }

  /** `?.rating || null`: a missing entry, or a rating of 0, shows as none. */
  function Truthy(r: Option<ClientRating>): Option<int> {
    if r.Some? && r.value.rating != 0 then Some(r.value.rating) else None
  }

  function Enrich(store: Reports.RatedStore, rs: seq<ClientRating>, userId: int): (e: EnrichedStore)
    ensures e.store == store && e.ratings == StoreEntries(rs, store.id)
    ensures e.totalRatings == |StoreEntries(rs, store.id)|
    ensures e.averageRating.None? <==> e.totalRatings == 0
    ensures e.averageRating.Some? ==>
              e.averageRating.value * e.totalRatings as real == Sum(ClientValues(e.ratings)) as real
    ensures e.myRating == Truthy(FindMine(rs, store.id, userId))
  {
    var mine := StoreEntries(rs, store.id);
    MyRatingIsFirstMine(rs, store.id, userId);
    EnrichedStore(store, mine,
                  if |mine| > 0 then Some(Mean(ClientValues(mine))) else None,
                  |mine|,
                  Truthy(FirstByUser(mine, userId)))
  }

  function EnrichedStores(stores: seq<Reports.RatedStore>, rs: seq<ClientRating>, search: string,
                          userId: int): (es: seq<EnrichedStore>)
    ensures |es| == |FilteredStores(stores, search)|
    ensures forall i :: 0 <= i < |es| ==> es[i] == Enrich(FilteredStores(stores, search)[i], rs, userId)
  {
    var shown := FilteredStores(stores, search);
    seq(|shown|, i requires 0 <= i < |shown| => Enrich(shown[i], rs, userId))
  }

  /**
   * The user's own rating of a store is the rating of the first entry in the
   * whole list by the user for that store, or none when there is no such
   * entry or its rating is 0.
   */
  lemma {:induction false} MyRatingIsFirstMine(rs: seq<ClientRating>, storeId: int, userId: int)
    ensures FirstByUser(StoreEntries(rs, storeId), userId) == FindMine(rs, storeId, userId)
  {
    if rs != [] {
      MyRatingIsFirstMine(rs[1..], storeId, userId);
      var p := (r: ClientRating) => r.storeId == storeId;
      assert StoreEntries(rs, storeId)
             == (if p(rs[0]) then [rs[0]] + StoreEntries(rs[1..], storeId) else StoreEntries(rs[1..], storeId));
      if p(rs[0]) && rs[0].userId != userId {
        assert ([rs[0]] + StoreEntries(rs[1..], storeId))[1..] == StoreEntries(rs[1..], storeId);
      }
    }
  }

  /** The enrichment of a store after the user's rating of it was submitted shows that rating. */
  lemma EnrichAfterSubmit(store: Reports.RatedStore, rs: seq<ClientRating>, userId: int,
                          userName: string, reply: Rating)
    requires reply.storeId == store.id && reply.userId == userId && reply.rating != 0
    ensures Enrich(store, NextRatings(rs, store.id, userId, userName, reply), userId).myRating
            == Some(reply.rating)
  {
    var rs' := NextRatings(rs, store.id, userId, userName, reply);
    SubmitShowsReply(rs, store.id, userId, userName, reply);
    MyRatingIsFirstMine(rs', store.id, userId);
  }

  /** The mean the page shows lies between 1 and 5 when every entry is on the scale. */
  lemma EnrichMeanInScale(store: Reports.RatedStore, rs: seq<ClientRating>, userId: int)
    requires forall i :: 0 <= i < |rs| ==> 1 <= rs[i].rating <= 5
    ensures var e := Enrich(store, rs, userId);
            e.averageRating.Some? ==> 1.0 <= e.averageRating.value <= 5.0
  {
    var mine := StoreEntries(rs, store.id);
    forall i | 0 <= i < |mine| ensures 1 <= mine[i].rating <= 5 {
      assert mine[i] in rs;
    }
    if mine != [] {
      MeanInScale(ClientValues(mine));
    }
  }

  /** `num <= (store.myRating || 0)`. */
  function IsStarActive(n: int, myRating: Option<int>): (lit: bool)
    ensures n >= 1 ==> (lit <==> myRating.Some? && n <= myRating.value)
  {
    n <= (if myRating.Some? then myRating.value else 0)
  }

  /** The lit stars are a prefix of 1..5: exactly stars 1..m for a rating m. */
  lemma LitStarsArePrefix(myRating: Option<int>, m: int, n: int)
    requires 1 <= m <= n && IsStarActive(n, myRating)
    ensures IsStarActive(m, myRating)
  {
  }

  // ----- the page -----

  /** The page's state. */
  class StoreListPage {
    const userId: int
    const userName: string
    var stores: seq<Reports.RatedStore>
    var ratings: seq<ClientRating>
    var search: string
    var editingStoreId: Option<int>

    constructor (userId: int, userName: string)
      ensures this.userId == userId && this.userName == userName
      ensures stores == [] && ratings == [] && search == "" && editingStoreId == None
    {
      this.userId := userId;
      this.userName := userName;
      stores, ratings, search, editingStoreId := [], [], "", None;
    }

    /** What the page renders: the filtered stores, enriched. */
    function Shown(): seq<EnrichedStore>
      reads this
    {
      EnrichedStores(stores, ratings, search, userId)
    }

    /**
     * `handleRatingSubmit`: sends PATCH when the list already holds the
     * user's entry for the store and POST otherwise; `reply` is the rating
     * row the server answered with, or None when the request failed, which
     * leaves the page as it was. On success the list is updated and editing
     * ends.
     */
    method HandleRatingSubmit(storeId: int, value: int, reply: Option<Rating>)
      returns (sent: Request)
      modifies this
      ensures sent == if FindMine(old(ratings), storeId, userId).Some? then Patch(storeId, value)
                      else Post(storeId, value)
      ensures reply.None? ==> ratings == old(ratings) && editingStoreId == old(editingStoreId)
      ensures reply.Some? ==>
                && ratings == NextRatings(old(ratings), storeId, userId, userName, reply.value)
                && editingStoreId == None
      ensures stores == old(stores) && search == old(search)
    {
      var existing := FindMine(ratings, storeId, userId);
      if existing.Some? {
        sent := Patch(storeId, value);
        if reply.None? {
          return;
        }
        ratings := ReplaceRating(ratings, existing.value.id, reply.value.rating);
      } else {
        sent := Post(storeId, value);
        if reply.None? {
          return;
        }
        ratings := ratings + [ClientRating(reply.value.id, reply.value.storeId, reply.value.userId,
                                           userName, reply.value.rating, None)];
      }
      editingStoreId := None;
    }

    /** The edit button: starts editing this store, or stops if it is the one being edited. */
    method ToggleEdit(storeId: int)
      modifies this
      ensures old(editingStoreId) == Some(storeId) ==> editingStoreId == None
      ensures old(editingStoreId) != Some(storeId) ==> editingStoreId == Some(storeId)
      ensures ratings == old(ratings) && stores == old(stores) && search == old(search)
    {
      editingStoreId := Toggled(editingStoreId, storeId);
    }
  }
}
