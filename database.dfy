/**
 * The backend's writes: the rating ledger handlers (add, update, delete),
 * admin creation of users and stores, registration and password change, as
 * methods of one in-memory database whose fields are the three tables and
 * their serial counters. Every method takes the authenticated caller as it
 * comes out of the token check, and answers with the handler's status code.
 */
module Backend {
  import opened Tables
  import opened Ledger
  import opened Validation
  import Crypto

  /** `UPDATE users SET password = $1 WHERE id = $2`. */
  function SetPassword(users: seq<User>, userId: int, d: Crypto.Digest): (r: seq<User>)
    ensures |r| == |users|
    ensures forall i :: 0 <= i < |users| ==>
              r[i] == if users[i].id == userId then users[i].(password := d) else users[i]
  {
    seq(|users|, i requires 0 <= i < |users| =>
      if users[i].id == userId then users[i].(password := d) else users[i])
  }

  /** `owner_id` is truthy: present and not 0. */
  predicate OwnerGiven(ownerId: Option<int>) {
    ownerId.Some? && ownerId.value != 0
  }

  /** The constraints on `users`: serial ids, unique emails, known roles. */
  ghost predicate UsersOk(users: seq<User>, nextUserId: int) {
    && 1 <= nextUserId
    && (forall i :: 0 <= i < |users| ==> 1 <= users[i].id < nextUserId)
    && (forall i, j :: 0 <= i < j < |users| ==> users[i].id < users[j].id)
    && (forall i, j :: 0 <= i < j < |users| ==> users[i].email != users[j].email)
    && (forall i :: 0 <= i < |users| ==> KnownRole(users[i].role))
  }

  /** The constraints on `stores`: serial ids, unique emails, and an owner_id
      that, when set, names a user whose role is owner. */
  ghost predicate StoresOk(stores: seq<Store>, users: seq<User>, nextStoreId: int) {
    && 1 <= nextStoreId
    && (forall i :: 0 <= i < |stores| ==> 1 <= stores[i].id < nextStoreId)
    && (forall i, j :: 0 <= i < j < |stores| ==> stores[i].id < stores[j].id)
    && (forall i, j :: 0 <= i < j < |stores| ==> stores[i].email != stores[j].email)
    && (forall i :: 0 <= i < |stores| && stores[i].ownerId.Some? ==>
          IsOwnerId(users, stores[i].ownerId.value))
  }

  /** The constraints on `ratings`: serial ids, one row per (user, store)
      pair, values on the 1..5 scale, and a store_id that names a store. */
  ghost predicate RatingsOk(ratings: seq<Rating>, stores: seq<Store>, nextRatingId: int) {
    && 1 <= nextRatingId
    && (forall i :: 0 <= i < |ratings| ==> 1 <= ratings[i].id < nextRatingId)
    && IdsAscending(ratings)
    && UniquePairs(ratings)
    && ValuesInScale(ratings)
    && (forall i :: 0 <= i < |ratings| ==> HasStore(stores, ratings[i].storeId))
  }

  lemma RatingsOkUpsert(ratings: seq<Rating>, stores: seq<Store>, next: int,
                        userId: int, storeId: int, value: int)
    requires RatingsOk(ratings, stores, next) && HasStore(stores, storeId) && 1 <= value <= 5
    ensures RatingsOk(Upsert(ratings, next, userId, storeId, value), stores, next + 1)
  {
    if FindPair(ratings, userId, storeId).Some? {
      RatingsOkSetRating(ratings, stores, next, userId, storeId, value);
      assert Upsert(ratings, next, userId, storeId, value) == SetRating(ratings, userId, storeId, value);
    } else {
      RatingsOkAppend(ratings, stores, next, userId, storeId, value);
    }
  }

  /** A first rating of a pair, appended under the next serial id. */
  lemma RatingsOkAppend(ratings: seq<Rating>, stores: seq<Store>, next: int,
                        userId: int, storeId: int, value: int)
    requires RatingsOk(ratings, stores, next) && HasStore(stores, storeId) && 1 <= value <= 5
    requires FindPair(ratings, userId, storeId).None?
    ensures RatingsOk(ratings + [Rating(next, userId, storeId, value)], stores, next + 1)
  {
    var rs' := ratings + [Rating(next, userId, storeId, value)];
    assert forall i :: 0 <= i < |ratings| ==> rs'[i] == ratings[i];
    assert Upsert(ratings, next, userId, storeId, value) == rs';
    UpsertKeepsInvariants(ratings, next, userId, storeId, value);
  }

  lemma RatingsOkSetRating(ratings: seq<Rating>, stores: seq<Store>, next: int,
                           userId: int, storeId: int, value: int)
    requires RatingsOk(ratings, stores, next) && 1 <= value <= 5
    ensures RatingsOk(SetRating(ratings, userId, storeId, value), stores, next)
  {
    SetRatingKeepsInvariants(ratings, userId, storeId, value);
  }

  lemma RatingsOkRemoveId(ratings: seq<Rating>, stores: seq<Store>, next: int, id: int)
    requires RatingsOk(ratings, stores, next)
    ensures RatingsOk(RemoveId(ratings, id), stores, next)
  {
    RemoveIdKeepsInvariants(ratings, id);
    var rs' := RemoveId(ratings, id);
    forall i | 0 <= i < |rs'|
      ensures 1 <= rs'[i].id < next && 1 <= rs'[i].rating <= 5 && HasStore(stores, rs'[i].storeId)
    {
      assert rs'[i] in ratings;
    }
  }

  lemma RatingsOkNewStore(ratings: seq<Rating>, stores: seq<Store>, next: int, row: Store)
    requires RatingsOk(ratings, stores, next)
    ensures RatingsOk(ratings, stores + [row], next)
  {
    forall i | 0 <= i < |ratings| ensures HasStore(stores + [row], ratings[i].storeId) {
      var k :| 0 <= k < |stores| && stores[k].id == ratings[i].storeId;
      assert (stores + [row])[k] == stores[k];
    }
  }

  lemma StoresOkNewStore(stores: seq<Store>, users: seq<User>, next: int, row: Store)
    requires StoresOk(stores, users, next)
    requires row.id == next >= 1 && !StoreEmailTaken(stores, row.email)
    requires row.ownerId.Some? ==> IsOwnerId(users, row.ownerId.value)
    ensures StoresOk(stores + [row], users, next + 1)
  {
  }

  lemma UsersOkNewUser(users: seq<User>, next: int, row: User)
    requires UsersOk(users, next)
    requires row.id == next >= 1 && !UserEmailTaken(users, row.email) && KnownRole(row.role)
    ensures UsersOk(users + [row], next + 1)
  {
  }

  /** Owners stay owners when a user row is added or a password changes. */
  lemma StoresOkOwnersKept(stores: seq<Store>, users: seq<User>, users': seq<User>, next: int)
    requires StoresOk(stores, users, next)
    requires |users| <= |users'|
    requires forall i :: 0 <= i < |users| ==> users'[i].id == users[i].id && users'[i].role == users[i].role
    ensures StoresOk(stores, users', next)
  {
    forall i | 0 <= i < |stores| && stores[i].ownerId.Some?
      ensures IsOwnerId(users', stores[i].ownerId.value)
    {
      var k :| 0 <= k < |users| && users[k].id == stores[i].ownerId.value && users[k].role == OwnerRole;
      assert users'[k].id == users[k].id && users'[k].role == OwnerRole;
    }
  }

  lemma UsersOkSetPassword(users: seq<User>, next: int, userId: int, d: Crypto.Digest)
    requires UsersOk(users, next)
    ensures UsersOk(SetPassword(users, userId, d), next)
  {
  }

  class Database {
    var users: seq<User>
    var stores: seq<Store>
    var ratings: seq<Rating>
    /** The next values of the three serial id sequences. */
    var nextUserId: int
    var nextStoreId: int
    var nextRatingId: int

    /** The table constraints the handlers keep. */
    ghost predicate Valid()
      reads this
    {
      && UsersOk(users, nextUserId)
      && StoresOk(stores, users, nextStoreId)
      && RatingsOk(ratings, stores, nextRatingId)
    }

    /** The three tables as one value, for the read-only handlers. */
    function Snapshot(): Db
      reads this
    {
      Db(users, stores, ratings)
    }

    function Serials(): (int, int, int)
      reads this
    {
      (nextUserId, nextStoreId, nextRatingId)
    }

    constructor ()
      ensures Valid()
      ensures users == [] && stores == [] && ratings == []
      ensures Serials() == (1, 1, 1)
    {
      users, stores, ratings := [], [], [];
      nextUserId, nextStoreId, nextRatingId := 1, 1, 1;
    }

    // ----- ratings.controller -----

    /** `addRatingsController`: only users; a value on the 1..5 scale; an
        existing store; then the upsert, answered with 201 and the row. */
    method AddRating(caller: Caller, storeId: int, rating: Option<int>)
      returns (status: int, row: Option<Rating>)
      requires Valid()
      modifies this
      ensures Valid()
      ensures caller.role != UserRole ==> status == Forbidden
      ensures caller.role == UserRole && !AcceptedRating(rating) ==> status == BadRequest
      ensures (caller.role == UserRole && AcceptedRating(rating) && !HasStore(old(stores), storeId))
                ==> status == NotFound
      ensures status != Created ==>
                Snapshot() == old(Snapshot()) && Serials() == old(Serials()) && row == None
      ensures status == Created <==>
                caller.role == UserRole && AcceptedRating(rating) && HasStore(old(stores), storeId)
      ensures status == Created ==>
                && ratings == Upsert(old(ratings), old(nextRatingId), caller.id, storeId, rating.value)
                && users == old(users) && stores == old(stores)
                && Serials() == (old(nextUserId), old(nextStoreId), old(nextRatingId) + 1)
                && row == FindPair(ratings, caller.id, storeId)
                && row.Some? && row.value.rating == rating.value
    {
      if caller.role != UserRole {
        return Forbidden, None;
      }
      if !AcceptedRating(rating) {
        return BadRequest, None;
      }
      if FindStore(stores, storeId).None? {
        return NotFound, None;
      }
      RatingsOkUpsert(ratings, stores, nextRatingId, caller.id, storeId, rating.value);
      UpsertStoresValue(ratings, nextRatingId, caller.id, storeId, rating.value);
      ratings := Upsert(ratings, nextRatingId, caller.id, storeId, rating.value);
      // the serial value is drawn before the conflict is detected
      nextRatingId := nextRatingId + 1;
      row := FindPair(ratings, caller.id, storeId);
      status := Created;
    }

    /** `updateRatingsController`: only users; a value on the 1..5 scale; the
        caller must already have rated the store; then only that row changes. */
    method UpdateRating(caller: Caller, storeId: int, rating: Option<int>)
      returns (status: int, row: Option<Rating>)
      requires Valid()
      modifies this
      ensures Valid()
      ensures caller.role != UserRole ==> status == Forbidden
      ensures caller.role == UserRole && !AcceptedRating(rating) ==> status == BadRequest
      ensures (caller.role == UserRole && AcceptedRating(rating)
                 && FindPair(old(ratings), caller.id, storeId).None?) ==> status == NotFound
      ensures status != Ok ==>
                Snapshot() == old(Snapshot()) && Serials() == old(Serials()) && row == None
      ensures status == Ok <==>
                caller.role == UserRole && AcceptedRating(rating)
                && FindPair(old(ratings), caller.id, storeId).Some?
      ensures status == Ok ==>
                && ratings == SetRating(old(ratings), caller.id, storeId, rating.value)
                && users == old(users) && stores == old(stores) && Serials() == old(Serials())
                && row == Some(FindPair(old(ratings), caller.id, storeId).value.(rating := rating.value))
    {
      if caller.role != UserRole {
        return Forbidden, None;
      }
      if !AcceptedRating(rating) {
        return BadRequest, None;
      }
      var existing := FindPair(ratings, caller.id, storeId);
      if existing.None? {
        return NotFound, None;
      }
      RatingsOkSetRating(ratings, stores, nextRatingId, caller.id, storeId, rating.value);
      ratings := SetRating(ratings, caller.id, storeId, rating.value);
      row := Some(existing.value.(rating := rating.value));
      status := Ok;
    }

    /** `deleteRatingsController`: only users, and only their own rating. */
    method DeleteRating(caller: Caller, ratingId: int) returns (status: int)
      requires Valid()
      modifies this
      ensures Valid()
      ensures caller.role != UserRole ==> status == Forbidden
      ensures caller.role == UserRole && status != Ok ==> status == NotFound
      ensures status != Ok ==> Snapshot() == old(Snapshot()) && Serials() == old(Serials())
      ensures status == Ok <==>
                caller.role == UserRole
                && exists i :: 0 <= i < |old(ratings)| && old(ratings)[i].id == ratingId
                                 && old(ratings)[i].userId == caller.id
      ensures status == Ok ==>
                && ratings == RemoveId(old(ratings), ratingId)
                && |ratings| == |old(ratings)| - 1
                && (forall r :: r in ratings ==> r.id != ratingId)
                && users == old(users) && stores == old(stores) && Serials() == old(Serials())
    {
      if caller.role != UserRole {
        return Forbidden;
      }
      if !exists i :: 0 <= i < |ratings| && ratings[i].id == ratingId && ratings[i].userId == caller.id {
        return NotFound;
      }
      RemoveIdEffect(ratings, ratingId);
      RatingsOkRemoveId(ratings, stores, nextRatingId, ratingId);
      ratings := RemoveId(ratings, ratingId);
      status := Ok;
    }

    // ----- admin.controller and auth.controller: user creation -----

    /** `addUserController`: admins only; a known role; the shared field checks;
        an unused email; then the insert with the hashed password. */
    method AddUser(caller: Caller, name: string, email: string, password: string, address: string,
                   role: string, isEmail: string -> bool, salt: string)
      returns (status: int, why: Option<Why>, userId: Option<int>)
      requires Valid()
      modifies this
      ensures Valid()
      ensures caller.role != AdminRole ==> status == Forbidden
      ensures caller.role == AdminRole && !KnownRole(role) ==> status == BadRequest && why == Some(InvalidRole)
      ensures (caller.role == AdminRole && KnownRole(role)
                 && UserFieldsCheck(name, email, password, address, isEmail).Some?)
                ==> status == BadRequest && why == UserFieldsCheck(name, email, password, address, isEmail)
      ensures (caller.role == AdminRole && KnownRole(role)
                 && UserFieldsCheck(name, email, password, address, isEmail).None?
                 && UserEmailTaken(old(users), email))
                ==> status == BadRequest && why == Some(EmailTaken)
      ensures status != Created ==>
                Snapshot() == old(Snapshot()) && Serials() == old(Serials()) && userId == None
      ensures status == Created <==>
                caller.role == AdminRole && KnownRole(role)
                && UserFieldsCheck(name, email, password, address, isEmail).None?
                && !UserEmailTaken(old(users), email)
      ensures status == Created ==>
                && users == old(users) + [User(old(nextUserId), name, email,
                                               Crypto.Hash(password, salt), address, role)]
                && stores == old(stores) && ratings == old(ratings)
                && Serials() == (old(nextUserId) + 1, old(nextStoreId), old(nextRatingId))
                && userId == Some(old(nextUserId))
    {
      if caller.role != AdminRole {
        return Forbidden, None, None;
      }
      if !KnownRole(role) {
        return BadRequest, Some(InvalidRole), None;
      }
      status, why, userId := InsertUser(name, email, password, address, role, isEmail, salt);
    }

    /** `registerController`: the shared field checks and an unused email, then
        an insert whose role is always `user`. */
    method Register(name: string, email: string, password: string, address: string,
                    isEmail: string -> bool, salt: string)
      returns (status: int, why: Option<Why>, userId: Option<int>)
      requires Valid()
      modifies this
      ensures Valid()
      ensures UserFieldsCheck(name, email, password, address, isEmail).Some? ==>
                status == BadRequest && why == UserFieldsCheck(name, email, password, address, isEmail)
      ensures (UserFieldsCheck(name, email, password, address, isEmail).None?
                 && UserEmailTaken(old(users), email)) ==> status == BadRequest && why == Some(EmailTaken)
      ensures status != Created ==>
                Snapshot() == old(Snapshot()) && Serials() == old(Serials()) && userId == None
      ensures status == Created <==>
                UserFieldsCheck(name, email, password, address, isEmail).None?
                && !UserEmailTaken(old(users), email)
      ensures status == Created ==>
                && users == old(users) + [User(old(nextUserId), name, email,
                                               Crypto.Hash(password, salt), address, UserRole)]
                && stores == old(stores) && ratings == old(ratings)
                && Serials() == (old(nextUserId) + 1, old(nextStoreId), old(nextRatingId))
                && userId == Some(old(nextUserId))
    {
      status, why, userId := InsertUser(name, email, password, address, UserRole, isEmail, salt);
    }

    /** The part both user-creating handlers share, from the field checks on. */
    method InsertUser(name: string, email: string, password: string, address: string,
                      role: string, isEmail: string -> bool, salt: string)
      returns (status: int, why: Option<Why>, userId: Option<int>)
      requires Valid() && KnownRole(role)
      modifies this
      ensures Valid()
      ensures UserFieldsCheck(name, email, password, address, isEmail).Some? ==>
                status == BadRequest && why == UserFieldsCheck(name, email, password, address, isEmail)
      ensures (UserFieldsCheck(name, email, password, address, isEmail).None?
                 && UserEmailTaken(old(users), email)) ==> status == BadRequest && why == Some(EmailTaken)
      ensures status != Created ==>
                Snapshot() == old(Snapshot()) && Serials() == old(Serials()) && userId == None
      ensures status == Created <==>
                UserFieldsCheck(name, email, password, address, isEmail).None?
                && !UserEmailTaken(old(users), email)
      ensures status == Created ==>
                && users == old(users) + [User(old(nextUserId), name, email,
                                               Crypto.Hash(password, salt), address, role)]
                && stores == old(stores) && ratings == old(ratings)
                && Serials() == (old(nextUserId) + 1, old(nextStoreId), old(nextRatingId))
                && userId == Some(old(nextUserId))
    {
      var check := UserFieldsCheck(name, email, password, address, isEmail);
      if check.Some? {
        return BadRequest, check, None;
      }
      if FindUserByEmail(users, email).Some? {
        return BadRequest, Some(EmailTaken), None;
      }
      var id := nextUserId;
      var row := User(id, name, email, Crypto.Hash(password, salt), address, role);
      UsersOkNewUser(users, nextUserId, row);
      StoresOkOwnersKept(stores, users, users + [row], nextStoreId);
      users := users + [row];
      nextUserId := nextUserId + 1;
      return Created, None, Some(id);
    }

    // ----- admin.controller: store creation -----

    /** `addStoreController`: admins only; the store field checks; an unused
        store email; a truthy `owner_id` must name an owner; absent, it is null. */
    method AddStore(caller: Caller, name: string, email: string, address: string,
                    ownerId: Option<int>, isEmail: string -> bool)
      returns (status: int, why: Option<Why>, store: Option<Store>)
      requires Valid()
      modifies this
      ensures Valid()
      ensures caller.role != AdminRole ==> status == Forbidden
      ensures caller.role == AdminRole && StoreFieldsCheck(name, email, address, isEmail).Some? ==>
                status == BadRequest && why == StoreFieldsCheck(name, email, address, isEmail)
      ensures (caller.role == AdminRole && StoreFieldsCheck(name, email, address, isEmail).None?
                 && StoreEmailTaken(old(stores), email)) ==> status == BadRequest && why == Some(EmailTaken)
      ensures (caller.role == AdminRole && StoreFieldsCheck(name, email, address, isEmail).None?
                 && !StoreEmailTaken(old(stores), email)
                 && OwnerGiven(ownerId) && !IsOwnerId(old(users), ownerId.value))
                ==> status == BadRequest && why == Some(InvalidOwner)
      ensures status != Created ==>
                Snapshot() == old(Snapshot()) && Serials() == old(Serials()) && store == None
      ensures status == Created <==>
                caller.role == AdminRole && StoreFieldsCheck(name, email, address, isEmail).None?
                && !StoreEmailTaken(old(stores), email)
                && (OwnerGiven(ownerId) ==> IsOwnerId(old(users), ownerId.value))
      ensures status == Created ==>
                && var row := Store(old(nextStoreId), name, email, address,
                                    if OwnerGiven(ownerId) then ownerId else None);
                && stores == old(stores) + [row]
                && store == Some(row)
                && users == old(users) && ratings == old(ratings)
                && Serials() == (old(nextUserId), old(nextStoreId) + 1, old(nextRatingId))
    {
      if caller.role != AdminRole {
        return Forbidden, None, None;
      }
      var check := StoreFieldsCheck(name, email, address, isEmail);
      if check.Some? {
        return BadRequest, check, None;
      }
      if exists i :: 0 <= i < |stores| && stores[i].email == email {
        return BadRequest, Some(EmailTaken), None;
      }
      if OwnerGiven(ownerId) {
        if !exists i :: 0 <= i < |users| && users[i].id == ownerId.value && users[i].role == OwnerRole {
          return BadRequest, Some(InvalidOwner), None;
        }
      }
      var row := Store(nextStoreId, name, email, address, if OwnerGiven(ownerId) then ownerId else None);
      StoresOkNewStore(stores, users, nextStoreId, row);
      RatingsOkNewStore(ratings, stores, nextRatingId, row);
      stores := stores + [row];
      nextStoreId := nextStoreId + 1;
      return Created, None, Some(row);
    }

    // ----- user.controller -----

    /** `updatePasswordController`: the new password must match the pattern
        (checked before any lookup); the caller's row must exist; the old
        password must match its digest; then only that row's password changes. */
    method UpdatePassword(caller: Caller, oldPassword: string, newPassword: string, salt: string)
      returns (status: int, why: Option<Why>)
      requires Valid()
      modifies this
      ensures Valid()
      ensures !PasswordAccepted(newPassword) ==> status == BadRequest && why == Some(WeakPassword)
      ensures PasswordAccepted(newPassword) && !HasUser(old(users), caller.id) ==> status == NotFound
      ensures (PasswordAccepted(newPassword) && FindUser(old(users), caller.id).Some?
                 && !Crypto.Matches(oldPassword, FindUser(old(users), caller.id).value.password))
                ==> status == BadRequest && why == Some(WrongOldPassword)
      ensures status != Ok ==> Snapshot() == old(Snapshot()) && Serials() == old(Serials())
      ensures status == Ok <==>
                PasswordAccepted(newPassword) && FindUser(old(users), caller.id).Some?
                && Crypto.Matches(oldPassword, FindUser(old(users), caller.id).value.password)
      ensures status == Ok ==>
                && users == SetPassword(old(users), caller.id, Crypto.Hash(newPassword, salt))
                && stores == old(stores) && ratings == old(ratings) && Serials() == old(Serials())
    {
      if !PasswordAccepted(newPassword) {
        return BadRequest, Some(WeakPassword);
      }
      var found := FindUser(users, caller.id);
      if found.None? {
        return NotFound, None;
      }
      if !Crypto.Matches(oldPassword, found.value.password) {
        return BadRequest, Some(WrongOldPassword);
      }
      var d := Crypto.Hash(newPassword, salt);
      UsersOkSetPassword(users, nextUserId, caller.id, d);
      StoresOkOwnersKept(stores, users, SetPassword(users, caller.id, d), nextStoreId);
      users := SetPassword(users, caller.id, d);
      return Ok, None;
    }
  }

  /** A password change touches one field of one row: every other row, and
      every other field of the caller's row, is as before. */
  lemma SetPasswordChangesOneField(users: seq<User>, userId: int, d: Crypto.Digest, i: int)
    requires 0 <= i < |users|
    ensures var u, u' := users[i], SetPassword(users, userId, d)[i];
            && u'.id == u.id && u'.name == u.name && u'.email == u.email
            && u'.address == u.address && u'.role == u.role
            && (u.id != userId ==> u' == u)
            && (u.id == userId ==> u'.password == d)
  {
  }

  /** A successful password change is what a later login checks against:
      the new password matches the caller's new digest and no other does. */
  lemma NewPasswordMatches(users: seq<User>, userId: int, newPassword: string, other: string,
                           salt: string, i: int)
    requires 0 <= i < |users| && users[i].id == userId
    ensures var u' := SetPassword(users, userId, Crypto.Hash(newPassword, salt))[i];
            Crypto.Matches(newPassword, u'.password)
            && (Crypto.Matches(other, u'.password) <==> other == newPassword)
  {
  }
}
