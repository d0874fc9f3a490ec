/**
 * The rows of the three relational tables (users, stores, ratings), the
 * identity an authenticated request carries, and the HTTP status codes the
 * controllers answer with.
 */
module Tables {
  import Crypto

  datatype Option<T> = None | Some(value: T)

  /** The three roles a user row may hold. */
  const AdminRole: string := "admin"
  const OwnerRole: string := "owner"
  const UserRole: string := "user"

  /** Status codes used by the controllers. */
  const Ok: int := 200
  const Created: int := 201
  const BadRequest: int := 400
  const Unauthorized: int := 401
  const Forbidden: int := 403
  const NotFound: int := 404

  /** A row of `users`; the password column holds only a digest. */
  datatype User = User(id: int, name: string, email: string, password: Crypto.Digest,
                       address: string, role: string)

  /** A row of `stores`; `ownerId` is the nullable `owner_id` column. */
  datatype Store = Store(id: int, name: string, email: string, address: string,
                         ownerId: Option<int>)

  /** A row of `ratings`. */
  datatype Rating = Rating(id: int, userId: int, storeId: int, rating: int)

  /** The claims of a verified session token: who calls, and in which role. */
  datatype Caller = Caller(id: int, role: string)

  /** The whole database as one value, which the read-only handlers take. */
  datatype Db = Db(users: seq<User>, stores: seq<Store>, ratings: seq<Rating>)

  /** Some row of `stores` has this id (the `SELECT ... FROM stores WHERE id = $1` probe). */
  predicate HasStore(stores: seq<Store>, storeId: int) {
    exists i :: 0 <= i < |stores| && stores[i].id == storeId
  }

  /** Some row of `users` has this id. */
  predicate HasUser(users: seq<User>, userId: int) {
    exists i :: 0 <= i < |users| && users[i].id == userId
  }

  /** Some row of `users` has this email. */
  predicate UserEmailTaken(users: seq<User>, email: string) {
    exists i :: 0 <= i < |users| && users[i].email == email
  }

  /** Some row of `stores` has this email. */
  predicate StoreEmailTaken(stores: seq<Store>, email: string) {
    exists i :: 0 <= i < |stores| && stores[i].email == email
  }

  /** Some user row has this id and role `owner` (the owner_id probe of addStore). */
  predicate IsOwnerId(users: seq<User>, userId: int) {
    exists i :: 0 <= i < |users| && users[i].id == userId && users[i].role == OwnerRole
  }

  /** `SELECT ... FROM users WHERE id = $1`, first row. */
  function FindUser(users: seq<User>, userId: int): (r: Option<User>)
    ensures r.Some? ==> r.value in users && r.value.id == userId
    ensures r.None? <==> !HasUser(users, userId)
  {
    if users == [] then None
    else if users[0].id == userId then Some(users[0])
    else
      var r := FindUser(users[1..], userId);
      assert forall i :: 1 <= i < |users| ==> users[i] == users[1..][i - 1];
      r
  }

  /** `SELECT * FROM users WHERE email = $1`, first row. */
  function FindUserByEmail(users: seq<User>, email: string): (r: Option<User>)
    ensures r.Some? ==> r.value in users && r.value.email == email
    ensures r.None? <==> !UserEmailTaken(users, email)
  {
    if users == [] then None
    else if users[0].email == email then Some(users[0])
    else
      var r := FindUserByEmail(users[1..], email);
      assert forall i :: 1 <= i < |users| ==> users[i] == users[1..][i - 1];
      r
  }

  /** `SELECT * FROM stores WHERE id = $1`, first row. */
  function FindStore(stores: seq<Store>, storeId: int): (r: Option<Store>)
    ensures r.Some? ==> r.value in stores && r.value.id == storeId
    ensures r.None? <==> !HasStore(stores, storeId)
  {
    if stores == [] then None
    else if stores[0].id == storeId then Some(stores[0])
    else
      var r := FindStore(stores[1..], storeId);
      assert forall i :: 1 <= i < |stores| ==> stores[i] == stores[1..][i - 1];
      r
  }
}
