/** The user collection: user records, the two lookups the controller makes
    (findOne by email, findById) and the store that holds the records and
    persists updates to them. */
module Users {

  import opened Wrappers
  import opened Jwt

  /** A user document: `_id`, `email`, `password` (the bcrypt digest) and the
      `refreshToken` array, which may be absent on a stored record. */
  datatype User = User(id: UserId, email: string, password: string, refreshToken: Option<seq<string>>)

  /** The refresh tokens a user holds, an absent list read as empty. */
  function Held(u: User): seq<string>
  {
    if u.refreshToken.Some? then u.refreshToken.value else []
  }

  /** Index of the first record that `matches` accepts, in collection order. */
  function FindFirst(users: seq<User>, matches: User -> bool): (r: Option<nat>)
    ensures r.Some? ==> r.value < |users| && matches(users[r.value])
    ensures r.Some? ==> forall k :: 0 <= k < r.value ==> !matches(users[k])
    ensures r.None? ==> forall k :: 0 <= k < |users| ==> !matches(users[k])
  {
    if users == [] then None
    else if matches(users[0]) then Some(0)
    else match FindFirst(users[1..], matches)
      case None => None
      case Some(k) => Some(k + 1)
  }

  /** userModel.findOne({ email }): the first record with that email. */
  function FindByEmail(users: seq<User>, email: string): (r: Option<nat>)
    ensures r.Some? ==> r.value < |users| && users[r.value].email == email
    ensures r.Some? ==> forall k :: 0 <= k < r.value ==> users[k].email != email
    ensures r.None? ==> forall k :: 0 <= k < |users| ==> users[k].email != email
  {
    FindFirst(users, (u: User) => u.email == email)
  }

  /** userModel.findById(id) */
  function FindById(users: seq<User>, id: UserId): (r: Option<nat>)
    ensures r.Some? ==> r.value < |users| && users[r.value].id == id
    ensures r.Some? ==> forall k :: 0 <= k < r.value ==> users[k].id != id
    ensures r.None? ==> forall k :: 0 <= k < |users| ==> users[k].id != id
  {
    FindFirst(users, (u: User) => u.id == id)
  }

  /** `a` and `b` hold records with the same ids in the same places. */
  predicate SameIds(a: seq<User>, b: seq<User>)
  {
    |a| == |b| && forall k :: 0 <= k < |a| ==> a[k].id == b[k].id
  }

  /** user.save(): the stored record with the same `_id` is replaced. The
      collection keeps its size and its ids; a record changes only by being
      replaced with `u`, and only where `u`'s id was; when that id is stored,
      `u` is stored afterwards. */
  function SaveUser(users: seq<User>, u: User): (r: seq<User>)
    ensures SameIds(users, r)
    ensures forall k :: 0 <= k < |r| ==> r[k] == users[k] || (users[k].id == u.id && r[k] == u)
    ensures (exists k :: 0 <= k < |users| && users[k].id == u.id) ==> u in r
  {
    match FindById(users, u.id)
    case None => users
    case Some(i) => users[i := u]
  }

  /** Replacing the record found for `id` by one with the same id leaves the
      lookup where it was. */
  lemma FindByIdAfterUpdate(users: seq<User>, i: nat, u: User)
    requires FindById(users, u.id) == Some(i)
    ensures FindById(users[i := u], u.id) == Some(i)
  {
    var updated := users[i := u];
    assert updated[i].id == u.id;
  }

  /** Saving a record changes that record only: the collection keeps its size,
      every other record is untouched, and the saved one can be found again. */
  lemma SaveReplacesOne(users: seq<User>, i: nat, u: User)
    requires FindById(users, u.id) == Some(i)
    ensures SaveUser(users, u) == users[i := u]
    ensures |SaveUser(users, u)| == |users|
    ensures forall k :: 0 <= k < |users| && k != i ==> SaveUser(users, u)[k] == users[k]
    ensures FindById(SaveUser(users, u), u.id) == Some(i)
  {
    FindByIdAfterUpdate(users, i, u);
  }

  /** No two records share an `_id`. */
  ghost predicate UniqueIds(users: seq<User>)
  {
    forall j, k :: 0 <= j < k < |users| ==> users[j].id != users[k].id
  }

  /** With unique ids each record is the one findById returns for its id. */
  lemma FindByIdOfRecord(users: seq<User>, k: nat)
    requires UniqueIds(users)
    requires k < |users|
    ensures FindById(users, users[k].id) == Some(k)
  {
  }

  /** The user collection. Ids are handed out in increasing order, so they are
      unique and each record is the one findById returns for its id. */
  class UserStore {
    var users: seq<User>
    var nextId: UserId

    ghost predicate Valid()
      reads this
      ensures Valid() ==> UniqueIds(users)
    {
      (forall k :: 0 <= k < |users| ==> users[k].id < nextId) &&
      (forall j, k :: 0 <= j < k < |users| ==> users[j].id < users[k].id)
    }

    constructor ()
      ensures Valid() && users == []
    {
      users := [];
      nextId := 0;
    }

    /** userModel.create({ email, password }): a new record with a fresh id,
        appended to the collection; the next id moves past it. The record is
        given no refresh-token list, which every step reads as an empty one. */
    method Create(email: string, password: string) returns (u: User)
      requires Valid()
      modifies this
      ensures Valid()
      ensures u == User(old(nextId), email, password, None)
      ensures users == old(users) + [u]
      ensures forall k :: 0 <= k < |old(users)| ==> old(users)[k].id != u.id
      ensures nextId == old(nextId) + 1
    {
      u := User(nextId, email, password, None);
      users := users + [u];
      nextId := nextId + 1;
    }

    /** user.save() */
    method Save(u: User)
      requires Valid()
      modifies this
      ensures Valid()
      ensures users == SaveUser(old(users), u) && nextId == old(nextId)
    {
      var found := FindById(users, u.id);
      if found.Some? {
        users := users[found.value := u];
      }
    }
  }
}
