/**
 The single-user lookup of `GET /users/<id>` (getUser in main.go): the id is
 the request path with one leading `/users/` removed, and the user returned
 is the first stored user whose `id` field equals it.
 */
module UserLookup {
  import opened Wrappers
  import opened Schema

  /** The prefix the handler strips from the request path. */
  const UsersPrefix: string := "/users/"

  /** `s` without a leading `prefix`; `s` itself when it does not start with
      `prefix`. Only one occurrence is removed. */
  function TrimPrefix(s: string, prefix: string): (r: string)
    ensures prefix <= s ==> prefix + r == s
    ensures !(prefix <= s) ==> r == s
  {
    if prefix <= s then s[|prefix|..] else s
  }

  /** The user id carried by a request path. */
  function UserIdFromPath(path: string): (id: string)
    ensures UsersPrefix <= path ==> UsersPrefix + id == path
    ensures !(UsersPrefix <= path) ==> id == path
  {
    TrimPrefix(path, UsersPrefix)
  }

  /** Round trip: the id written after `/users/` is the id read back. */
  lemma UserIdRoundTrip(id: string)
    ensures UserIdFromPath(UsersPrefix + id) == id
  {}

  /** Every path not registered for another handler reaches this one through
      the catch-all route; such a path that does not start with `/users/` is
      taken as an id verbatim. */
  lemma OtherPathIsId()
    ensures UserIdFromPath("/foo") == "/foo"
    ensures UserIdFromPath("/user/u1") == "/user/u1"
  {
    assert "/user/u1"[5] != UsersPrefix[5];
  }

  /** Only one prefix is removed, so extraction is not idempotent. */
  lemma PrefixRemovedOnce()
    ensures UserIdFromPath("/users//users/x") == "/users/x"
    ensures UserIdFromPath(UserIdFromPath("/users//users/x")) == "x"
  {}

  /** The store's `FindOne` with the filter `{"id": id}`: the first user, in
      the collection's natural order, whose id equals `id`. */
  function FindUser(users: seq<User>, id: string): (r: Option<User>)
    ensures r.None? <==> forall k :: 0 <= k < |users| ==> users[k].id != id
    ensures r.Some? ==>
      exists k :: 0 <= k < |users| && users[k] == r.value && (forall j :: 0 <= j < k ==> users[j].id != id)
    ensures r.Some? ==> r.value.id == id
  {
    if |users| == 0 then None
    else if users[0].id == id then Some(users[0])
    else FindUser(users[1..], id)
  }

  /** The handler's lookup: extract the id from the path, then find the first
      user carrying it; `None` stands for the store's "no documents" error. */
  function GetUser(users: seq<User>, path: string): (r: Option<User>)
    ensures r.Some? ==> r.value in users && r.value.id == UserIdFromPath(path)
    ensures r.None? <==> forall v :: v in users ==> v.id != UserIdFromPath(path)
  {
    FindUser(users, UserIdFromPath(path))
  }

  /** After a user is stored under an id no earlier user has, fetching
      `/users/<id>` returns exactly that user. */
  lemma GetAfterCreate(users: seq<User>, v: User)
    requires forall w :: w in users ==> w.id != v.id
    ensures GetUser(users + [v], UsersPrefix + v.id) == Some(v)
  {}

  /** Ids are not unique. Assuming the store yields users in insertion order
      (an insert being an append), a user stored later under an id already
      taken is never returned, because the earlier one is found first. */
  lemma {:induction false} GetAfterCreateShadowed(users: seq<User>, v: User)
    requires exists w :: w in users && w.id == v.id
    ensures GetUser(users + [v], UsersPrefix + v.id) == GetUser(users, UsersPrefix + v.id)
    ensures GetUser(users, UsersPrefix + v.id).Some?
  {
    UserIdRoundTrip(v.id);
    FindUserPrefix(users, [v], v.id);
  }

  /** Appending users never changes a lookup that already succeeds. */
  lemma {:induction false} FindUserPrefix(a: seq<User>, b: seq<User>, id: string)
    requires exists w :: w in a && w.id == id
    ensures FindUser(a + b, id) == FindUser(a, id)
    decreases |a|
  {
    assert a[0] == (a + b)[0];
    if a[0].id != id {
      assert (a + b)[1..] == a[1..] + b;
      var w :| w in a && w.id == id;
      assert w in a[1..];
      FindUserPrefix(a[1..], b, id);
    }
  }
}
