/** The in-memory user store: a hash map from id to user and a counter that
    hands out the next id. */
module UserStore {
  import opened Common
  import opened Entities
  import Tables

  /** The store's email test: a stored user matches when it has an email and
      that email equals the one asked for, so a null email matches nobody. */
  predicate EmailMatches(u: User, email: Option<string>)
  {
    u.email.Some? && u.email == email
  }

  class UserRepository {
    var users: map<int, User>
    var globalId: int

    /** The counter is positive and above every id in use, so the next id
        handed out is fresh. */
    ghost predicate Valid()
      reads this
    {
      globalId >= 1 && forall k :: k in users ==> k < globalId
    }

    constructor ()
      ensures Valid()
      ensures users == map[] && globalId == 1
    {
      users := map[];
      globalId := 1;
    }

    /** `findById`: the stored user, or nothing. */
    function FindById(id: int): (r: Option<User>)
      reads this
      ensures r.Some? <==> id in users
      ensures r.Some? ==> r.value == users[id]
    {
      if id in users then Some(users[id]) else None
    }

    /** `add`: takes the next id, writes it into the user and stores the user
        under it; the counter moves past it for good. */
    method Add(user: User) returns (id: int)
      requires Valid()
      modifies this
      ensures Valid()
      ensures id == old(globalId) && globalId == id + 1
      ensures id !in old(users) && forall k :: k in old(users) ==> k < id
      ensures users == old(users)[id := user.(id := Some(id))]
    {
      id := globalId;
      globalId := globalId + 1;
      users := users[id := user.(id := Some(id))];
    }

    /** `overwrite`: puts `user` under `id`, whatever was there. */
    method Overwrite(id: int, user: User)
      requires Valid()
      modifies this
      ensures users == old(users)[id := user] && globalId == old(globalId)
      ensures id < globalId ==> Valid()
    {
      users := users[id := user];
    }

    /** `delete`: removes `id` if present; the counter is untouched, so the
        id is never handed out again. */
    method Delete(id: int)
      requires Valid()
      modifies this
      ensures Valid()
      ensures users == old(users) - {id} && globalId == old(globalId)
    {
      users := users - {id};
    }

    /** `findByEmail`: some stored user with that email, or nothing when no
        stored user has it. */
    method FindByEmail(email: Option<string>) returns (r: Option<User>)
      ensures r.Some? ==> r.value in users.Values && EmailMatches(r.value, email)
      ensures r.None? <==> forall k :: k in users ==> !EmailMatches(users[k], email)
    {
      var rest := users.Keys;
      while rest != {}
        invariant rest <= users.Keys
        invariant forall k :: k in users && k !in rest ==> !EmailMatches(users[k], email)
        decreases rest
      {
        Tables.NonEmptyHasMember(rest);
        var k :| k in rest;
        if EmailMatches(users[k], email) {
          return Some(users[k]);
        }
        rest := rest - {k};
      }
      return None;
    }

    /** `findAll`: every stored user once; `keys` records under which id
        each one is stored. */
    method FindAll() returns (r: seq<User>, ghost keys: seq<int>)
      ensures |r| == |users|
      ensures forall x :: x in r ==> x in users.Values
      ensures forall k :: k in users ==> users[k] in r
      ensures |keys| == |r|
      ensures forall i :: 0 <= i < |r| ==> keys[i] in users && r[i] == users[keys[i]]
      ensures forall k :: k in users ==> k in keys
      ensures forall i, j :: 0 <= i < j < |keys| ==> keys[i] != keys[j]
    {
      r, keys := [], [];
      var rest := users.Keys;
      while rest != {}
        invariant rest <= users.Keys
        invariant |keys| == |r| && |r| + |rest| == |users|
        invariant forall i :: 0 <= i < |r| ==> keys[i] in users && keys[i] !in rest && r[i] == users[keys[i]]
        invariant forall k :: k in users ==> k in rest || k in keys
        invariant forall i, j :: 0 <= i < j < |keys| ==> keys[i] != keys[j]
        decreases rest
      {
        Tables.NonEmptyHasMember(rest);
        var k :| k in rest;
        r, keys := r + [users[k]], keys + [k];
        rest := rest - {k};
      }
      forall k | k in users ensures users[k] in r {
        var i :| 0 <= i < |keys| && keys[i] == k;
        assert r[i] == users[k];
      }
      forall x | x in r ensures x in users.Values {
        var i :| 0 <= i < |r| && r[i] == x;
        assert users[keys[i]] == x;
      }
    }
  }
}
