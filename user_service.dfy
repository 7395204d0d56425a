/** Registration, lookup, partial update and removal of users, with emails
    kept unique across the store. */
module UserService {
  import opened Common
  import opened Entities
  import opened UserStore

  /** Some stored user already has this email. */
  ghost predicate EmailTaken(users: map<int, User>, email: Option<string>)
  {
    exists k :: k in users && EmailMatches(users[k], email)
  }

  /** No two stored users share an email; users without one do not clash. */
  ghost predicate UniqueEmails(users: map<int, User>)
  {
    forall j, k :: j in users && k in users && j != k && users[j].email.Some? ==>
      users[j].email != users[k].email
  }

  /** Storing a user whose email nobody has keeps the emails unique. */
  lemma StoreUntakenKeepsUnique(users: map<int, User>, id: int, u: User)
    requires UniqueEmails(users)
    requires !EmailTaken(users, u.email)
    ensures UniqueEmails(users[id := u])
  {
    var m := users[id := u];
    forall j, k | j in m && k in m && j != k && m[j].email.Some?
      ensures m[j].email != m[k].email
    {
      if j == id {
        assert !EmailMatches(users[k], u.email) || k == id;
      } else if k == id {
        assert !EmailMatches(users[j], u.email);
      }
    }
  }

  /** Storing a user under an id with the email it already had keeps the
      emails unique. */
  lemma StoreSameEmailKeepsUnique(users: map<int, User>, id: int, u: User)
    requires UniqueEmails(users)
    requires id in users && u.email == users[id].email
    ensures UniqueEmails(users[id := u])
  {
    var m := users[id := u];
    forall j, k | j in m && k in m && j != k && m[j].email.Some?
      ensures m[j].email != m[k].email
    {
      assert m[j].email == users[j].email && m[k].email == users[k].email;
    }
  }

  /** The partial update of `change`: a non-null name or email in `patch`
      replaces the stored one; everything else is kept. */
  function Patch(stored: User, patch: User): (u: User)
    ensures u.id == stored.id
    ensures u.name == (if patch.name.Some? then patch.name else stored.name)
    ensures u.email == (if patch.email.Some? then patch.email else stored.email)
  {
    var named := if patch.name.Some? then stored.(name := patch.name) else stored;
    if patch.email.Some? then named.(email := patch.email) else named
  }

  /** Applying the same patch twice is applying it once, and an empty patch
      changes nothing. */
  lemma PatchIdempotent(stored: User, patch: User)
    ensures Patch(Patch(stored, patch), patch) == Patch(stored, patch)
    ensures Patch(stored, User(patch.id, None, None)) == stored
  {
  }

  /** `create`: refused when the email is taken, otherwise stored under a
      fresh id and returned as stored. */
  method Create(repo: UserRepository, user: User) returns (r: Result<User>)
    requires repo.Valid()
    modifies repo
    ensures repo.Valid()
    ensures EmailTaken(old(repo.users), user.email) ==>
      r == Err(DuplicateEmail) && repo.users == old(repo.users) && repo.globalId == old(repo.globalId)
    ensures !EmailTaken(old(repo.users), user.email) ==>
      r == Ok(user.(id := Some(old(repo.globalId)))) &&
      old(repo.globalId) !in old(repo.users) &&
      repo.users == old(repo.users)[old(repo.globalId) := r.value]
    ensures UniqueEmails(old(repo.users)) ==> UniqueEmails(repo.users)
  {
    var found := repo.FindByEmail(user.email);
    if found.Some? {
      return Err(DuplicateEmail);
    }
    if UniqueEmails(repo.users) {
      StoreUntakenKeepsUnique(repo.users, repo.globalId, user.(id := Some(repo.globalId)));
    }
    var id := repo.Add(user);
    var stored := repo.FindById(id);
    assert stored.Some?;
    r := Ok(stored.value);
  }

  /** `getUserById`: the stored user, or NotFound. */
  function GetUserById(repo: UserRepository, userId: int): (r: Result<User>)
    reads repo
    ensures r.Ok? <==> userId in repo.users
    ensures r.Ok? ==> r.value == repo.users[userId]
    ensures r.Err? ==> r.error == NotFound
  {
    match repo.FindById(userId)
    case Some(u) => Ok(u)
    case None => Err(NotFound)
  }

  /** `change`: NotFound for an unknown id, then DuplicateEmail when any
      stored user, the changed one included, has the new email; otherwise
      the patched user replaces the stored one. */
  method Change(repo: UserRepository, id: int, user: User) returns (r: Result<User>)
    requires repo.Valid()
    modifies repo
    ensures repo.Valid() && repo.globalId == old(repo.globalId)
    ensures id !in old(repo.users) ==> r == Err(NotFound) && repo.users == old(repo.users)
    ensures id in old(repo.users) && EmailTaken(old(repo.users), user.email) ==>
      r == Err(DuplicateEmail) && repo.users == old(repo.users)
    ensures r.Ok? <==> id in old(repo.users) && !EmailTaken(old(repo.users), user.email)
    ensures r.Ok? ==>
      r.value == Patch(old(repo.users)[id], user) && repo.users == old(repo.users)[id := r.value]
    ensures UniqueEmails(old(repo.users)) ==> UniqueEmails(repo.users)
  {
    var inDb := repo.FindById(id);
    if inDb.None? {
      return Err(NotFound);
    }
    var found := repo.FindByEmail(user.email);
    if found.Some? {
      return Err(DuplicateEmail);
    }
    var userInDb := inDb.value;
    if user.name.Some? {
      userInDb := userInDb.(name := user.name);
    }
    if user.email.Some? {
      userInDb := userInDb.(email := user.email);
    }
    if UniqueEmails(repo.users) {
      if user.email.Some? {
        StoreUntakenKeepsUnique(repo.users, id, userInDb);
      } else {
        StoreSameEmailKeepsUnique(repo.users, id, userInDb);
      }
    }
    repo.Overwrite(id, userInDb);
    var stored := repo.FindById(id);
    assert stored.Some?;
    r := Ok(stored.value);
  }

  /** `delete`: removes the user if present; an unknown id is not an error. */
  method Delete(repo: UserRepository, id: int)
    requires repo.Valid()
    modifies repo
    ensures repo.Valid()
    ensures repo.users == old(repo.users) - {id}
    ensures UniqueEmails(old(repo.users)) ==> UniqueEmails(repo.users)
  {
    repo.Delete(id);
  }
}
