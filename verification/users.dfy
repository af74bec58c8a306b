/** `UsersService`: registration with unique e-mail addresses.  Password
    hashing (bcrypt) is foreign code, so the hash function is a parameter. */
module Users {
  import opened Common
  import opened Entities
  import opened Seqs

  /** The registration body; `role` is accepted by the validator but never
      used. */
  datatype CreateUserDto = CreateUserDto(name: string, email: string, password: string, role: Option<UserRole>)

  function FindIn(users: map<int, User>, keys: seq<int>, email: string): (r: Option<User>)
    requires forall i :: 0 <= i < |keys| ==> keys[i] in users
    ensures r.Some? ==> r.value.email == email && r.value in users.Values
    ensures r.None? <==> forall i :: 0 <= i < |keys| ==> users[keys[i]].email != email
  {
    if |keys| == 0 then None
    else if users[keys[0]].email == email then Some(users[keys[0]])
    else FindIn(users, keys[1..], email)
  }

  /** `findUserByEmail`: a user with exactly that e-mail, or none when no
      user has it. */
  function FindUserByEmail(users: map<int, User>, email: string): (r: Option<User>)
    ensures r.Some? ==> r.value.email == email && r.value in users.Values
    ensures r.None? <==> forall k :: k in users ==> users[k].email != email
  {
    var keys := SortedKeys(users.Keys);
    var r := FindIn(users, keys, email);
    assert r.None? ==> forall k :: k in users ==> users[k].email != email by {
      if r.None? {
        forall k | k in users
          ensures users[k].email != email
        {
          var i :| 0 <= i < |keys| && keys[i] == k;
        }
      }
    }
    r
  }

  /** `create`: an e-mail already registered is a Conflict; otherwise the
      new user stores the hash of the password, gets the default role USER
      whatever the request says, and is active.  `id` is the key the
      database assigns. */
  function Create(users: map<int, User>, dto: CreateUserDto, hash: string -> string, id: int): (r: Result<(map<int, User>, User)>)
    requires id !in users
    ensures r.Err? <==> exists k :: k in users && users[k].email == dto.email
    ensures r.Err? ==> r.error == Conflict
    ensures r.Ok? ==>
              var (s, u) := r.value;
              && u == User(id, dto.name, dto.email, hash(dto.password), Member, true)
              && s == users[id := u]
    ensures r.Ok? && UsersKeyed(users) ==> UsersKeyed(r.value.0)
  {
    var found := FindUserByEmail(users, dto.email);
    if found.Some? then
      assert found.value in users.Values;
      Err(Conflict)
    else
      var u := User(id, dto.name, dto.email, hash(dto.password), Member, true);
      KeyedInsert(users, u);
      Ok((users[id := u], u))
  }

  lemma KeyedInsert(users: map<int, User>, u: User)
    ensures UsersKeyed(users) ==> UsersKeyed(users[u.id := u])
  {
  }

  /** No two users share an e-mail address (the unique index on `email`). */
  predicate EmailsUnique(users: map<int, User>) {
    forall j, k :: j in users && k in users && users[j].email == users[k].email ==> j == k
  }

  /** Registration keeps e-mails unique; afterwards exactly one user, the
      new one, has the registered address, and looking it up finds it. */
  lemma CreateKeepsEmailsUnique(users: map<int, User>, dto: CreateUserDto, hash: string -> string, id: int)
    requires id !in users && EmailsUnique(users)
    requires Create(users, dto, hash, id).Ok?
    ensures var (s, u) := Create(users, dto, hash, id).value;
            && EmailsUnique(s)
            && (forall k :: k in s && s[k].email == dto.email ==> k == id)
            && FindUserByEmail(s, dto.email) == Some(u)
  {
    var (s, u) := Create(users, dto, hash, id).value;
    assert s == users[id := u];
    forall k | k in s && s[k].email == dto.email
      ensures k == id
    {
      if k != id {
        assert false;
      }
    }
    forall j, k | j in s && k in s && s[j].email == s[k].email
      ensures j == k
    {
      if j != id && k != id {
        assert users[j].email == users[k].email;
      }
    }
    var found := FindUserByEmail(s, dto.email);
    assert s[id].email == dto.email;
    var k :| k in s && s[k] == found.value;
  }

  /** A second registration with the same e-mail is refused. */
  lemma SecondRegistrationConflicts(users: map<int, User>, dto: CreateUserDto, dto2: CreateUserDto,
                                    hash: string -> string, id: int, id2: int)
    requires id !in users && Create(users, dto, hash, id).Ok?
    requires dto2.email == dto.email && id2 !in Create(users, dto, hash, id).value.0
    ensures Create(Create(users, dto, hash, id).value.0, dto2, hash, id2) == Err(Conflict)
  {
    var s := Create(users, dto, hash, id).value.0;
    assert s[id].email == dto2.email;
  }
}
