/** The user service: creating an account, finding, updating and
    soft-deleting users over the `User` model, with every failure re-thrown
    as one message per operation. `hash` stands for bcrypt's hash with the
    fixed cost 10, `fault` for an error the database throws on the service's
    first call to the model, and `now` for the clock read by soft delete. */
module UserService {
  import opened Common
  import opened JsText
  import opened UserModel

  const MissingFields: string := "Missing required fields"
  const UserExists: string := "User already exists"
  const UsernameTaken: string := "Username already taken"
  const CreateUserFailed: string := "Error creating user"
  const UserNotFound: string := "User not found"
  const FindUserFailed: string := "Error finding user"
  const NoUserToUpdate: string := "No User found to update."
  const UpdateUserFailed: string := "Failed to update User."
  const NoUserToDelete: string := "No User found to delete."
  const AlreadyDeactivated: string := "User is already deactivated."
  const DeleteUserFailed: string := "Failed to delete User."

  /** The three paths of the object given to create an account. */
  datatype NewUserInput = NewUserInput(username: Option<string>, email: Option<string>, password: Option<string>)

  /** `user.username && user.email && user.password`: all three truthy. */
  predicate HasRequired(input: NewUserInput) {
    Truthy(input.username) && Truthy(input.email) && Truthy(input.password)
  }

  /** `{ $or: [{ email }, { username }] }`; the `trim` setters of both paths
      apply to the values of the filter. */
  function IdentityQuery(username: string, email: string): (q: UserQuery)
    ensures forall k, u :: q(k, u) <==> u.email == Trim(email) || u.username == Trim(username)
  {
    (k: nat, u: User) => u.email == Trim(email) || u.username == Trim(username)
  }

  /** The message for a user the identity query found: the e-mail is
      compared with the e-mail as given, before any trimming. */
  function DuplicateMessage(existing: User, email: string): (m: string)
    ensures m == UserExists || m == UsernameTaken
    ensures m == UserExists <==> existing.email == email
  {
    if existing.email == email then UserExists else UsernameTaken
  }

  /** What a found user's message says about it: 'User already exists' means
      the e-mail clashes; 'Username already taken' means the username
      clashes, or the e-mail clashes only once the given one is trimmed. */
  lemma DuplicateMessageNamesTheClash(users: map<nat, User>, bound: nat, username: string, email: string)
    requires FirstMatch(users, IdentityQuery(username, email), 0, bound).Some?
    ensures var k := FirstMatch(users, IdentityQuery(username, email), 0, bound).value;
      && (DuplicateMessage(users[k], email) == UserExists ==> users[k].email == email)
      && (DuplicateMessage(users[k], email) == UsernameTaken ==>
            users[k].username == Trim(username) || (users[k].email == Trim(email) && Trim(email) != email))
  {
    var k := FirstMatch(users, IdentityQuery(username, email), 0, bound).value;
    assert IdentityQuery(username, email)(k, users[k]);
  }

  /** The steps shared by account creation and registration once the input
      has been checked: the identity lookup, the duplicate message, the
      hash, and `User.create`. The value is the stored document. */
  function InsertOutcome(users: map<nat, User>, nextId: nat, username: string, email: string,
                         password: string, hash: string -> string, fault: Option<Error>): (r: Result<User>)
    ensures fault.Some? ==> r == Err(fault.value)
    ensures r.Ok? ==> r.value == NewUser(nextId, username, email, hash(password))
    ensures r.Ok? ==> UserValid(r.value) && IdentityFree(users, r.value.username, r.value.email, None)
    ensures fault.None? && FirstMatch(users, IdentityQuery(username, email), 0, nextId).Some? ==>
      var k := FirstMatch(users, IdentityQuery(username, email), 0, nextId).value;
      r == Err(AppError(DuplicateMessage(users[k], email), DefaultAppErrorStatus))
    ensures fault.None? && KeyedBelow(users, nextId) ==>
      (r.Ok? <==> IdentityFree(users, Trim(username), Trim(email), None)
                  && UserValid(NewUser(nextId, username, email, hash(password))))
  {
    if fault.Some? then Err(fault.value)
    else
      match FirstMatch(users, IdentityQuery(username, email), 0, nextId)
      case Some(k) => Err(AppError(DuplicateMessage(users[k], email), DefaultAppErrorStatus))
      case None =>
        var doc := NewUser(nextId, username, email, hash(password));
        if !UserValid(doc) then Err(ValidationError)
        else if !IdentityFree(users, doc.username, doc.email, None) then Err(DuplicateKeyError)
        else Ok(doc)
  }

  /** With the identity free and no database error, a document that fails
      the schema is refused with Mongoose's validation error. */
  lemma InvalidDocumentIsRefused(users: map<nat, User>, nextId: nat, username: string, email: string,
                                 password: string, hash: string -> string)
    requires KeyedBelow(users, nextId) && IdentityFree(users, Trim(username), Trim(email), None)
    requires !UserValid(NewUser(nextId, username, email, hash(password)))
    ensures InsertOutcome(users, nextId, username, email, password, hash, None) == Err(ValidationError)
  {
  }

  /** The shared steps on the table: the lookup, then `User.create` with the
      hashed password. */
  method InsertNew(table: UserTable, username: string, email: string, password: string,
                   hash: string -> string, fault: Option<Error>) returns (r: Result<User>)
    requires table.Valid()
    modifies table
    ensures table.Valid()
    ensures r == InsertOutcome(old(table.users), old(table.nextId), username, email, password, hash, fault)
    ensures r.Ok? ==> table.users == old(table.users)[r.value.id := r.value] && table.nextId == old(table.nextId) + 1
    ensures r.Err? ==> table.users == old(table.users) && table.nextId == old(table.nextId)
  {
    if fault.Some? {
      return Err(fault.value);
    }
    var existing := table.FindOne(IdentityQuery(username, email));
    if existing.Some? {
      return Err(AppError(DuplicateMessage(table.users[existing.value], email), DefaultAppErrorStatus));
    }
    r := table.Create(username, email, hash(password));
  }

  /** The outcome of the `try` block of `createNewUserService`: the required
      paths are checked before anything else. */
  function CreateAttempt(users: map<nat, User>, nextId: nat, input: NewUserInput,
                         hash: string -> string, fault: Option<Error>): (r: Result<User>)
    ensures !HasRequired(input) ==> r == Err(AppError(MissingFields, DefaultAppErrorStatus))
    ensures HasRequired(input) ==>
      r == InsertOutcome(users, nextId, input.username.value, input.email.value, input.password.value, hash, fault)
  {
    if !HasRequired(input) then Err(AppError(MissingFields, DefaultAppErrorStatus))
    else InsertOutcome(users, nextId, input.username.value, input.email.value, input.password.value, hash, fault)
  }

  /** The `catch` of account creation: a created user is returned without
      its password; every error becomes 'Error creating user', keeping the
      inner status or else 500. */
  function CreationRethrown(attempt: Result<User>): (r: Result<User>)
    ensures r.Ok? <==> attempt.Ok?
    ensures r.Ok? ==> r.value == WithoutPassword(attempt.value) && r.value.password.None?
    ensures r.Err? ==> r.error.message == CreateUserFailed && r.error.isOperational
    ensures r.Err? ==> r.error.statusCode == Some(NumberOr(attempt.error.statusCode, 500))
  {
    if attempt.Ok? then Ok(WithoutPassword(attempt.value))
    else Err(AppError(CreateUserFailed, NumberOr(attempt.error.statusCode, 500)))
  }

  /** The status of a failed account creation: 400 for a missing path or a
      duplicate the lookup found; 500 for a document the schema or a unique
      index refuses. */
  lemma CreationStatuses(users: map<nat, User>, nextId: nat, input: NewUserInput, hash: string -> string)
    ensures !HasRequired(input) ==>
      CreationRethrown(CreateAttempt(users, nextId, input, hash, None)) == Err(AppError(CreateUserFailed, 400))
    ensures var a := CreateAttempt(users, nextId, input, hash, None);
      a.Err? && a.error.message != MissingFields && a.error.message != UserExists && a.error.message != UsernameTaken ==>
        CreationRethrown(a) == Err(AppError(CreateUserFailed, 500))
  {
    var a := CreateAttempt(users, nextId, input, hash, None);
    if a.Err? && HasRequired(input) && FirstMatch(users, IdentityQuery(input.username.value, input.email.value), 0, nextId).None? {
      assert a.error == ValidationError || a.error == DuplicateKeyError;
    }
  }

  /** `createNewUserService(user)`: the created user without its password,
      or 'Error creating user'; the table gains the new user or is left as
      it was. */
  method CreateNewUserService(table: UserTable, input: NewUserInput, hash: string -> string, fault: Option<Error>)
    returns (r: Result<User>)
    requires table.Valid()
    modifies table
    ensures table.Valid()
    ensures var attempt := CreateAttempt(old(table.users), old(table.nextId), input, hash, fault);
      && r == CreationRethrown(attempt)
      && (attempt.Ok? ==> table.users == old(table.users)[attempt.value.id := attempt.value]
                          && table.nextId == old(table.nextId) + 1)
      && (attempt.Err? ==> table.users == old(table.users) && table.nextId == old(table.nextId))
  {
    var attempt: Result<User>;
    if !HasRequired(input) {
      attempt := Err(AppError(MissingFields, DefaultAppErrorStatus));
    } else {
      attempt := InsertNew(table, input.username.value, input.email.value, input.password.value, hash, fault);
    }
    r := CreationRethrown(attempt);
  }

  /** Creating an account stores the hash of the password (trimmed by the
      setter), never the password as given unless the hash returns it, and
      leaves no two users sharing a username or an e-mail. */
  lemma CreatedUserStoresHash(users: map<nat, User>, nextId: nat, input: NewUserInput,
                              hash: string -> string, fault: Option<Error>)
    requires UniqueIdentities(users) && KeyedBelow(users, nextId)
    requires CreateAttempt(users, nextId, input, hash, fault).Ok?
    ensures var u := CreateAttempt(users, nextId, input, hash, fault).value;
      && u.password == Some(Trim(hash(input.password.value)))
      && u.id == nextId && u.isActive && u.role == RoleTeamMember
      && UniqueIdentities(users[u.id := u])
  {
    var u := CreateAttempt(users, nextId, input, hash, fault).value;
    StoreKeepsUnique(users, u.id, u);
  }

  /** `findUserByQueryService(query)` with the default projection: the first
      matching user without its password; nothing found and every error
      both become 'Error finding user' with status 500. */
  function FindUserByQueryService(table: UserTable, query: UserQuery, fault: Option<Error>): (r: Result<User>)
    reads table
    ensures r.Ok? <==> fault.None? && table.FindOne(query).Some?
    ensures r.Ok? ==> (var k := table.FindOne(query).value;
      && r.value == WithoutPassword(table.users[k])
      && query(k, table.users[k])
      && r.value.password.None?)
    ensures r.Err? ==> r.error == AppError(FindUserFailed, 500)
  {
    var attempt: Result<User> :=
      if fault.Some? then Err(fault.value)
      else if table.FindOne(query).None? then Err(AppError(UserNotFound, 404))
      else Ok(WithoutPassword(table.users[table.FindOne(query).value]));
    if attempt.Ok? then attempt else Err(AppError(FindUserFailed, 500))
  }

  /** The plain object given to update a user: every path of a user,
      `_id` and `password` included. */
  datatype UserUpdate = UserUpdate(
    id: Option<nat>,
    username: Option<string>,
    email: Option<string>,
    password: Option<string>,
    oauthProvider: Option<string>,
    oauthId: Option<string>,
    role: Option<string>,
    fullName: Option<string>,
    avatarUrl: Option<string>,
    lastLogin: Option<int>,
    isActive: Option<bool>,
    deletedAt: Option<int>)

  /** The copy of the update data with `_id` and `password` deleted: every
      other path is kept as given. */
  function Sanitize(d: UserUpdate): (p: UserPatch)
    ensures p.username == d.username && p.email == d.email
    ensures p.oauthProvider == d.oauthProvider && p.oauthId == d.oauthId && p.role == d.role
    ensures p.fullName == d.fullName && p.avatarUrl == d.avatarUrl
    ensures p.lastLogin == d.lastLogin && p.isActive == d.isActive && p.deletedAt == d.deletedAt
  {
    UserPatch(d.username, d.email, d.oauthProvider, d.oauthId, d.role, d.fullName,
              d.avatarUrl, d.lastLogin, d.isActive, d.deletedAt)
  }

  /** Whatever `_id` and `password` the update data holds, the sanitized
      update is the same, and it changes neither path of the user. */
  lemma SanitizeIgnoresIdAndPassword(d: UserUpdate, id: Option<nat>, password: Option<string>, u: User)
    ensures Sanitize(d.(id := id, password := password)) == Sanitize(d)
    ensures ApplyUserPatch(u, Sanitize(d)).id == u.id
    ensures ApplyUserPatch(u, Sanitize(d)).password == u.password
  {
  }

  /** `updateUserByQueryService(query, updateData)`: the first matching user
      with the sanitized data applied, returned without its password; no
      match and every error both become 'Failed to update User.' (500). */
  method UpdateUserByQueryService(table: UserTable, query: UserQuery, data: UserUpdate, fault: Option<Error>)
    returns (r: Result<User>)
    requires table.Valid()
    modifies table
    ensures table.Valid() && table.nextId == old(table.nextId)
    ensures r.Err? ==> r.error == AppError(UpdateUserFailed, 500) && table.users == old(table.users)
    ensures r.Ok? ==> (
      && fault.None? && PatchValid(Sanitize(data)) && old(table.FindOne(query)).Some?
      && var k := old(table.FindOne(query)).value;
         var n := ApplyUserPatch(old(table.users)[k], Sanitize(data));
         && r.value == WithoutPassword(n)
         && table.users == old(table.users)[k := n]
         && n.password == old(table.users)[k].password)
    ensures fault.None? && PatchValid(Sanitize(data)) && old(table.FindOne(query)).Some? ==>
      var k := old(table.FindOne(query)).value;
      var n := ApplyUserPatch(old(table.users)[k], Sanitize(data));
      IdentityFree(old(table.users), n.username, n.email, Some(k)) ==> r.Ok?
  {
    var sanitized := Sanitize(data);
    var attempt: Result<User>;
    if fault.Some? {
      attempt := Err(fault.value);
    } else {
      var result := table.FindOneAndUpdate(query, sanitized);
      if result.Err? {
        attempt := Err(result.error);
      } else if result.value.None? {
        attempt := Err(AppError(NoUserToUpdate, 404));
      } else {
        attempt := Ok(WithoutPassword(result.value.value));
      }
    }
    r := if attempt.Ok? then attempt else Err(AppError(UpdateUserFailed, 500));
  }

  /** A soft-deleted user: inactive, deleted at `now`, and otherwise the same. */
  function SoftDeleted(u: User, now: int): (d: User)
    ensures !d.isActive && d.deletedAt == Some(now)
    ensures d.(isActive := u.isActive, deletedAt := u.deletedAt) == u
  {
    u.(isActive := false, deletedAt := Some(now))
  }

  /** A stored user, soft-deleted, still passes the schema and clashes with
      nobody, so saving it back always succeeds. */
  lemma SoftDeletedCanBeSaved(users: map<nat, User>, k: nat, now: int)
    requires k in users && users[k].id == k
    requires UserValid(users[k]) && UniqueIdentities(users)
    ensures var d := SoftDeleted(users[k], now);
      d.id == k && UserValid(d) && IdentityFree(users, d.username, d.email, Some(k))
  {
    var d := SoftDeleted(users[k], now);
    assert d.username == users[k].username && d.email == users[k].email;
  }

  /** `deleteUserByQueryService(query)`: the first matching user, if it is
      active, is marked inactive with `deletedAt` set and saved; it stays in
      the table and is returned without its password. A missing or already
      inactive user and every error become 'Failed to delete User.' (500)
      and change nothing. */
  method DeleteUserByQueryService(table: UserTable, query: UserQuery, now: int, fault: Option<Error>)
    returns (r: Result<User>)
    requires table.Valid()
    modifies table
    ensures table.Valid() && table.nextId == old(table.nextId)
    ensures table.users.Keys == old(table.users).Keys
    ensures r.Ok? <==> (fault.None? && old(table.FindOne(query)).Some?
                        && old(table.users)[old(table.FindOne(query)).value].isActive)
    ensures r.Err? ==> r.error == AppError(DeleteUserFailed, 500) && table.users == old(table.users)
    ensures r.Ok? ==>
      var k := old(table.FindOne(query)).value;
      var d := SoftDeleted(old(table.users)[k], now);
      r.value == WithoutPassword(d) && table.users == old(table.users)[k := d]
  {
    var attempt: Result<User>;
    if fault.Some? {
      attempt := Err(fault.value);
    } else {
      var found := table.FindOne(query);
      if found.None? {
        attempt := Err(AppError(NoUserToDelete, 404));
      } else if !table.users[found.value].isActive {
        attempt := Err(AppError(AlreadyDeactivated, DefaultAppErrorStatus));
      } else {
        var d := SoftDeleted(table.users[found.value], now);
        SoftDeletedCanBeSaved(table.users, found.value, now);
        var saved := table.Save(d);
        attempt := if saved.Ok? then Ok(WithoutPassword(saved.value)) else saved;
      }
    }
    r := if attempt.Ok? then attempt else Err(AppError(DeleteUserFailed, 500));
  }
}
