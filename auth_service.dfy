/** The registration service: the account creation of the user service
    with the password rule checked between the required paths and the
    lookup. */
module AuthService {
  import opened Common
  import opened JsText
  import opened UserModel
  import opened UserService
  import Password

  const PasswordRuleFailed: string :=
    "Password must be at least 8 characters long and include uppercase, lowercase, a number, and a special character."

  /** The outcome of the `try` block of `registerNewUserService`: the
      required paths, then the password rule on the password as given, then
      the lookup, the hash and the insert. */
  function RegisterAttempt(users: map<nat, User>, nextId: nat, input: NewUserInput,
                           hash: string -> string, fault: Option<Error>): (r: Result<User>)
    ensures !HasRequired(input) ==> r == Err(AppError(MissingFields, DefaultAppErrorStatus))
    ensures HasRequired(input) && !Password.ValidatePassword(input.password.value) ==>
      r == Err(AppError(PasswordRuleFailed, DefaultAppErrorStatus))
    ensures HasRequired(input) && Password.ValidatePassword(input.password.value) ==>
      r == InsertOutcome(users, nextId, input.username.value, input.email.value, input.password.value, hash, fault)
  {
    if !HasRequired(input) then Err(AppError(MissingFields, DefaultAppErrorStatus))
    else if !Password.ValidatePassword(input.password.value) then Err(AppError(PasswordRuleFailed, DefaultAppErrorStatus))
    else InsertOutcome(users, nextId, input.username.value, input.email.value, input.password.value, hash, fault)
  }

  /** `registerNewUserService(user)`: the registered user without its
      password, or 'Error creating user'; the table gains the new user or is
      left as it was. */
  method RegisterNewUserService(table: UserTable, input: NewUserInput, hash: string -> string, fault: Option<Error>)
    returns (r: Result<User>)
    requires table.Valid()
    modifies table
    ensures table.Valid()
    ensures var attempt := RegisterAttempt(old(table.users), old(table.nextId), input, hash, fault);
      && r == CreationRethrown(attempt)
      && (attempt.Ok? ==> table.users == old(table.users)[attempt.value.id := attempt.value]
                          && table.nextId == old(table.nextId) + 1)
      && (attempt.Err? ==> table.users == old(table.users) && table.nextId == old(table.nextId))
  {
    var attempt: Result<User>;
    if !HasRequired(input) {
      attempt := Err(AppError(MissingFields, DefaultAppErrorStatus));
    } else if !Password.ValidatePassword(input.password.value) {
      attempt := Err(AppError(PasswordRuleFailed, DefaultAppErrorStatus));
    } else {
      attempt := InsertNew(table, input.username.value, input.email.value, input.password.value, hash, fault);
    }
    r := CreationRethrown(attempt);
  }

  /** A password that fails the rule is refused before the table is read:
      the outcome is the same whatever the table holds and whether or not
      the database would fail, and it is 'Error creating user' with 400. */
  lemma PasswordRuleBeforeLookup(users: map<nat, User>, nextId: nat, other: map<nat, User>, otherNext: nat,
                                 input: NewUserInput, hash: string -> string, fault: Option<Error>)
    requires HasRequired(input) && !Password.ValidatePassword(input.password.value)
    ensures RegisterAttempt(users, nextId, input, hash, fault) == RegisterAttempt(other, otherNext, input, hash, None)
    ensures CreationRethrown(RegisterAttempt(users, nextId, input, hash, fault)) == Err(AppError(CreateUserFailed, 400))
  {
  }

  /** With a password that passes the rule, registration does exactly what
      account creation does; otherwise only the password rule's error sets
      the two apart. */
  lemma RegisterIsCreateWithPasswordRule(users: map<nat, User>, nextId: nat, input: NewUserInput,
                                         hash: string -> string, fault: Option<Error>)
    ensures !HasRequired(input) || Password.ValidatePassword(input.password.value) ==>
      RegisterAttempt(users, nextId, input, hash, fault) == CreateAttempt(users, nextId, input, hash, fault)
    ensures HasRequired(input) && !Password.ValidatePassword(input.password.value) ==>
      RegisterAttempt(users, nextId, input, hash, fault).error.message == PasswordRuleFailed
  {
  }

  /** The schema checks the stored hash against the password pattern: a
      registration succeeds only when the trimmed hash itself passes the
      rule. */
  lemma RegisteredHashPassesRule(users: map<nat, User>, nextId: nat, input: NewUserInput,
                                 hash: string -> string, fault: Option<Error>)
    requires RegisterAttempt(users, nextId, input, hash, fault).Ok?
    ensures HasRequired(input)
    ensures RegisterAttempt(users, nextId, input, hash, fault).value.password == Some(Trim(hash(input.password.value)))
    ensures Password.ValidatePassword(Trim(hash(input.password.value)))
  {
    var u := RegisterAttempt(users, nextId, input, hash, fault).value;
    assert UserValid(u);
  }

  /** So a hash holding '.' or '/' at position `i` once trimmed can never be
      registered; with a free username and e-mail and no database error the
      answer is 'Error creating user' with status 500. */
  lemma HashWithSlashOrDotCannotRegister(users: map<nat, User>, nextId: nat, input: NewUserInput,
                                         hash: string -> string, i: nat)
    requires HasRequired(input) && Password.ValidatePassword(input.password.value)
    requires KeyedBelow(users, nextId)
    requires IdentityFree(users, Trim(input.username.value), Trim(input.email.value), None)
    requires i < |Trim(hash(input.password.value))|
    requires Trim(hash(input.password.value))[i] == '.' || Trim(hash(input.password.value))[i] == '/'
    ensures RegisterAttempt(users, nextId, input, hash, None) == Err(ValidationError)
    ensures CreationRethrown(RegisterAttempt(users, nextId, input, hash, None)) == Err(AppError(CreateUserFailed, 500))
  {
    HashWithSlashOrDotFails(Trim(hash(input.password.value)), i);
    InvalidDocumentIsRefused(users, nextId, input.username.value, input.email.value, input.password.value, hash);
  }
}
