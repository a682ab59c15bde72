/** The user schema: the shape of a stored user, the constraints Mongoose
    enforces when one is created or updated, and the defaults of a new user. */
module UserModel {
  import opened Common
  import opened JsText
  import Password

  const RoleAdmin: string := "Admin"
  const RoleTeamMember: string := "TeamMember"

  predicate IsRole(role: string) {
    role == RoleAdmin || role == RoleTeamMember
  }

  /** A user document. `password` is absent in a document read with the
      projection `{ password: 0 }` or after `delete safeUser.password`; dates
      are milliseconds since the epoch. */
  datatype User = User(
    id: nat,
    username: string,
    email: string,
    password: Option<string>,
    oauthProvider: Option<string>,
    oauthId: Option<string>,
    role: string,
    fullName: string,
    avatarUrl: string,
    lastLogin: Option<int>,
    isActive: bool,
    deletedAt: Option<int>)

  /** One way `/.+@.+\..+/` matches `s`: '@' at `at`, '.' at `dot`, and a
      character that `.` accepts before the '@', between the two, and after
      the '.'. */
  predicate EmailShape(s: string, at: nat, dot: nat)
    requires 0 < at && at + 1 < dot && dot + 1 < |s|
  {
    && s[at] == '@'
    && s[dot] == '.'
    && !IsLineTerminator(s[at - 1])
    && NoLineTerminator(s[at + 1..dot])
    && !IsLineTerminator(s[dot + 1])
  }

  /** `/.+@.+\..+/.test(email)`: the pattern is not anchored, so it is enough
      that the shape occurs somewhere in the string. */
  predicate EmailMatches(s: string) {
    exists at: nat, dot: nat | 0 < at && at + 1 < dot && dot + 1 < |s| :: EmailShape(s, at, dot)
  }

  /** The extension group `(jpg|jpeg|png|gif|svg)` of the avatar pattern. */
  predicate IsImageExtension(e: string) {
    e == "jpg" || e == "jpeg" || e == "png" || e == "gif" || e == "svg"
  }

  /** `.+\.(jpg|jpeg|png|gif|svg)$` from the start of `t`: at least one
      character `.` accepts, a dot, and an image extension ending the string. */
  predicate UrlTail(t: string) {
    exists k: nat | 0 < k < |t| :: t[k] == '.' && NoLineTerminator(t[..k]) && IsImageExtension(t[k + 1..])
  }

  /** `/^https?:\/\/.+\.(jpg|jpeg|png|gif|svg)$/.test(url)`. */
  predicate AvatarUrlMatches(url: string) {
    || (|url| >= 7 && url[..7] == "http://" && UrlTail(url[7..]))
    || (|url| >= 8 && url[..8] == "https://" && UrlTail(url[8..]))
  }

  /** Mongoose's `match` validator accepts the empty string, which is also
      the avatar's default. */
  predicate AvatarValid(url: string) {
    url == "" || AvatarUrlMatches(url)
  }

  /** `username`: trimmed, required, at least 3 UTF-16 code units. */
  predicate UsernameValid(username: string) {
    IsTrimmed(username) && Utf16Length(username) >= 3
  }

  /** `email`: trimmed, required, matching the e-mail pattern. */
  predicate EmailValid(email: string) {
    IsTrimmed(email) && |email| > 0 && EmailMatches(email)
  }

  /** `password`: trimmed, required, at least 8 code units, matching the same
      pattern as `validatePassword`. It is checked against whatever string is
      stored, which the services make a hash. */
  predicate PasswordFieldValid(password: string) {
    IsTrimmed(password) && |password| > 0 && Utf16Length(password) >= 8 && Password.ValidatePassword(password)
  }

  /** Every constraint of the schema holds of a stored user. */
  predicate UserValid(u: User) {
    && UsernameValid(u.username)
    && EmailValid(u.email)
    && u.password.Some? && PasswordFieldValid(u.password.value)
    && IsRole(u.role)
    && IsTrimmed(u.fullName)
    && AvatarValid(u.avatarUrl)
  }

  /** The unique indexes on `username` and `email`: no two stored users share either. */
  predicate UniqueIdentities(users: map<nat, User>) {
    forall j, k | j in users && k in users && j != k ::
      users[j].username != users[k].username && users[j].email != users[k].email
  }

  /** The document `User.create({ username, email, password })` builds: the
      trim setters applied and every other field at its default. */
  function NewUser(id: nat, username: string, email: string, password: string): (u: User)
    ensures u.id == id
    ensures u.username == Trim(username) && IsTrimmed(u.username)
    ensures u.email == Trim(email) && IsTrimmed(u.email)
    ensures u.password == Some(Trim(password)) && IsTrimmed(u.password.value)
  {
    TrimIsTrimmed(username);
    TrimIsTrimmed(email);
    TrimIsTrimmed(password);
    User(id, Trim(username), Trim(email), Some(Trim(password)), None, None,
         RoleTeamMember, "", "", None, true, None)
  }

  /** `toObject()` followed by `delete safeUser.password`. */
  function WithoutPassword(u: User): (r: User)
    ensures r.password.None?
    ensures r.(password := u.password) == u
  {
    u.(password := None)
  }

  /** A new user is an active TeamMember with no profile, no login, no
      deletion and no OAuth link. */
  lemma NewUserDefaults(id: nat, username: string, email: string, password: string)
    ensures var u := NewUser(id, username, email, password);
      && u.role == RoleTeamMember && u.isActive && u.deletedAt.None? && u.lastLogin.None?
      && u.fullName == "" && u.avatarUrl == "" && u.oauthProvider.None? && u.oauthId.None?
  {
  }

  /** A new user passes the schema exactly when its trimmed username is at
      least 3 UTF-16 code units long, its trimmed e-mail matches the pattern and its
      trimmed password passes the password rule: the defaults always pass. */
  lemma NewUserValidIff(id: nat, username: string, email: string, password: string)
    ensures UserValid(NewUser(id, username, email, password)) <==>
      && Utf16Length(Trim(username)) >= 3
      && EmailMatches(Trim(email))
      && Password.ValidatePassword(Trim(password))
  {
    NewUserPaths(id, username, email, password);
    DefaultsPassSchema();
    ValidIffPathsValid(NewUser(id, username, email, password), username, email, password);
  }

  /** Path by path: the stored username, e-mail and password of a new user
      are valid exactly when their trimmed values pass the schema's rules. */
  lemma NewUserPaths(id: nat, username: string, email: string, password: string)
    ensures UsernameValid(NewUser(id, username, email, password).username) <==> Utf16Length(Trim(username)) >= 3
    ensures EmailValid(NewUser(id, username, email, password).email) <==> EmailMatches(Trim(email))
    ensures NewUser(id, username, email, password).password == Some(Trim(password))
    ensures PasswordFieldValid(Trim(password)) <==> Password.ValidatePassword(Trim(password))
  {
    TrimIsTrimmed(username);
    TrimIsTrimmed(email);
    TrimIsTrimmed(password);
    if EmailMatches(Trim(email)) {
      EmailMatchesIsNonEmpty(Trim(email));
    }
    if Password.ValidatePassword(Trim(password)) {
      ValidPasswordIsLong(Trim(password));
    }
  }

  /** The schema check on a user is the conjunction of its path checks. */
  lemma ValidIffPathsValid(u: User, username: string, email: string, password: string)
    requires UsernameValid(u.username) <==> Utf16Length(Trim(username)) >= 3
    requires EmailValid(u.email) <==> EmailMatches(Trim(email))
    requires u.password == Some(Trim(password))
    requires PasswordFieldValid(Trim(password)) <==> Password.ValidatePassword(Trim(password))
    requires IsRole(u.role) && IsTrimmed(u.fullName) && AvatarValid(u.avatarUrl)
    ensures UserValid(u) <==>
      && Utf16Length(Trim(username)) >= 3
      && EmailMatches(Trim(email))
      && Password.ValidatePassword(Trim(password))
  {
  }

  /** The defaults a new user gets pass their validators. */
  lemma DefaultsPassSchema()
    ensures IsRole(RoleTeamMember) && IsTrimmed("") && AvatarValid("")
  {
  }

  /** A string the e-mail pattern matches is not empty. */
  lemma EmailMatchesIsNonEmpty(s: string)
    requires EmailMatches(s)
    ensures |s| > 0
  {
  }

  /** A password passing the rule is at least 8 characters, and so at least
      8 code units, long: the schema's `minLength: 8` adds nothing to its
      pattern. */
  lemma ValidPasswordIsLong(p: string)
    requires Password.ValidatePassword(p)
    ensures Utf16Length(p) >= 8
  {
    if |p| < 8 {
      Password.ShortPasswordFails(p);
    }
  }

  /** bcrypt's output alphabet has '.' and '/', which the password pattern
      refuses: a stored hash holding either fails the schema. */
  lemma HashWithSlashOrDotFails(stored: string, i: nat)
    requires i < |stored| && (stored[i] == '.' || stored[i] == '/')
    ensures !PasswordFieldValid(stored)
  {
    Password.ForeignCharacterFails(stored, i);
  }

  /** The pattern is unanchored: text around a matching e-mail keeps it matching. */
  lemma EmailMatchesInContext(s: string, before: string, after: string)
    requires EmailMatches(s)
    ensures EmailMatches(before + s + after)
  {
    var at: nat, dot: nat :| 0 < at && at + 1 < dot && dot + 1 < |s| && EmailShape(s, at, dot);
    var t := before + s + after;
    var n := |before|;
    assert t[n + at + 1..n + dot] == s[at + 1..dot];
    assert EmailShape(t, n + at, n + dot);
  }

  /** The e-mail of the seed data matches; a string whose '@' has no '.' after it does not. */
  lemma EmailExamples()
    ensures EmailMatches("admin@test.com")
    ensures !EmailMatches("admin.test@com")
  {
    var s := "admin@test.com";
    assert s[5] == '@' && s[10] == '.';
    assert s[6..10] == "test";
    assert EmailShape(s, 5, 10);
    var t := "admin.test@com";
    forall at: nat, dot: nat | 0 < at && at + 1 < dot && dot + 1 < |t|
      ensures !EmailShape(t, at, dot)
    {
      if t[at] == '@' {
        assert at == 10;
      }
    }
  }

  /** An https URL ending in an image extension matches, and the empty
      default passes the validator. */
  lemma AvatarMatchExample()
    ensures AvatarUrlMatches("https://cdn.example.com/a.png")
    ensures AvatarValid("")
  {
    var u := "https://cdn.example.com/a.png";
    var t := u[8..];
    assert t == "cdn.example.com/a.png";
    assert t[17] == '.' && t[18..] == "png";
    assert NoLineTerminator(t[..17]);
    assert UrlTail(t);
  }

  /** Another scheme does not match. */
  lemma AvatarSchemeExample()
    ensures !AvatarUrlMatches("ftp://cdn.example.com/a.png")
  {
    var f := "ftp://cdn.example.com/a.png";
    assert f[0] == 'f' && "http://"[0] == 'h' && "https://"[0] == 'h';
    assert f[..7][0] != "http://"[0] && f[..8][0] != "https://"[0];
  }

  /** Another extension does not match. */
  lemma AvatarExtensionExample()
    ensures !AvatarUrlMatches("https://cdn.example.com/a.bmp")
  {
    var b := "https://cdn.example.com/a.bmp";
    assert b[..7] != "http://" by { assert b[..7][4] != "http://"[4]; }
    var t := b[8..];
    assert t == "cdn.example.com/a.bmp";
    forall k: nat | 0 < k < |t| && t[k] == '.'
      ensures !IsImageExtension(t[k + 1..])
    {
      assert k == 3 || k == 11 || k == 17;
      if k == 17 {
        assert t[k + 1..] == "bmp";
      } else {
        assert |t[k + 1..]| > 4;
      }
    }
  }

  /** The paths of a user an update may set, once `_id` and `password` are
      taken out; `fullName` and `avatarUrl` are the paths of `profile`. */
  datatype UserPatch = UserPatch(
    username: Option<string>,
    email: Option<string>,
    oauthProvider: Option<string>,
    oauthId: Option<string>,
    role: Option<string>,
    fullName: Option<string>,
    avatarUrl: Option<string>,
    lastLogin: Option<int>,
    isActive: Option<bool>,
    deletedAt: Option<int>)

  /** The update validators of every path the patch supplies, on the values
      the setters store. */
  predicate PatchValid(p: UserPatch) {
    && (p.username.Some? ==> UsernameValid(Trim(p.username.value)))
    && (p.email.Some? ==> EmailValid(Trim(p.email.value)))
    && (p.role.Some? ==> IsRole(p.role.value))
    && (p.avatarUrl.Some? ==> AvatarValid(p.avatarUrl.value))
  }

  /** A user after the patch: every supplied path is set, through the `trim`
      setter where the schema has one, and every other path is kept. */
  function ApplyUserPatch(u: User, p: UserPatch): (r: User)
    ensures r.id == u.id && r.password == u.password
    ensures r.username == if p.username.Some? then Trim(p.username.value) else u.username
    ensures r.email == if p.email.Some? then Trim(p.email.value) else u.email
    ensures r.oauthProvider == if p.oauthProvider.Some? then p.oauthProvider else u.oauthProvider
    ensures r.oauthId == if p.oauthId.Some? then p.oauthId else u.oauthId
    ensures r.role == if p.role.Some? then p.role.value else u.role
    ensures r.fullName == if p.fullName.Some? then Trim(p.fullName.value) else u.fullName
    ensures r.avatarUrl == if p.avatarUrl.Some? then p.avatarUrl.value else u.avatarUrl
    ensures r.lastLogin == if p.lastLogin.Some? then p.lastLogin else u.lastLogin
    ensures r.isActive == if p.isActive.Some? then p.isActive.value else u.isActive
    ensures r.deletedAt == if p.deletedAt.Some? then p.deletedAt else u.deletedAt
    ensures p == UserPatch(None, None, None, None, None, None, None, None, None, None) ==> r == u
  {
    User(
      u.id,
      TrimmedOr(p.username, u.username),
      TrimmedOr(p.email, u.email),
      u.password,
      Supplied(p.oauthProvider, u.oauthProvider),
      Supplied(p.oauthId, u.oauthId),
      p.role.UnwrapOr(u.role),
      TrimmedOr(p.fullName, u.fullName),
      p.avatarUrl.UnwrapOr(u.avatarUrl),
      Supplied(p.lastLogin, u.lastLogin),
      p.isActive.UnwrapOr(u.isActive),
      Supplied(p.deletedAt, u.deletedAt))
  }

  /** A valid patch keeps a valid user valid. */
  lemma ApplyUserPatchKeepsValid(u: User, p: UserPatch)
    requires UserValid(u) && PatchValid(p)
    ensures UserValid(ApplyUserPatch(u, p))
  {
    if p.fullName.Some? {
      TrimIsTrimmed(p.fullName.value);
    }
  }

  /** What the `validate` run by `save` and by `create` reports. */
  const ValidationError: Error := PlainError("User validation failed")
  /** What the unique indexes on `username` and `email` report. */
  const DuplicateKeyError: Error := PlainError("E11000 duplicate key error")
  /** What `save` reports when the document is no longer stored. */
  const DocumentNotFoundError: Error := PlainError("No document found")

  /** A filter of `findOne`: which stored users, by key, it selects. */
  type UserQuery = (nat, User) -> bool

  /** No stored user other than `except` has this username or this e-mail. */
  predicate IdentityFree(users: map<nat, User>, username: string, email: string, except: Option<nat>) {
    forall k | k in users && Some(k) != except :: users[k].username != username && users[k].email != email
  }

  /** Every user sits at its own key, and every key is below `bound`. */
  predicate KeyedBelow(users: map<nat, User>, bound: nat) {
    forall k | k in users :: k < bound && users[k].id == k
  }

  /** Storing at key `k` a user whose identities no other user has keeps the
      identities unique. */
  lemma StoreKeepsUnique(users: map<nat, User>, k: nat, u: User)
    requires UniqueIdentities(users)
    requires IdentityFree(users, u.username, u.email, Some(k))
    ensures UniqueIdentities(users[k := u])
  {
  }

  /** The invariant of the `User` model: keys below the next one, every
      user valid, no two sharing a username or an e-mail. */
  predicate TableValid(users: map<nat, User>, nextId: nat) {
    && KeyedBelow(users, nextId)
    && (forall k {:trigger UserValid(users[k])} | k in users :: UserValid(users[k]))
    && UniqueIdentities(users)
  }

  /** Inserting at the next key a valid user whose identities nobody has
      keeps the invariant. */
  lemma InsertKeepsValid(users: map<nat, User>, nextId: nat, u: User)
    requires TableValid(users, nextId)
    requires u.id == nextId && UserValid(u) && IdentityFree(users, u.username, u.email, None)
    ensures TableValid(users[nextId := u], nextId + 1)
  {
    StoreKeepsUnique(users, nextId, u);
  }

  /** Replacing a stored user by a valid one with the same key, whose
      identities no other user has, keeps the invariant. */
  lemma ReplaceKeepsValid(users: map<nat, User>, nextId: nat, u: User)
    requires TableValid(users, nextId)
    requires u.id in users && UserValid(u) && IdentityFree(users, u.username, u.email, Some(u.id))
    ensures TableValid(users[u.id := u], nextId)
  {
    StoreKeepsUnique(users, u.id, u);
  }

  /** Replacing a stored user by its patched version, when the patch passes
      the update validators and the result's identities no other user has,
      keeps the invariant. */
  lemma PatchKeepsValid(users: map<nat, User>, nextId: nat, k: nat, p: UserPatch)
    requires TableValid(users, nextId) && k in users && PatchValid(p)
    requires IdentityFree(users, ApplyUserPatch(users[k], p).username, ApplyUserPatch(users[k], p).email, Some(k))
    ensures TableValid(users[k := ApplyUserPatch(users[k], p)], nextId)
  {
    var n := ApplyUserPatch(users[k], p);
    ApplyUserPatchKeepsValid(users[k], p);
    ReplaceKeepsValid(users, nextId, n);
  }

  /** The `User` model: the stored users by key, and the next key to hand
      out, so that keys grow in insertion order. */
  class UserTable {
    var users: map<nat, User>
    var nextId: nat

    /** Every stored user sits at its own key, below `nextId`, passes the
        schema, and no two share a username or an e-mail. */
    ghost predicate Valid()
      reads this
    {
      TableValid(users, nextId)
    }

    constructor ()
      ensures Valid() && users == map[] && nextId == 0
    {
      users := map[];
      nextId := 0;
    }

    /** `User.findOne(query)`: the key of the first user, in insertion
        order, that the query selects. */
    function FindOne(query: UserQuery): (r: Option<nat>)
      reads this
      ensures r.Some? ==> r.value in users && query(r.value, users[r.value])
      ensures r.Some? ==> forall k | k in users && k < r.value :: !query(k, users[k])
      ensures r.None? ==> forall k | k in users && k < nextId :: !query(k, users[k])
      ensures r.None? && Valid() ==> forall k | k in users :: !query(k, users[k])
    {
      FirstMatch(users, query, 0, nextId)
    }

    /** `User.create({ username, email, password })`: the document is
        validated, then inserted unless its username or e-mail is taken. */
    method Create(username: string, email: string, password: string) returns (r: Result<User>)
      requires Valid()
      modifies this
      ensures Valid()
      ensures var doc := NewUser(old(nextId), username, email, password);
        if !UserValid(doc) then
          r == Err(ValidationError) && users == old(users) && nextId == old(nextId)
        else if !IdentityFree(old(users), doc.username, doc.email, None) then
          r == Err(DuplicateKeyError) && users == old(users) && nextId == old(nextId)
        else
          r == Ok(doc) && users == old(users)[doc.id := doc] && nextId == old(nextId) + 1
    {
      var doc := NewUser(nextId, username, email, password);
      if !UserValid(doc) {
        r := Err(ValidationError);
      } else {
        r := Insert(doc);
      }
    }

    /** The write of `create` once the document has passed validation: the
        unique indexes on username and e-mail, then the insert at the next key. */
    method Insert(doc: User) returns (r: Result<User>)
      requires Valid() && doc.id == nextId && UserValid(doc)
      modifies this
      ensures Valid()
      ensures if IdentityFree(old(users), doc.username, doc.email, None) then
          r == Ok(doc) && users == old(users)[doc.id := doc] && nextId == old(nextId) + 1
        else
          r == Err(DuplicateKeyError) && users == old(users) && nextId == old(nextId)
    {
      if IdentityFree(users, doc.username, doc.email, None) {
        InsertKeepsValid(users, nextId, doc);
        users := users[nextId := doc];
        nextId := nextId + 1;
        r := Ok(doc);
      } else {
        r := Err(DuplicateKeyError);
      }
    }

    /** `User.findOneAndUpdate(query, patch, { new: true, runValidators: true })`:
        the patch is validated before anything is looked up; then the first
        match, if any, is replaced by its patched version, which is returned. */
    method FindOneAndUpdate(query: UserQuery, p: UserPatch) returns (r: Result<Option<User>>)
      requires Valid()
      modifies this
      ensures Valid() && nextId == old(nextId)
      ensures !PatchValid(p) ==> r == Err(ValidationError) && users == old(users)
      ensures PatchValid(p) && old(FindOne(query)).None? ==> r == Ok(None) && users == old(users)
      ensures PatchValid(p) && old(FindOne(query)).Some? ==>
        var k := old(FindOne(query)).value;
        var n := ApplyUserPatch(old(users)[k], p);
        if IdentityFree(old(users), n.username, n.email, Some(k)) then
          r == Ok(Some(n)) && users == old(users)[k := n]
        else
          r == Err(DuplicateKeyError) && users == old(users)
    {
      if !PatchValid(p) {
        return Err(ValidationError);
      }
      var found := FindOne(query);
      if found.None? {
        return Ok(None);
      }
      r := ReplacePatched(found.value, p);
    }

    /** The write of `findOneAndUpdate` once the match is known: the stored
        user is replaced by its patched version unless that takes another
        user's username or e-mail. */
    method ReplacePatched(k: nat, p: UserPatch) returns (r: Result<Option<User>>)
      requires Valid() && k in users && PatchValid(p)
      modifies this
      ensures Valid() && nextId == old(nextId)
      ensures var n := ApplyUserPatch(old(users)[k], p);
        if IdentityFree(old(users), n.username, n.email, Some(k)) then
          r == Ok(Some(n)) && users == old(users)[k := n]
        else
          r == Err(DuplicateKeyError) && users == old(users)
    {
      var n := ApplyUserPatch(users[k], p);
      if IdentityFree(users, n.username, n.email, Some(k)) {
        PatchKeepsValid(users, nextId, k, p);
        users := users[k := n];
        r := Ok(Some(n));
      } else {
        r := Err(DuplicateKeyError);
      }
    }

    /** `doc.save()`: the whole document is validated, then written back
        over the stored one unless its username or e-mail is taken. */
    method Save(doc: User) returns (r: Result<User>)
      requires Valid()
      modifies this
      ensures Valid() && nextId == old(nextId)
      ensures doc.id !in old(users) ==> r == Err(DocumentNotFoundError) && users == old(users)
      ensures doc.id in old(users) && !UserValid(doc) ==> r == Err(ValidationError) && users == old(users)
      ensures doc.id in old(users) && UserValid(doc) ==>
        if IdentityFree(old(users), doc.username, doc.email, Some(doc.id)) then
          r == Ok(doc) && users == old(users)[doc.id := doc]
        else
          r == Err(DuplicateKeyError) && users == old(users)
    {
      if doc.id !in users {
        r := Err(DocumentNotFoundError);
      } else if !UserValid(doc) {
        r := Err(ValidationError);
      } else {
        r := Replace(doc);
      }
    }

    /** The write of `save` once the document has passed validation: the
        unique indexes on username and e-mail, then the write-back. */
    method Replace(doc: User) returns (r: Result<User>)
      requires Valid() && doc.id in users && UserValid(doc)
      modifies this
      ensures Valid() && nextId == old(nextId)
      ensures if IdentityFree(old(users), doc.username, doc.email, Some(doc.id)) then
          r == Ok(doc) && users == old(users)[doc.id := doc]
        else
          r == Err(DuplicateKeyError) && users == old(users)
    {
      if IdentityFree(users, doc.username, doc.email, Some(doc.id)) {
        ReplaceKeepsValid(users, nextId, doc);
        users := users[doc.id := doc];
        r := Ok(doc);
      } else {
        r := Err(DuplicateKeyError);
      }
    }
  }
}
