/** Account lookups and account mutations: enable/disable, profile update,
    creation with defaults. */
module UsersService {
  import opened Wrappers
  import opened Store
  import opened UserMetadataDto

  const UserNotFoundMessage := "User not found"
  const RecordNotFoundMessage := "Record to update not found."
  const UpdateForbiddenMessage := "You don't have permission to update other users' data"

  /** `findOne`: the user with this email, if any. */
  function FindOne(db: Db, email: string): (r: Option<User>)
    ensures r.Some? <==> email in db.users
    ensures r.Some? ==> r.value == db.users[email]
  {
    if email in db.users then Some(db.users[email]) else None
  }

  /** `findByEmailOrFail`: the user with this email, or NotFound. */
  function FindByEmailOrFail(db: Db, email: string): (r: Result<User>)
    ensures r.Ok? <==> email in db.users
    ensures r.Ok? ==> r.value == db.users[email]
    ensures r.Err? ==> r.error == NotFound(UserNotFoundMessage)
  {
    if email in db.users then Ok(db.users[email]) else Err(NotFound(UserNotFoundMessage))
  }

  /** `findMetadataOrFail`: the metadata of the user with this email. */
  function FindMetadataOrFail(db: Db, email: string): (r: Result<UserMetadata>)
    ensures r.Ok? <==> email in db.users
    ensures r.Ok? ==> r.value == UserToMetadata(db.users[email])
    ensures r.Err? ==> r.error.NotFound?
  {
    var u :- FindByEmailOrFail(db, email);
    Ok(UserToMetadata(u))
  }

  /** `mergeUser`: an `update` of the row whose email is the row's own,
      writing every field. The store refuses to update a row that does not
      exist. */
  function MergeUser(db: Db, u: User): (r: Result<Db>)
    ensures r.Ok? <==> u.email in db.users
    ensures r.Err? ==> r.error == StoreFault(RecordNotFoundMessage)
    ensures r.Ok? ==> r.value.users.Keys == db.users.Keys && r.value.users[u.email] == u
    ensures r.Ok? ==> forall e :: e in db.users && e != u.email ==> r.value.users[e] == db.users[e]
    ensures r.Ok? ==> r.value == db.(users := r.value.users)
  {
    if u.email !in db.users then Err(StoreFault(RecordNotFoundMessage))
    else Ok(db.(users := db.users[u.email := u]))
  }

  /** Set the enabled flag of an existing account. */
  function SetEnabled(db: Db, email: string, enabled: bool): Result<Db> {
    var u :- FindByEmailOrFail(db, email);
    MergeUser(db, u.(isEnabled := enabled))
  }

  /** `disableAccount`: an existing account is disabled; an unknown email is
      NotFound. In a well-keyed store the row found is always there to be
      updated, so the call succeeds exactly for a stored email. */
  function DisableAccount(db: Db, email: string): (r: Result<Db>)
    ensures email !in db.users ==> r == Err(NotFound(UserNotFoundMessage))
    ensures WellKeyed(db) ==> (r.Ok? <==> email in db.users)
    ensures r.Ok? ==>
      && email in db.users
      && var u := db.users[email];
      u.email in r.value.users && r.value.users[u.email] == u.(isEnabled := false)
  {
    SetEnabled(db, email, false)
  }

  /** `enableAccount`: an existing account is enabled; an unknown email is
      NotFound. In a well-keyed store the call succeeds exactly for a stored
      email. */
  function EnableAccount(db: Db, email: string): (r: Result<Db>)
    ensures email !in db.users ==> r == Err(NotFound(UserNotFoundMessage))
    ensures WellKeyed(db) ==> (r.Ok? <==> email in db.users)
    ensures r.Ok? ==>
      && email in db.users
      && var u := db.users[email];
      u.email in r.value.users && r.value.users[u.email] == u.(isEnabled := true)
  {
    SetEnabled(db, email, true)
  }

  /** Enabling or disabling an existing account changes that account's flag
      and nothing else; an unknown email is NotFound. */
  lemma SetEnabledEffect(db: Db, email: string, enabled: bool)
    requires WellKeyed(db)
    ensures DisableAccount(db, email).Ok? <==> email in db.users
    ensures EnableAccount(db, email).Ok? <==> email in db.users
    ensures email !in db.users ==> SetEnabled(db, email, enabled) == Err(NotFound(UserNotFoundMessage))
    ensures email in db.users ==>
      var db' := SetEnabled(db, email, enabled).value;
      && db'.users.Keys == db.users.Keys
      && db'.users[email].isEnabled == enabled
      && db'.users[email].(isEnabled := db.users[email].isEnabled) == db.users[email]
      && (forall e :: e in db.users && e != email ==> db'.users[e] == db.users[e])
      && db' == db.(users := db'.users)
  {
  }

  /** Enabling or disabling keeps a valid store valid. */
  lemma SetEnabledPreservesValid(db: Db, email: string, enabled: bool)
    requires Valid(db)
    ensures SetEnabled(db, email, enabled).Ok? ==> Valid(SetEnabled(db, email, enabled).value)
  {
  }

  /** Disabling twice is disabling once, and likewise for enabling. */
  lemma SetEnabledIdempotent(db: Db, email: string, enabled: bool)
    requires WellKeyed(db)
    requires email in db.users
    ensures SetEnabled(SetEnabled(db, email, enabled).value, email, enabled) == SetEnabled(db, email, enabled)
  {
    var once := SetEnabled(db, email, enabled).value;
    assert once.users[email := once.users[email]] == once.users;
  }

  /** Re-enabling a disabled account restores the store it was disabled from,
      when the account was enabled to begin with. */
  lemma EnableUndoesDisable(db: Db, email: string)
    requires WellKeyed(db)
    requires email in db.users && db.users[email].isEnabled
    ensures EnableAccount(DisableAccount(db, email).value, email) == Ok(db)
  {
    var u := db.users[email];
    assert DisableAccount(db, email).value.users[email := u] == db.users;
  }

  /** The `{name, aboutMe}` a profile update answers with. */
  datatype UserUpdateResponse = UserUpdateResponse(name: Option<string>, aboutMe: Option<string>)

  /** `updateUserData`: without a target (`targetEmail` left out) the caller
      edits their own record; with one, only an ADMIN may edit, and the
      target must exist (a `null` target reaches the store's lookup, which
      refuses it). A given name or about-me replaces the stored one, a `null`
      clears it, and one left out is kept. */
  function UpdateUserData(db: Db, caller: UserMetadata, newName: Patch<string>,
                          newAboutMe: Patch<string>, targetEmail: Patch<string>): (r: Result<(Db, UserUpdateResponse)>)
    ensures !targetEmail.Absent? && caller.role != ADMIN ==> r == Err(Forbidden(UpdateForbiddenMessage))
    ensures targetEmail.Null? && caller.role == ADMIN ==> r == Err(StoreFault(NullColumnMessage("email")))
    ensures targetEmail.Absent? && caller.email !in db.users ==> r == Err(NotFound(UserNotFoundMessage))
    ensures targetEmail.Given? && caller.role == ADMIN && targetEmail.value !in db.users ==>
      r == Err(NotFound(UserNotFoundMessage))
    ensures WellKeyed(db) && targetEmail.Absent? ==> (r.Ok? <==> caller.email in db.users)
    ensures WellKeyed(db) && targetEmail.Given? && caller.role == ADMIN ==> (r.Ok? <==> targetEmail.value in db.users)
  {
    var u :-
      if targetEmail.Absent? then FindByEmailOrFail(db, caller.email)
      else if caller.role != ADMIN then Err(Forbidden(UpdateForbiddenMessage))
      else if targetEmail.Null? then Err(StoreFault(NullColumnMessage("email")))
      else FindByEmailOrFail(db, targetEmail.value);
    var u' := u.(name := newName.Nullable(u.name), aboutMe := newAboutMe.Nullable(u.aboutMe));
    var db' :- MergeUser(db, u');
    Ok((db', UserUpdateResponse(db'.users[u'.email].name, db'.users[u'.email].aboutMe)))
  }

  /** A non-ADMIN naming a target is Forbidden whether or not the target
      exists, and whatever the store holds. */
  lemma UpdateOtherNeedsAdmin(db: Db, caller: UserMetadata, newName: Patch<string>,
                              newAboutMe: Patch<string>, target: string)
    requires caller.role != ADMIN
    ensures UpdateUserData(db, caller, newName, newAboutMe, Given(target)) == Err(Forbidden(UpdateForbiddenMessage))
  {
  }

  /** Which record an update edits, and when it fails: the caller's own record
      without a target (NotFound if the caller's email is gone), the target
      for an ADMIN (NotFound if absent). Only the name and about-me of that
      record change: a given value replaces, a `null` clears, a field left
      out keeps its value. Every other record and table is untouched, and the
      answer is what is now stored. */
  lemma UpdateUserDataEffect(db: Db, caller: UserMetadata, newName: Patch<string>,
                             newAboutMe: Patch<string>, targetEmail: Option<string>)
    requires WellKeyed(db)
    requires targetEmail.None? || caller.role == ADMIN
    ensures var email := if targetEmail.None? then caller.email else targetEmail.value;
      var target := if targetEmail.None? then Absent else Given(targetEmail.value);
      var r := UpdateUserData(db, caller, newName, newAboutMe, target);
      && (r.Ok? <==> email in db.users)
      && (r.Err? ==> r.error == NotFound(UserNotFoundMessage))
      && (r.Ok? ==>
        var (db', answer) := r.value;
        var before := db.users[email];
        var after := db'.users[email];
        && db'.users.Keys == db.users.Keys
        && (newName.Given? ==> after.name == Some(newName.value))
        && (newName.Null? ==> after.name.None?)
        && (newName.Absent? ==> after.name == before.name)
        && (newAboutMe.Given? ==> after.aboutMe == Some(newAboutMe.value))
        && (newAboutMe.Null? ==> after.aboutMe.None?)
        && (newAboutMe.Absent? ==> after.aboutMe == before.aboutMe)
        && after.(name := before.name, aboutMe := before.aboutMe) == before
        && (forall e :: e in db.users && e != email ==> db'.users[e] == db.users[e])
        && db' == db.(users := db'.users)
        && answer == UserUpdateResponse(after.name, after.aboutMe))
  {
  }

  /** A profile update keeps a valid store valid. */
  lemma UpdateUserDataPreservesValid(db: Db, caller: UserMetadata, newName: Patch<string>,
                                     newAboutMe: Patch<string>, targetEmail: Patch<string>)
    requires Valid(db)
    ensures var r := UpdateUserData(db, caller, newName, newAboutMe, targetEmail);
      r.Ok? ==> Valid(r.value.0)
  {
  }

  /** `create`: a new account, always an enabled USER, under the next user id.
      A duplicate email violates the store's unique constraint. */
  function Create(db: Db, email: string, passwordHash: string,
                  name: Option<string>, aboutMe: Option<string>): (r: Result<(Db, User)>)
    ensures r.Ok? <==> email !in db.users
    ensures r.Err? ==> r.error.StoreFault?
    ensures r.Ok? ==> r.value.0.users.Keys == db.users.Keys + {email} && r.value.0.users[email] == r.value.1
  {
    if email in db.users then Err(StoreFault("Unique constraint failed on the fields: (`email`)"))
    else
      var u := User(db.nextUserId, email, passwordHash, USER, true, name, aboutMe);
      Ok((db.(users := db.users[email := u], nextUserId := db.nextUserId + 1), u))
  }

  /** A created account is an enabled USER holding exactly the given fields,
      under a fresh id; nothing else in the store changes and the store stays
      valid. */
  lemma CreateEffect(db: Db, email: string, passwordHash: string,
                     name: Option<string>, aboutMe: Option<string>)
    requires Valid(db)
    ensures var r := Create(db, email, passwordHash, name, aboutMe);
      && (r.Ok? <==> email !in db.users)
      && (r.Ok? ==>
        var (db', u) := r.value;
        && u.role == USER && u.isEnabled
        && u.email == email && u.password == passwordHash && u.name == name && u.aboutMe == aboutMe
        && (forall e :: e in db.users ==> db.users[e].userId != u.userId)
        && db'.users == db.users[email := u]
        && db' == db.(users := db'.users, nextUserId := db'.nextUserId)
        && Valid(db'))
  {
  }
}
