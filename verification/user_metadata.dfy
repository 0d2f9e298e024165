/** The caller identity a validated token resolves to. */
module UserMetadataDto {
  import opened Store

  /** Exactly three fields: no password hash, enabled flag, name or about-me. */
  datatype UserMetadata = UserMetadata(email: string, role: Role, userId: int)

  /** The projection of a user row onto its metadata. */
  function UserToMetadata(u: User): (m: UserMetadata)
    ensures m.email == u.email
    ensures m.role == u.role
    ensures m.userId == u.userId
  {
    UserMetadata(u.email, u.role, u.userId)
  }

  /** The projection does not depend on the password hash, the enabled flag,
      the name or the about-me text: two rows that agree on email, role and id
      give the same metadata whatever else they hold. */
  lemma MetadataHidesPrivateFields(u: User, password: string, enabled: bool, name: Wrappers.Option<string>, aboutMe: Wrappers.Option<string>)
    ensures UserToMetadata(u.(password := password, isEnabled := enabled, name := name, aboutMe := aboutMe))
         == UserToMetadata(u)
  {
  }
}
