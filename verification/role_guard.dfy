/** The route guard that admits a caller only if their role is one the route
    requires. It runs after the authentication guard, which puts the caller's
    metadata on the request (or leaves it absent). */
module RoleGuard {
  import opened Wrappers
  import opened Store
  import opened UserMetadataDto

  /** `RoleGuard.canActivate`: an empty requirement admits everyone, even an
      anonymous request; otherwise the caller must be present and hold one of
      the required roles. */
  function CanActivate(required: seq<Role>, caller: Option<UserMetadata>): (allow: bool)
    ensures |required| == 0 ==> allow
    ensures 0 < |required| && caller.None? ==> !allow
    ensures 0 < |required| && caller.Some? ==> (allow <==> caller.value.role in required)
  {
    if |required| == 0 then true
    else caller.Some? && caller.value.role in required
  }

  /** For a non-empty requirement, widening it never turns an admission into a
      refusal. */
  lemma WideningAdmitsMore(required: seq<Role>, wider: seq<Role>, caller: Option<UserMetadata>)
    requires 0 < |required|
    requires forall r :: r in required ==> r in wider
    requires CanActivate(required, caller)
    ensures CanActivate(wider, caller)
  {
  }

  /** The non-empty precondition above cannot be dropped: the empty
      requirement admits a USER that `[ADMIN]` refuses. */
  lemma EmptyRequirementIsNotWidened()
    ensures CanActivate([], Some(UserMetadata("u@example.com", USER, 1)))
    ensures !CanActivate([ADMIN], Some(UserMetadata("u@example.com", USER, 1)))
  {
  }

  /** The account enable/disable routes require `[ADMIN]`: they admit exactly
      the ADMIN callers. */
  lemma AdminOnlyRoute(caller: Option<UserMetadata>)
    ensures CanActivate([ADMIN], caller) <==> caller.Some? && caller.value.role == ADMIN
  {
  }
}
