/** Who may see and change what: the visibility of a profile's collections,
    the owner-or-admin permission on recipes, the profile's `is_owner` flag
    and the profile update's username and picture handling. */
module Access {
  import opened Base

  const AdminsGroup: string := "Admins"

  /** The user behind a request. A profile's primary key is its user's id,
      so `user.profile == profile` is a comparison of ids. */
  datatype User = User(id: nat, authenticated: bool, superuser: bool, staff: bool, groups: set<string>)

  datatype Collection = Collection(id: nat, createdBy: nat, isPrivate: bool)

  predicate InAdmins(u: User) {
    AdminsGroup in u.groups
  }

  /** The requester sees private collections of `profile`: the owner, a
      superuser or a member of the Admins group, signed in. */
  predicate SeesPrivate(request: Option<User>, profile: nat) {
    request.Some? && request.value.authenticated
    && (request.value.id == profile || request.value.superuser || InAdmins(request.value))
  }

  function OwnedBy(profile: nat): Collection -> bool {
    (c: Collection) => c.createdBy == profile
  }

  function IsPublic(c: Collection): bool {
    !c.isPrivate
  }

  /** `get_owned_collections`: the collections `profile` created, all of
      them for a privileged requester and the public ones for anyone else
      (no request at all counts as anyone else). */
  function OwnedCollections(request: Option<User>, profile: nat, all: seq<Collection>): (r: seq<Collection>)
    ensures forall c :: c in r ==> c in all && c.createdBy == profile
  {
    var owned := Filter(all, OwnedBy(profile));
    if SeesPrivate(request, profile) then owned else Filter(owned, IsPublic)
  }

  /** A collection is listed exactly when the profile created it and it is
      public or the requester may see private ones. */
  lemma OwnedCollectionsIff(request: Option<User>, profile: nat, all: seq<Collection>, c: Collection)
    ensures c in OwnedCollections(request, profile, all)
        <==> c in all && c.createdBy == profile && (!c.isPrivate || SeesPrivate(request, profile))
  {
    var owned := Filter(all, OwnedBy(profile));
    assert c in owned <==> c in all && OwnedBy(profile)(c);
    if !SeesPrivate(request, profile) {
      assert c in Filter(owned, IsPublic) <==> c in owned && IsPublic(c);
    }
  }

  /** Without a signed-in requester, and for a signed-in one who is neither
      owner, superuser nor admin, exactly the public collections of the profile
      are listed, in their stored order. */
  lemma OthersSeePublicOnly(request: Option<User>, profile: nat, all: seq<Collection>)
    requires request.None? || !request.value.authenticated
             || (request.value.id != profile && !request.value.superuser && !InAdmins(request.value))
    ensures OwnedCollections(request, profile, all) == Filter(Filter(all, OwnedBy(profile)), IsPublic)
  {
  }

  /** The owner, a superuser or an admin sees every collection the profile
      created, private ones included. */
  lemma PrivilegedSeeAll(u: User, profile: nat, all: seq<Collection>)
    requires u.authenticated && (u.id == profile || u.superuser || InAdmins(u))
    ensures OwnedCollections(Some(u), profile, all) == Filter(all, OwnedBy(profile))
  {
  }

  /** What the requester sees is always contained in what the owner sees. */
  lemma VisibleToOwnerToo(request: Option<User>, owner: User, all: seq<Collection>, c: Collection)
    requires owner.authenticated
    requires c in OwnedCollections(request, owner.id, all)
    ensures c in OwnedCollections(Some(owner), owner.id, all)
  {
    OwnedCollectionsIff(request, owner.id, all, c);
    OwnedCollectionsIff(Some(owner), owner.id, all, c);
  }

  // ---------------------------------------------------------------- permission

  /** A permission check either answers or fails with an exception. */
  datatype Verdict = Granted | Denied | Crashed

  /** `IsOwnerOrAdmin.has_object_permission` for an object whose creator's
      user id is `creator`. An anonymous requester is never staff, belongs to
      no group and is no profile's user, so only a signed-in user is granted.
      A recipe's creator is set to null when the profile is deleted; reading
      `.user` of it then raises, for anyone who is not staff or an admin. */
  function OwnerOrAdmin(u: User, creator: Option<nat>): (v: Verdict)
    ensures u.authenticated && (u.staff || InAdmins(u)) ==> v == Granted
    ensures !(u.authenticated && (u.staff || InAdmins(u))) ==>
              (v == Crashed <==> creator.None?)
              && (v == Granted <==> u.authenticated && creator == Some(u.id))
  {
    if u.authenticated && (u.staff || InAdmins(u)) then Granted
    else if creator.None? then Crashed
    else if u.authenticated && creator.value == u.id then Granted
    else Denied
  }

  /** Only owners and admins are let through: a granted user is signed in
      and is staff, in the Admins group, or the creator. */
  lemma OnlyOwnersOrAdmins(u: User, creator: Option<nat>)
    ensures OwnerOrAdmin(u, creator) == Granted
        <==> u.authenticated && (u.staff || InAdmins(u) || creator == Some(u.id))
  {
  }

  /** `ProfileSerializer.get_is_owner`; the permission test it calls
      (`is_allowed`) is not part of this model and is a parameter. */
  function ProfileIsOwner(request: Option<User>, profileUser: nat, isAllowed: (User, nat) -> bool): (b: bool)
    ensures request.None? || !request.value.authenticated ==> !b
    ensures b ==> isAllowed(request.value, profileUser)
  {
    request.Some? && request.value.authenticated && isAllowed(request.value, profileUser)
  }

  /** A signed-in requester's flag is exactly what the permission test says. */
  lemma SignedInIsOwner(u: User, profileUser: nat, isAllowed: (User, nat) -> bool)
    requires u.authenticated
    ensures ProfileIsOwner(Some(u), profileUser, isAllowed) == isAllowed(u, profileUser)
  {
  }

  // ---------------------------------------------------------------- profile update

  datatype Profile = Profile(user: nat, username: string, picture: string)

  /** Username failures of the profile update. */
  datatype ProfileError = UsernameTooLong | UsernameTaken

  /** The username column's length limit. */
  const UsernameMax: nat := 20

  /** `ProfileUpdateSerializer.update`: `username` is set when supplied, and
      `picture` replaces the current one unless it is missing or null (both
      `None`). `takenByOthers` holds the usernames of every other account. The
      whole update is one transaction, so a failure changes nothing. */
  function UpdateProfile(p: Profile, username: Option<string>, picture: Option<string>, takenByOthers: set<string>): (r: Result<Profile, ProfileError>)
    ensures r.Err? <==> username.Some? && (|username.value| > UsernameMax || username.value in takenByOthers)
    ensures r.Err? ==> (r.error == UsernameTooLong <==> |username.value| > UsernameMax)
    ensures r.Ok? ==> r.value.user == p.user
    ensures r.Ok? ==> r.value.username == (if username.Some? then username.value else p.username)
    ensures r.Ok? ==> r.value.picture == (if picture.Some? then picture.value else p.picture)
  {
    if username.Some? && |username.value| > UsernameMax then Err(UsernameTooLong)
    else if username.Some? && username.value in takenByOthers then Err(UsernameTaken)
    else
      var named := if username.Some? then p.(username := username.value) else p;
      Ok(if picture.Some? then named.(picture := picture.value) else named)
  }

  /** A null or missing picture keeps the stored one, and an update carrying
      neither a username nor a picture leaves the profile as it is. */
  lemma NullPictureKept(p: Profile, username: Option<string>, takenByOthers: set<string>)
    requires UpdateProfile(p, username, None, takenByOthers).Ok?
    ensures UpdateProfile(p, username, None, takenByOthers).value.picture == p.picture
    ensures UpdateProfile(p, None, None, takenByOthers) == Ok(p)
  {
  }
}
