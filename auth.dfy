/** auth.ts: the signed-in user's view (account merged with profile, or
    with default profile values) and the mutation that creates the profile. */
module Auth {
  import opened Schema
  import opened Queries

  /** What loggedInUser returns: the account's id and fields, then the
      profile's fields without its own id and userId. */
  datatype CurrentUser = CurrentUser(
    id: UserId,
    name: Option<string>,
    email: Option<string>,
    isAnonymous: Option<bool>,
    role: Role,
    mode: Mode,
    totalPoints: int,
    level: int,
    preferences: Preferences)

  /** The profile createUserProfile inserts, and whose values loggedInUser
      shows while no profile exists. */
  function DefaultProfile(uid: UserId): UserProfile
  {
    UserProfile(uid, Resident, Adult, 0, 1, Preferences(true, Light))
  }

  function WithProfile(uid: UserId, user: User, profile: UserProfile): CurrentUser
  {
    CurrentUser(uid, user.name, user.email, user.isAnonymous,
                profile.role, profile.mode, profile.totalPoints, profile.level, profile.preferences)
  }

  /** The `by_user` lookup with `.unique()`: no profile, the one profile, or
      an error when more than one profile belongs to the user. */
  function UniqueProfile(profiles: seq<UserProfile>, uid: UserId): (r: Result<Option<Doc<UserProfile>>>)
    ensures r == Ok(None) <==> forall i :: 0 <= i < |profiles| ==> profiles[i].userId != uid
    ensures r.Ok? && r.value.Some? ==>
      && r.value.value.id < |profiles|
      && profiles[r.value.value.id] == r.value.value.value
      && r.value.value.value.userId == uid
      && forall i :: 0 <= i < |profiles| && profiles[i].userId == uid ==> i == r.value.value.id
    ensures r.Err? ==>
      && r.error == ProfileNotUnique
      && exists i, j :: 0 <= i < j < |profiles| && profiles[i].userId == uid && profiles[j].userId == uid
  {
    var found := OldestFirst(profiles, (p: UserProfile) => p.userId == uid, |profiles|);
    if |found| == 0 then
      Ok(None)
    else if |found| == 1 then
      assert forall i :: 0 <= i < |profiles| && profiles[i].userId == uid ==> found[0] == Doc(i, profiles[i]);
      Ok(Some(found[0]))
    else
      assert found[0].id < found[1].id;
      Err(ProfileNotUnique)
  }

  /** loggedInUser, over the users and userProfiles tables: null without a
      caller or without an account; otherwise the account merged with its
      profile, or with the default values when there is no profile. */
  function LoggedInUser(users: map<UserId, User>, profiles: seq<UserProfile>, caller: Option<UserId>)
    : (r: Result<Option<CurrentUser>>)
    ensures r == Ok(None) <==> caller.None? || caller.value !in users
    ensures r.Ok? && r.value.Some? ==>
      && caller.Some? && caller.value in users
      && r.value.value.id == caller.value
      && r.value.value.name == users[caller.value].name
      && r.value.value.email == users[caller.value].email
      && r.value.value.isAnonymous == users[caller.value].isAnonymous
    ensures r.Ok? && r.value.Some? ==>
      forall i :: 0 <= i < |profiles| && profiles[i].userId == caller.value ==>
        && r.value.value.role == profiles[i].role
        && r.value.value.mode == profiles[i].mode
        && r.value.value.totalPoints == profiles[i].totalPoints
        && r.value.value.level == profiles[i].level
        && r.value.value.preferences == profiles[i].preferences
    ensures r.Ok? && r.value.Some? && (forall i :: 0 <= i < |profiles| ==> profiles[i].userId != caller.value) ==>
      && r.value.value.role == Resident
      && r.value.value.mode == Adult
      && r.value.value.totalPoints == 0
      && r.value.value.level == 1
      && r.value.value.preferences == Preferences(true, Light)
    ensures r.Err? ==> r.error == ProfileNotUnique && UniqueProfile(profiles, caller.value).Err?
    ensures caller.Some? && caller.value in users && UniqueProfile(profiles, caller.value).Err? ==>
              r == Err(ProfileNotUnique)
  {
    match caller
    case None => Ok(None)
    case Some(uid) =>
      if uid !in users then Ok(None)
      else
        match UniqueProfile(profiles, uid)
        case Err(e) => Err(e)
        case Ok(None) => Ok(Some(WithProfile(uid, users[uid], DefaultProfile(uid))))
        case Ok(Some(doc)) => Ok(Some(WithProfile(uid, users[uid], doc.value)))
  }

  /** createUserProfile: the caller's existing profile if there is one,
      otherwise a newly inserted default profile. */
  method CreateUserProfile(db: Store, caller: Option<UserId>) returns (r: Result<Doc<UserProfile>>)
    modifies db`userProfiles
    ensures caller.None? ==> r == Err(NotAuthenticated) && db.userProfiles == old(db.userProfiles)
    ensures caller.Some? ==>
      match UniqueProfile(old(db.userProfiles), caller.value)
      case Err(e) => r == Err(e) && db.userProfiles == old(db.userProfiles)
      case Ok(Some(doc)) => r == Ok(doc) && db.userProfiles == old(db.userProfiles)
      case Ok(None) =>
        && r == Ok(Doc(|old(db.userProfiles)|, DefaultProfile(caller.value)))
        && db.userProfiles == old(db.userProfiles) + [DefaultProfile(caller.value)]
    ensures r.Ok? ==> UniqueProfile(db.userProfiles, caller.value) == Ok(Some(r.value))
    ensures OneProfilePerUser(old(db.userProfiles)) ==> OneProfilePerUser(db.userProfiles)
  {
    if caller.None? {
      return Err(NotAuthenticated);
    }
    var uid := caller.value;
    var existing := UniqueProfile(db.userProfiles, uid);
    match existing {
      case Err(e) =>
        r := Err(e);
      case Ok(Some(doc)) =>
        r := Ok(doc);
        UniqueOfFound(db.userProfiles, uid, doc);
      case Ok(None) =>
        var id := |db.userProfiles|;
        db.userProfiles := db.userProfiles + [DefaultProfile(uid)];
        r := Ok(Doc(id, DefaultProfile(uid)));
        UniqueOfFound(db.userProfiles, uid, r.value);
    }
  }

  /** A document that is the user's only profile is what the lookup returns. */
  lemma UniqueOfFound(profiles: seq<UserProfile>, uid: UserId, doc: Doc<UserProfile>)
    requires doc.id < |profiles| && profiles[doc.id] == doc.value && doc.value.userId == uid
    requires forall i :: 0 <= i < |profiles| && profiles[i].userId == uid ==> i == doc.id
    ensures UniqueProfile(profiles, uid) == Ok(Some(doc))
  {
  }

  /** Creating the default profile does not change what loggedInUser shows:
      the defaults it shows without a profile are the inserted profile's. */
  lemma {:induction false} CreatingProfileKeepsView(users: map<UserId, User>, profiles: seq<UserProfile>, uid: UserId)
    requires UniqueProfile(profiles, uid) == Ok(None)
    ensures LoggedInUser(users, profiles + [DefaultProfile(uid)], Some(uid)) == LoggedInUser(users, profiles, Some(uid))
  {
    var after := profiles + [DefaultProfile(uid)];
    UniqueOfFound(after, uid, Doc(|profiles|, DefaultProfile(uid)));
  }

  /** While every user has at most one profile, loggedInUser never fails. */
  lemma OneProfileNeverFails(users: map<UserId, User>, profiles: seq<UserProfile>, caller: Option<UserId>)
    requires OneProfilePerUser(profiles)
    ensures LoggedInUser(users, profiles, caller).Ok?
  {
  }
}
