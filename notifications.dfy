/** notifications.ts: a user's notification feed, marking one read, creating
    one, the daily reminder fan-out and the join of profiles with accounts. */
module Notifications {
  import opened Schema
  import opened Queries

  /** How many notifications the feed returns at most. */
  const FeedSize: nat := 20

  /** getUserNotifications: nothing without a caller; otherwise the caller's
      newest notifications, newest first, at most 20 of them. Every one of the
      caller's notifications left out is older than all that are returned. */
  function UserNotifications(db: Store, caller: Option<UserId>): (r: seq<Doc<Notification>>)
    reads db
    ensures caller.None? ==> r == []
    ensures caller.Some? ==>
      && |r| <= FeedSize
      && (forall k :: 0 <= k < |r| ==>
            r[k].id < |db.notifications| && db.notifications[r[k].id] == r[k].value && r[k].value.userId == caller.value)
      && (forall k, l :: 0 <= k < l < |r| ==> r[k].id > r[l].id)
      && (forall i :: 0 <= i < |db.notifications| && db.notifications[i].userId == caller.value ==>
            Doc(i, db.notifications[i]) in r || (|r| == FeedSize && i < r[FeedSize - 1].id))
  {
    match caller
    case None => []
    case Some(uid) =>
      var all := NewestFirst(db.notifications, (n: Notification) => n.userId == uid, 0);
      var r := Take(all, FeedSize);
      assert forall i :: 0 <= i < |db.notifications| && db.notifications[i].userId == uid ==>
               Doc(i, db.notifications[i]) in r || (|r| == FeedSize && i < r[FeedSize - 1].id) by {
        forall i | 0 <= i < |db.notifications| && db.notifications[i].userId == uid {
          TakeDropsOnlyOlder(all, FeedSize, Doc(i, db.notifications[i]));
        }
      }
      r
  }

  /** markNotificationRead: the caller marks one of their own notifications
      read. Marking an already read notification changes nothing, so a second
      call is the same as one. */
  method MarkNotificationRead(db: Store, caller: Option<UserId>, notificationId: nat) returns (r: Result<()>)
    modifies db`notifications
    ensures caller.None? ==> r == Err(NotAuthenticated)
    ensures caller.Some? && (notificationId >= |old(db.notifications)|
                             || old(db.notifications)[notificationId].userId != caller.value) ==>
              r == Err(NotificationNotFound)
    ensures r.Err? ==> db.notifications == old(db.notifications)
    ensures caller.Some? && notificationId < |old(db.notifications)|
            && old(db.notifications)[notificationId].userId == caller.value ==>
              && r == Ok(())
              && db.notifications == old(db.notifications)[notificationId := old(db.notifications)[notificationId].(read := true)]
    ensures r.Ok? && old(db.notifications)[notificationId].read ==> db.notifications == old(db.notifications)
  {
    if caller.None? {
      return Err(NotAuthenticated);
    }
    if notificationId >= |db.notifications| || db.notifications[notificationId].userId != caller.value {
      return Err(NotificationNotFound);
    }
    db.notifications := db.notifications[notificationId := db.notifications[notificationId].(read := true)];
    r := Ok(());
  }

  /** createNotification: inserts one unread notification with the given
      fields and returns its id. It checks neither the caller nor the user. */
  method CreateNotification(db: Store, userId: UserId, title: string, message: string, kind: NotificationType)
    returns (id: nat)
    modifies db`notifications
    ensures id == |old(db.notifications)|
    ensures db.notifications == old(db.notifications) + [Notification(userId, title, message, kind, false, None)]
  {
    id := |db.notifications|;
    db.notifications := db.notifications + [Notification(userId, title, message, kind, false, None)];
  }

  /** The record `{ ...user, ...profile }`: account fields, then the profile's
      fields, which win where both have one. */
  datatype ActiveUser = ActiveUser(
    name: Option<string>,
    email: Option<string>,
    isAnonymous: Option<bool>,
    userId: UserId,
    role: Role,
    mode: Mode,
    totalPoints: int,
    level: int,
    preferences: Preferences)

  function Merge(user: User, profile: UserProfile): ActiveUser
  {
    ActiveUser(user.name, user.email, user.isAnonymous,
               profile.userId, profile.role, profile.mode, profile.totalPoints, profile.level, profile.preferences)
  }

  /** The users getActiveUsers lists: one merged record per profile whose
      account exists, in profile order. */
  function ActiveUsersOf(users: map<UserId, User>, profiles: seq<UserProfile>): (r: seq<ActiveUser>)
    ensures |r| <= |profiles|
  {
    if profiles == [] then []
    else
      var last := profiles[|profiles| - 1];
      var before := ActiveUsersOf(users, profiles[..|profiles| - 1]);
      assert profiles == profiles[..|profiles| - 1] + [last];
      if last.userId in users then before + [Merge(users[last.userId], last)] else before
  }

  /** Exactly the profiles with an account appear, merged with that account. */
  lemma {:induction false} ActiveUsersMembers(users: map<UserId, User>, profiles: seq<UserProfile>)
    ensures forall a :: a in ActiveUsersOf(users, profiles) ==>
              exists p :: p in profiles && p.userId in users && a == Merge(users[p.userId], p)
    ensures forall p :: p in profiles && p.userId in users ==> Merge(users[p.userId], p) in ActiveUsersOf(users, profiles)
  {
    if profiles != [] {
      var rest := profiles[..|profiles| - 1];
      ActiveUsersMembers(users, rest);
      assert profiles == rest + [profiles[|profiles| - 1]];
    }
  }

  /** The join keeps profile order: joining a split table is joining the parts. */
  lemma {:induction false} ActiveUsersAppend(users: map<UserId, User>, a: seq<UserProfile>, b: seq<UserProfile>)
    ensures ActiveUsersOf(users, a + b) == ActiveUsersOf(users, a) + ActiveUsersOf(users, b)
    decreases |b|
  {
    if b == [] {
      assert a + b == a;
    } else {
      var b' := b[..|b| - 1];
      assert (a + b)[..|a + b| - 1] == a + b';
      assert (a + b)[|a + b| - 1] == b[|b| - 1];
      ActiveUsersAppend(users, a, b');
    }
  }

  /** getActiveUsers: the loop that pushes one merged record per profile whose
      account exists. */
  method ActiveUsers(db: Store) returns (r: seq<ActiveUser>)
    ensures r == ActiveUsersOf(db.users, db.userProfiles)
  {
    var profiles := db.userProfiles;
    r := [];
    for i := 0 to |profiles|
      invariant r == ActiveUsersOf(db.users, profiles[..i])
    {
      var profile := profiles[i];
      assert profiles[..i + 1][..i] == profiles[..i];
      if profile.userId in db.users {
        r := r + [Merge(db.users[profile.userId], profile)];
      }
    }
    assert profiles[..|profiles|] == profiles;
  }

  /** The reminder texts, character for character as the source file holds
      them (its emoji were stored mis-encoded). */
  const DailyReminders: seq<string> := [
    "Don't forget to segregate your waste today! \U{00F0}\U{0178}\U{0152}\U{00B1}",
    "Today is a great day to make a difference - log your waste! \U{00E2}\U{2122}\U{00BB}\U{00EF}\U{00B8}",
    "Remember: Every piece of waste sorted helps our planet! \U{00F0}\U{0178}\U{0152}"
  ]

  /** The users who get a reminder, in order: those whose preferences allow
      notifications. */
  function Recipients(active: seq<ActiveUser>): (r: seq<UserId>)
    ensures |r| <= |active|
    ensures forall u :: u in r <==> exists a :: a in active && a.preferences.notifications && a.userId == u
  {
    if active == [] then []
    else
      var last := active[|active| - 1];
      var before := Recipients(active[..|active| - 1]);
      assert active == active[..|active| - 1] + [last];
      if last.preferences.notifications then before + [last.userId] else before
  }

  /** A user gets a daily reminder exactly when a profile of theirs allows
      notifications and their account exists; a user without a profile
      gets none. */
  lemma RemindedExactly(users: map<UserId, User>, profiles: seq<UserProfile>, u: UserId)
    ensures u in Recipients(ActiveUsersOf(users, profiles)) <==>
              u in users && exists p :: p in profiles && p.userId == u && p.preferences.notifications
  {
    ActiveUsersMembers(users, profiles);
    if u in users && exists p :: p in profiles && p.userId == u && p.preferences.notifications {
      var p :| p in profiles && p.userId == u && p.preferences.notifications;
      assert Merge(users[u], p) in ActiveUsersOf(users, profiles);
    }
  }

  predicate NoDuplicates(ids: seq<UserId>)
  {
    forall i, j :: 0 <= i < j < |ids| ==> ids[i] != ids[j]
  }

  /** With one profile per user, nobody is sent two reminders. */
  lemma {:induction false} OneReminderPerUser(users: map<UserId, User>, profiles: seq<UserProfile>)
    requires OneProfilePerUser(profiles)
    ensures NoDuplicates(Recipients(ActiveUsersOf(users, profiles)))
  {
    if profiles != [] {
      var last := profiles[|profiles| - 1];
      var rest := profiles[..|profiles| - 1];
      OneReminderPerUser(users, rest);
      ActiveUsersAppend(users, rest, [last]);
      assert rest + [last] == profiles;
      var before := ActiveUsersOf(users, rest);
      if last.userId in users && last.preferences.notifications {
        assert ActiveUsersOf(users, [last]) == [Merge(users[last.userId], last)] by {
          assert [last][..0] == [];
        }
        assert Recipients(before + [Merge(users[last.userId], last)]) == Recipients(before) + [last.userId] by {
          assert (before + [Merge(users[last.userId], last)])[..|before|] == before;
        }
        ActiveUsersMembers(users, rest);
        assert last.userId !in Recipients(before);
      }
    }
  }

  /** A reminder as sendDailyReminders creates it for `uid`. */
  predicate IsDailyReminder(n: Notification, uid: UserId)
  {
    && n.userId == uid
    && n.title == "Daily Reminder"
    && n.message in DailyReminders
    && n.kind == Reminder
    && !n.read
    && n.scheduledFor == None
  }

  /** sendDailyReminders: one unread "Daily Reminder" per active user who
      accepts notifications, in the order getActiveUsers lists them, and none
      for anyone else. The text is a random choice among the three. */
  method SendDailyReminders(db: Store)
    modifies db`notifications
    ensures var recipients := Recipients(ActiveUsersOf(db.users, db.userProfiles));
      && |db.notifications| == |old(db.notifications)| + |recipients|
      && db.notifications[..|old(db.notifications)|] == old(db.notifications)
      && forall k :: 0 <= k < |recipients| ==> IsDailyReminder(db.notifications[|old(db.notifications)| + k], recipients[k])
  {
    var users := ActiveUsers(db);
    var reminders := DailyReminders;
    ghost var before := db.notifications;
    for i := 0 to |users|
      invariant |db.notifications| == |before| + |Recipients(users[..i])|
      invariant db.notifications[..|before|] == before
      invariant forall k :: 0 <= k < |Recipients(users[..i])| ==>
                  IsDailyReminder(db.notifications[|before| + k], Recipients(users[..i])[k])
    {
      var user := users[i];
      assert users[..i + 1][..i] == users[..i];
      if user.preferences.notifications {
        var pick :| 0 <= pick < |reminders|;
        var id := CreateNotification(db, user.userId, "Daily Reminder", reminders[pick], Reminder);
      }
    }
    assert users[..|users|] == users;
  }
}
