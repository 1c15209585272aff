/** rewards.ts: listing a user's rewards, claiming one, and the achievement
    evaluator that grants each milestone reward at most once. */
module Rewards {
  import opened Schema
  import opened Queries
  import opened WasteTotals

  /** getUserRewards: nothing without a caller; otherwise every reward of the
      caller, newest first, and no one else's. */
  function UserRewards(db: Store, caller: Option<UserId>): (r: seq<Doc<Reward>>)
    reads db
    ensures caller.None? ==> r == []
    ensures caller.Some? ==>
      && (forall k :: 0 <= k < |r| ==>
            r[k].id < |db.rewards| && db.rewards[r[k].id] == r[k].value && r[k].value.userId == caller.value)
      && (forall k, l :: 0 <= k < l < |r| ==> r[k].id > r[l].id)
      && (forall i :: 0 <= i < |db.rewards| && db.rewards[i].userId == caller.value ==> Doc(i, db.rewards[i]) in r)
  {
    match caller
    case None => []
    case Some(uid) => NewestFirst(db.rewards, (w: Reward) => w.userId == uid, 0)
  }

  /** claimReward: the caller claims one of their own unclaimed rewards. The
      only change is that reward's `claimed` flag, and the record returned is
      the one read before the patch. */
  method ClaimReward(db: Store, caller: Option<UserId>, rewardId: nat) returns (r: Result<Doc<Reward>>)
    modifies db`rewards
    ensures caller.None? ==> r == Err(NotAuthenticated)
    ensures caller.Some? && (rewardId >= |old(db.rewards)| || old(db.rewards)[rewardId].userId != caller.value) ==>
              r == Err(RewardNotFound)
    ensures caller.Some? && rewardId < |old(db.rewards)| && old(db.rewards)[rewardId].userId == caller.value ==>
              if old(db.rewards)[rewardId].claimed then r == Err(RewardAlreadyClaimed)
              else r == Ok(Doc(rewardId, old(db.rewards)[rewardId]))
    ensures r.Err? ==> db.rewards == old(db.rewards)
    ensures r.Ok? ==>
      && !r.value.value.claimed
      && db.rewards == old(db.rewards)[rewardId := old(db.rewards)[rewardId].(claimed := true)]
    // a claimed reward stays claimed
    ensures |db.rewards| == |old(db.rewards)|
    ensures forall i :: 0 <= i < |db.rewards| && old(db.rewards)[i].claimed ==> db.rewards[i] == old(db.rewards)[i]
  {
    if caller.None? {
      return Err(NotAuthenticated);
    }
    if rewardId >= |db.rewards| || db.rewards[rewardId].userId != caller.value {
      return Err(RewardNotFound);
    }
    var reward := db.rewards[rewardId];
    if reward.claimed {
      return Err(RewardAlreadyClaimed);
    }
    db.rewards := db.rewards[rewardId := reward.(claimed := true)];
    r := Ok(Doc(rewardId, reward));
  }

  /** The aggregates the rule conditions read. */
  datatype Totals = Totals(entries: nat, weight: real, points: int)

  /** The totals over the entries `uid` has logged: the count is positive
      exactly when the user has logged something, and with no negative
      weights the weight total is at least each of the user's entries. */
  function TotalsOf(entries: seq<WasteEntry>, uid: UserId): (t: Totals)
    ensures t.entries <= |entries|
    ensures t.entries > 0 <==> exists i :: 0 <= i < |entries| && entries[i].userId == uid
    ensures (forall i :: 0 <= i < |entries| ==> entries[i].weight >= 0.0) ==>
              forall i :: 0 <= i < |entries| && entries[i].userId == uid ==> entries[i].weight <= t.weight
  {
    var mine := EntriesOf(entries, uid);
    assert (exists i :: 0 <= i < |entries| && entries[i].userId == uid) ==> |mine| > 0 by {
      if exists i :: 0 <= i < |entries| && entries[i].userId == uid {
        var i :| 0 <= i < |entries| && entries[i].userId == uid;
        assert entries[i] in mine;
      }
    }
    assert |mine| == 0 || mine[0] in entries;
    assert (forall i :: 0 <= i < |entries| ==> entries[i].weight >= 0.0) ==>
             forall i :: 0 <= i < |entries| && entries[i].userId == uid ==> entries[i].weight <= TotalWeight(mine) by {
      if forall i :: 0 <= i < |entries| ==> entries[i].weight >= 0.0 {
        TotalWeightBounds(mine);
        forall i | 0 <= i < |entries| && entries[i].userId == uid
          ensures entries[i].weight <= TotalWeight(mine)
        {
          assert entries[i] in mine;
        }
      }
    }
    Totals(|mine|, TotalWeight(mine), TotalPoints(mine))
  }

  datatype Condition = MinEntries(count: nat) | MinWeight(kg: real) | MinPoints(points: int)

  predicate Holds(c: Condition, t: Totals)
  {
    match c
    case MinEntries(n) => t.entries >= n
    case MinWeight(kg) => t.weight >= kg
    case MinPoints(p) => t.points >= p
  }

  /** One row of the achievement table: a condition and the reward it grants. */
  datatype Rule = Rule(condition: Condition, title: string, description: string, points: int, category: RewardCategory)

  /** The achievement table, in the order the evaluator walks it. */
  const AchievementRules: seq<Rule> := [
    Rule(MinEntries(1), "First Steps", "Logged your first waste entry!", 50, Milestone),
    Rule(MinEntries(10), "Getting Started", "Logged 10 waste entries!", 100, Milestone),
    Rule(MinEntries(50), "Eco Warrior", "Logged 50 waste entries!", 250, Milestone),
    Rule(MinWeight(10.0), "10kg Milestone", "Sorted 10kg of waste!", 200, Milestone),
    Rule(MinPoints(1000), "Point Master", "Earned 1000 points!", 300, Milestone)
  ]

  predicate DistinctTitles(rules: seq<Rule>)
  {
    forall i, j :: 0 <= i < j < |rules| ==> rules[i].title != rules[j].title
  }

  lemma AchievementTitlesDistinct()
    ensures DistinctTitles(AchievementRules)
  {
  }

  /** Whether `uid` already holds a reward titled `title`, claimed or not. */
  predicate HasReward(rewards: seq<Reward>, uid: UserId, title: string)
  {
    exists i :: 0 <= i < |rewards| && rewards[i].userId == uid && rewards[i].title == title
  }

  /** The reward a rule grants: unclaimed. */
  function Granted(uid: UserId, rule: Rule): Reward
  {
    Reward(uid, rule.title, rule.description, rule.points, rule.category, false)
  }

  /** The notification that announces a granted reward. */
  function Announcement(uid: UserId, rule: Rule): Notification
  {
    Notification(uid, "Achievement Unlocked!", "You earned \"" + rule.title + "\" - " + rule.description,
                 Achievement, false, None)
  }

  predicate IndicesBelow(idx: seq<nat>, n: nat)
  {
    forall k :: 0 <= k < |idx| ==> idx[k] < n
  }

  function GrantedFor(uid: UserId, rules: seq<Rule>, idx: seq<nat>): seq<Reward>
    requires IndicesBelow(idx, |rules|)
  {
    seq(|idx|, k requires 0 <= k < |idx| => Granted(uid, rules[idx[k]]))
  }

  function AnnouncedFor(uid: UserId, rules: seq<Rule>, idx: seq<nat>): seq<Notification>
    requires IndicesBelow(idx, |rules|)
  {
    seq(|idx|, k requires 0 <= k < |idx| => Announcement(uid, rules[idx[k]]))
  }

  /** The positions in `rules[..n]` for which the evaluator's loop inserts a
      reward, in insertion order: a rule that holds and whose title the user
      does not hold in the rewards table as it stands when the loop reaches it
      (including the rewards inserted for earlier rules of the same pass). */
  function Unlocks(uid: UserId, held: seq<Reward>, rules: seq<Rule>, t: Totals, n: nat): (idx: seq<nat>)
    requires n <= |rules|
    ensures IndicesBelow(idx, n)
    ensures forall k, l :: 0 <= k < l < |idx| ==> idx[k] < idx[l]
    decreases n
  {
    if n == 0 then []
    else
      var before := Unlocks(uid, held, rules, t, n - 1);
      var rule := rules[n - 1];
      if Holds(rule.condition, t) && !HasReward(held + GrantedFor(uid, rules, before), uid, rule.title)
      then before + [n - 1]
      else before
  }

  /** checkAchievements: a user with no account record changes nothing;
      otherwise the rewards and notifications tables each grow by exactly
      the rewards `Unlocks` selects and one announcement per reward. */
  method CheckAchievements(db: Store, uid: UserId)
    modifies db`rewards, db`notifications
    ensures uid !in db.users ==> db.rewards == old(db.rewards) && db.notifications == old(db.notifications)
    ensures uid in db.users ==>
      var idx := Unlocks(uid, old(db.rewards), AchievementRules, TotalsOf(db.wasteEntries, uid), |AchievementRules|);
      && db.rewards == old(db.rewards) + GrantedFor(uid, AchievementRules, idx)
      && db.notifications == old(db.notifications) + AnnouncedFor(uid, AchievementRules, idx)
  {
    if uid !in db.users {
      return;
    }
    var totals := TotalsOf(db.wasteEntries, uid);
    GrantAchievements(db, uid, AchievementRules, totals);
  }

  /** The loop of checkAchievements over the rules, for given totals. */
  method GrantAchievements(db: Store, uid: UserId, rules: seq<Rule>, totals: Totals)
    modifies db`rewards, db`notifications
    ensures var idx := Unlocks(uid, old(db.rewards), rules, totals, |rules|);
      && db.rewards == old(db.rewards) + GrantedFor(uid, rules, idx)
      && db.notifications == old(db.notifications) + AnnouncedFor(uid, rules, idx)
  {
    ghost var held, notes := db.rewards, db.notifications;
    for n := 0 to |rules|
      invariant db.rewards == held + GrantedFor(uid, rules, Unlocks(uid, held, rules, totals, n))
      invariant db.notifications == notes + AnnouncedFor(uid, rules, Unlocks(uid, held, rules, totals, n))
    {
      ghost var before := Unlocks(uid, held, rules, totals, n);
      var rule := rules[n];
      if Holds(rule.condition, totals) {
        if !HasReward(db.rewards, uid, rule.title) {
          db.rewards := db.rewards + [Granted(uid, rule)];
          db.notifications := db.notifications + [Announcement(uid, rule)];
          assert GrantedFor(uid, rules, before + [n]) == GrantedFor(uid, rules, before) + [Granted(uid, rule)];
          assert AnnouncedFor(uid, rules, before + [n]) == AnnouncedFor(uid, rules, before) + [Announcement(uid, rule)];
        }
      }
    }
  }

  lemma HasRewardAppend(a: seq<Reward>, b: seq<Reward>, uid: UserId, title: string)
    ensures HasReward(a + b, uid, title) <==> HasReward(a, uid, title) || HasReward(b, uid, title)
  {
    if HasReward(a, uid, title) {
      var i :| 0 <= i < |a| && a[i].userId == uid && a[i].title == title;
      assert (a + b)[i] == a[i];
    }
    if HasReward(b, uid, title) {
      var i :| 0 <= i < |b| && b[i].userId == uid && b[i].title == title;
      assert (a + b)[|a| + i] == b[i];
    }
    if HasReward(a + b, uid, title) {
      var i :| 0 <= i < |a + b| && (a + b)[i].userId == uid && (a + b)[i].title == title;
      if i >= |a| {
        assert b[i - |a|] == (a + b)[i];
      }
    }
  }

  /** With distinct titles in the table, a rule is unlocked exactly when it
      holds and the user held no reward of that title before the pass: what
      the pass inserts earlier never blocks a later rule. */
  lemma {:induction false} UnlocksExactly(uid: UserId, held: seq<Reward>, rules: seq<Rule>, t: Totals, n: nat, i: nat)
    requires n <= |rules| && DistinctTitles(rules)
    ensures i in Unlocks(uid, held, rules, t, n) <==>
              i < n && Holds(rules[i].condition, t) && !HasReward(held, uid, rules[i].title)
    decreases n
  {
    if n > 0 {
      var before := Unlocks(uid, held, rules, t, n - 1);
      UnlocksExactly(uid, held, rules, t, n - 1, i);
      var rule := rules[n - 1];
      var granted := GrantedFor(uid, rules, before);
      HasRewardAppend(held, granted, uid, rule.title);
      EarlierGrantsLackTitle(uid, rules, before, n - 1);
      if i == n - 1 {
        assert i !in before;
      }
    }
  }

  /** Rewards granted for rules before position `m` never carry rule `m`'s
      title, since titles are distinct. */
  lemma EarlierGrantsLackTitle(uid: UserId, rules: seq<Rule>, idx: seq<nat>, m: nat)
    requires m < |rules| && DistinctTitles(rules) && IndicesBelow(idx, m)
    ensures !HasReward(GrantedFor(uid, rules, idx), uid, rules[m].title)
  {
    var granted := GrantedFor(uid, rules, idx);
    forall k | 0 <= k < |granted| ensures granted[k].title != rules[m].title {
      assert granted[k].title == rules[idx[k]].title;
    }
  }

  /** After the pass, every rule whose condition holds has a reward of its
      title for the user. */
  lemma CheckAchievementsCovers(uid: UserId, held: seq<Reward>, rules: seq<Rule>, t: Totals, i: nat)
    requires DistinctTitles(rules) && i < |rules| && Holds(rules[i].condition, t)
    ensures HasReward(held + GrantedFor(uid, rules, Unlocks(uid, held, rules, t, |rules|)), uid, rules[i].title)
  {
    var idx := Unlocks(uid, held, rules, t, |rules|);
    var granted := GrantedFor(uid, rules, idx);
    HasRewardAppend(held, granted, uid, rules[i].title);
    if !HasReward(held, uid, rules[i].title) {
      UnlocksExactly(uid, held, rules, t, |rules|, i);
      var k :| 0 <= k < |idx| && idx[k] == i;
      assert granted[k].userId == uid && granted[k].title == rules[i].title;
    }
  }

  /** A second pass over unchanged entries inserts nothing. */
  lemma CheckAchievementsIdempotent(uid: UserId, held: seq<Reward>, rules: seq<Rule>, t: Totals)
    requires DistinctTitles(rules)
    ensures Unlocks(uid, held + GrantedFor(uid, rules, Unlocks(uid, held, rules, t, |rules|)), rules, t, |rules|) == []
  {
    var after := held + GrantedFor(uid, rules, Unlocks(uid, held, rules, t, |rules|));
    var again := Unlocks(uid, after, rules, t, |rules|);
    if again != [] {
      var i := again[0];
      UnlocksExactly(uid, after, rules, t, |rules|, i);
      CheckAchievementsCovers(uid, held, rules, t, i);
      assert false;
    }
  }

  /** The evaluator never grants a title the user already holds, and each
      granted reward is unclaimed and announced by the notification at the
      same position. */
  lemma GrantsAreNewAndAnnounced(uid: UserId, held: seq<Reward>, rules: seq<Rule>, t: Totals)
    requires DistinctTitles(rules)
    ensures var idx := Unlocks(uid, held, rules, t, |rules|);
      var granted := GrantedFor(uid, rules, idx);
      var announced := AnnouncedFor(uid, rules, idx);
      && |granted| == |announced|
      && forall k :: 0 <= k < |granted| ==>
           && !HasReward(held, uid, granted[k].title)
           && Holds(rules[idx[k]].condition, t)
           && granted[k].userId == uid && !granted[k].claimed
           && announced[k].userId == uid && announced[k].kind == Achievement && !announced[k].read
           && announced[k].title == "Achievement Unlocked!"
           && announced[k].message == "You earned \"" + granted[k].title + "\" - " + granted[k].description
  {
    var idx := Unlocks(uid, held, rules, t, |rules|);
    forall k | 0 <= k < |idx|
      ensures !HasReward(held, uid, rules[idx[k]].title) && Holds(rules[idx[k]].condition, t)
    {
      UnlocksExactly(uid, held, rules, t, |rules|, idx[k]);
    }
  }

  /** At most one reward per user and title. */
  ghost predicate OneRewardPerTitle(rewards: seq<Reward>)
  {
    forall i, j :: 0 <= i < j < |rewards| && rewards[i].userId == rewards[j].userId ==> rewards[i].title != rewards[j].title
  }

  /** The evaluator keeps the one-reward-per-title invariant. */
  lemma CheckAchievementsKeepsOneRewardPerTitle(uid: UserId, held: seq<Reward>, rules: seq<Rule>, t: Totals)
    requires DistinctTitles(rules) && OneRewardPerTitle(held)
    ensures OneRewardPerTitle(held + GrantedFor(uid, rules, Unlocks(uid, held, rules, t, |rules|)))
  {
    var idx := Unlocks(uid, held, rules, t, |rules|);
    var granted := GrantedFor(uid, rules, idx);
    var all := held + granted;
    forall i, j | 0 <= i < j < |all| && all[i].userId == all[j].userId
      ensures all[i].title != all[j].title
    {
      if j >= |held| {
        var k := j - |held|;
        assert all[j] == granted[k];
        if i < |held| {
          UnlocksExactly(uid, held, rules, t, |rules|, idx[k]);
          assert held[i].userId == uid;
        } else {
          assert all[i] == granted[i - |held|];
        }
      }
    }
  }

  /** A user's first entry, with no reward yet and below the weight and
      point milestones, unlocks exactly "First Steps". */
  lemma FirstEntryUnlocksFirstSteps(uid: UserId, held: seq<Reward>, t: Totals)
    requires t.entries == 1 && t.weight < 10.0 && t.points < 1000
    requires forall i :: 0 <= i < |held| ==> held[i].userId != uid
    ensures GrantedFor(uid, AchievementRules, Unlocks(uid, held, AchievementRules, t, |AchievementRules|))
            == [Reward(uid, "First Steps", "Logged your first waste entry!", 50, Milestone, false)]
  {
    var rules := AchievementRules;
    AchievementTitlesDistinct();
    var idx := Unlocks(uid, held, rules, t, |rules|);
    UnlocksExactly(uid, held, rules, t, |rules|, 0);
    forall k | 0 <= k < |idx| ensures idx[k] == 0 {
      UnlocksExactly(uid, held, rules, t, |rules|, idx[k]);
    }
    IncreasingGrows(idx, |idx| - 1);
    assert idx == [0];
  }

  /** A single entry of at least 10 kg earns the user the "10kg Milestone"
      in the next pass, when no logged weight is negative. */
  lemma HeavyEntryEarnsWeightMilestone(entries: seq<WasteEntry>, uid: UserId, held: seq<Reward>, i: nat)
    requires i < |entries| && entries[i].userId == uid && entries[i].weight >= 10.0
    requires forall j :: 0 <= j < |entries| ==> entries[j].weight >= 0.0
    ensures var t := TotalsOf(entries, uid);
      HasReward(held + GrantedFor(uid, AchievementRules, Unlocks(uid, held, AchievementRules, t, |AchievementRules|)),
                uid, "10kg Milestone")
  {
    var rules := AchievementRules;
    AchievementTitlesDistinct();
    assert rules[3].condition == MinWeight(10.0) && rules[3].title == "10kg Milestone";
    CheckAchievementsCovers(uid, held, rules, TotalsOf(entries, uid), 3);
  }
}
