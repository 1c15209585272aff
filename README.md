# Waste management backend: a verified model

This project models the server functions of a waste-management app. The app
has six groups of server functions:

- rewards: listing and claiming rewards, and the milestone evaluator that grants achievements;
- bins: a bin's fill level and status, and the seeding of sensor bins;
- notifications: the feed, marking a notification read, creating one, daily reminders and the list of active users;
- auth: the signed-in user's view and profile creation;
- eco facts: picking a random eco fact and seeding the fact table;
- ai: storing classifier samples, classifier statistics and the insights generated from waste entries.

The database is a `Store` object with one field per table (`schema.dfy`).
Every table except `users` is a sequence, and a document's id is its
position in it. Documents are only ever inserted or patched, never deleted.
`users` is a map from account id to account.

- Queries are functions that read the store.
- Mutations are methods that modify exactly the tables they write. Each states the whole new table in terms of the old one.
- The authenticated caller is a parameter `caller: Option<UserId>`. `None` means no one is signed in.
- A thrown error becomes `Err(e)` of a `Result`, and the tables stay unchanged.
- Random choices (`Math.random`) are arbitrary choices within the same bounds as the source, and `Date.now()` is the parameter `now`.

Modules:

- `Schema`: the records and enumerations of the database schema.
- `Queries`: index scans in either order, and `.take(n)`.
- `WasteTotals`: per-user entries and the sums over them.
- `Rewards`, `Bins`, `Notifications`, `Auth`, `EcoFacts`, `Ai`: one module per server file.

Properties proved:

- A user's reward and notification lists hold exactly that user's documents, newest first. The notification list keeps at most 20 and leaves out only older ones.
- Claiming succeeds exactly once per reward.
- The achievement evaluator grants a reward exactly when its rule holds and the user does not already hold that title. It never creates a second reward with the same title, and a second run grants nothing.
- A bin's status moves up monotonically with its fill level, at the 75% and 90% thresholds.
- The 30 seeded bins all have distinct sensor ids.
- The daily reminder fan-out reaches exactly once each user whose profile accepts notifications and whose account exists, provided every user has at most one profile. A user with an account but no profile gets no reminder.
- Creating a profile leaves the signed-in view unchanged.
- A random eco fact is returned exactly when some fact matches the filters.
- The classifier statistics count every sample, per type.
- The "most logged" waste type of the insights is a type with the highest count. Among tied types it is the one that appears first in the entry list the insights are built from.

## Model

| member | source | states |
|---|---|---|
| Queries.NewestFirst | rewards.ts:11-15 | an index scan in descending order: exactly the kept documents of the table, with their ids, ids strictly decreasing |
| Queries.OldestFirst | ecoFacts.ts:20-36 | an index scan in creation order: exactly the kept documents, ids strictly increasing |
| Queries.Take | notifications.ts:12-16 | `.take(n)` returns the first min(n, length) documents of the scan |
| Queries.TakeDropsOnlyOlder | notifications.ts:12-16 | in a newest-first scan cut to n, every dropped document is older than the last one kept, and the cut list is full |
| Queries.OldestFirstKeepsAll | ecoFacts.ts:35-36 | a scan that keeps every document returns the whole table, the k-th document at position k |
| WasteTotals.EntriesOf | rewards.ts:49-52 | the `by_user` entry scan holds each of the user's entries exactly as often as the table does, and no other entry |
| WasteTotals.EntriesOfIsIndexScan | rewards.ts:49-52 | the entries are those of the `by_user` index scan, in the same order |
| WasteTotals.TotalWeightAppend | rewards.ts:55 | `TotalWeight`, the left fold of the weights from 0: the sum over a concatenation is the sum of the parts' sums |
| WasteTotals.TotalPointsAppend | rewards.ts:56 | `TotalPoints`, the left fold of the points from 0: the sum over a concatenation is the sum of the parts' sums |
| WasteTotals.TotalCo2SavedAppend | ai.ts:103 | `TotalCo2Saved`, the left fold of the CO2 savings from 0: the sum over a concatenation is the sum of the parts' sums |
| WasteTotals.TotalWeightBounds | rewards.ts:55 | with non-negative weights the total is non-negative and at least every single entry's weight |
| Rewards.TotalsOf | rewards.ts:49-56 | the entry count is at most the table size and positive if and only if the user has logged an entry; with no negative weights, the weight total is at least each of the user's entries |
| Rewards.UserRewards | rewards.ts:5-17 | nothing without a caller; otherwise all of the caller's rewards and only theirs, newest first |
| Rewards.ClaimReward | rewards.ts:19-39 | errors for no caller, a missing or foreign reward, and an already claimed one, each with no change; otherwise only that reward's `claimed` flag is set and the record read before the patch is returned; a claimed reward never changes again |
| Rewards.AchievementTitlesDistinct | rewards.ts:58-94 | the five milestone rules have pairwise distinct titles |
| Rewards.Unlocks | rewards.ts:96-105 | the rules a pass grants are listed in rule order, each below the rule count |
| Rewards.CheckAchievements | rewards.ts:41-127 | no change for an unknown user; otherwise the rewards table grows by exactly the selected rewards and the notifications table by one announcement for each of them, in the same order |
| Rewards.GrantAchievements | rewards.ts:96-125 | the loop over the rules appends exactly the rewards `Unlocks` selects, and one announcement for each, in the same order |
| Rewards.HasRewardAppend | rewards.ts:99-103 | a title is held in a concatenation exactly when it is held in one of the parts |
| Rewards.UnlocksExactly | rewards.ts:96-105 | a rule is granted if and only if its condition holds and the user held no reward of that title before the pass |
| Rewards.CheckAchievementsCovers | rewards.ts:96-113 | after a pass, the user holds every title whose condition holds |
| Rewards.CheckAchievementsIdempotent | rewards.ts:96-113 | a second pass over the same totals grants nothing |
| Rewards.GrantsAreNewAndAnnounced | rewards.ts:105-122 | every granted reward is new, unclaimed, owned by the user and meets its condition; the notification at the same position is the unread "Achievement Unlocked!" with the title and description |
| Rewards.CheckAchievementsKeepsOneRewardPerTitle | rewards.ts:99-113 | at most one reward per user and title is an invariant of the evaluator |
| Rewards.FirstEntryUnlocksFirstSteps | rewards.ts:58-65 | a user with one entry and no reward, below the weight and points milestones, gets exactly the 50-point "First Steps" reward |
| Rewards.HeavyEntryEarnsWeightMilestone | rewards.ts:80-86 | with no negative weights, one entry of at least 10 kg gets the user the "10kg Milestone" after a pass |
| Bins.StatusFor | bins.ts:20-24 | "full" if and only if the percentage is at least 90, "warning" if and only if it is in [75, 90), "normal" if and only if it is below 75, and never "maintenance" |
| Bins.StatusThresholdsInLevels | bins.ts:20-24 | the same three thresholds stated on level and capacity directly, without the percentage |
| Bins.StatusMonotone | bins.ts:20-24 | a higher level never gives a lower status |
| Bins.OverfilledIsFull | bins.ts:20-24 | a level at or above capacity is "full" |
| Bins.UpdateBinLevel | bins.ts:11-39 | "Bin not found" with no change for a missing id; otherwise only that bin's level and status are patched, the status is the one its percentage gives, and both are returned |
| Bins.DropSpaces | bins.ts:66 | the result is `s` with exactly its leading run of whitespace removed: a suffix of `s`, all dropped characters are whitespace, and it does not start with whitespace |
| Bins.Underscored | bins.ts:66 | `replace(/\s+/g, '_')` leaves no whitespace, never makes the string longer and leaves a non-empty string non-empty; `UnderscoredKeeps` and `UnderscoredRun` pin its value |
| Bins.SensorId | bins.ts:66 | a sensor id has no whitespace, and is the underscored location followed by an underscore and the waste type's name |
| Bins.SeededSensorId | bins.ts:58-66 | each seeded sensor id in full, such as "Main_Street_Park_plastic" |
| Bins.UnderscoredKeeps | bins.ts:66 | a string without whitespace is left as is |
| Bins.UnderscoredIdempotent | bins.ts:66 | replacing twice is replacing once |
| Bins.DropSpacesRun | bins.ts:66 | a whitespace run is dropped up to the first character after it |
| Bins.UnderscoredRun | bins.ts:66 | a maximal whitespace run of any length and any `\s` characters, after a word or at the start, becomes one underscore |
| Bins.UnderscoredTwoWords | bins.ts:66 | "a b" becomes "a_b" |
| Bins.UnderscoredThreeWords | bins.ts:66 | "a b c" becomes "a_b_c" |
| Bins.SeededLocationUnderscored | bins.ts:47-54 | each of the six seeded locations becomes its underscored form, such as "Main_Street_Park" |
| Bins.SplitAtLastUnderscore | bins.ts:66 | a sensor id determines its location part and its type part when the type has no underscore |
| Bins.WasteTypeNameInjective | bins.ts:56 | waste type names have no underscore and are distinct |
| Bins.UnderscoredLocationsDistinct | bins.ts:47-54 | the underscored location names are pairwise distinct |
| Bins.SensorIdsDiffer | bins.ts:66 | two locations that underscore differently, or two different waste types, give different sensor ids |
| Bins.SeededLocationsUnderscoreApart | bins.ts:47-66 | two different seeded locations underscore to different strings |
| Bins.SensorIdsDistinct | bins.ts:58-66 | different (location, type) pairs of the seed get different sensor ids |
| Bins.SeededSensorIdsDistinct | bins.ts:58-66 | the 30 seeded bins, numbered in insertion order, have pairwise distinct sensor ids |
| Bins.SeededStatusIsDerived | bins.ts:60-67 | a seeded bin's "normal" status is the one its random level below 60 out of 100 gives |
| Bins.InitializeBins | bins.ts:41-72 | no change when any bin exists; otherwise 30 bins, one per location and type in loop order, each as the seed describes |
| Bins.SeedBins | bins.ts:58-70 | the nested loop inserts 30 bins; bin i has location i / 5, type i % 5, capacity 100, an integer level in [0, 60), a last collection within the past week, the sensor id and status "normal" |
| Notifications.UserNotifications | notifications.ts:6-18 | nothing without a caller; otherwise at most 20 of the caller's notifications and only theirs, newest first; any of theirs left out is older than all 20 returned |
| Notifications.MarkNotificationRead | notifications.ts:20-35 | errors for no caller and for a missing or foreign notification, with no change; otherwise only its `read` flag is set; marking a read notification changes nothing |
| Notifications.CreateNotification | notifications.ts:37-58 | appends one unread, unscheduled notification with the given fields and returns its id |
| Notifications.ActiveUsersOf | notifications.ts:86-101 | the join has at most one record per profile |
| Notifications.ActiveUsersMembers | notifications.ts:92-97 | a record is in the join if and only if it is a profile with an existing account, merged with that account by `Merge` (the spread `{ ...user, ...profile }`: the account's name, email and anonymity, then every profile field) |
| Notifications.ActiveUsersAppend | notifications.ts:92-97 | the join keeps profile order: joining a concatenation is concatenating the joins |
| Notifications.ActiveUsers | notifications.ts:86-101 | the loop returns exactly the join |
| Notifications.Recipients | notifications.ts:71-72 | a user is a reminder recipient if and only if an active record of theirs accepts notifications |
| Notifications.RemindedExactly | notifications.ts:60-97 | a user is sent a daily reminder if and only if their account exists and a profile of theirs allows notifications, so a user with no profile gets none |
| Notifications.OneReminderPerUser | notifications.ts:71-82 | with one profile per user, no user is sent two reminders |
| Notifications.SendDailyReminders | notifications.ts:60-84 | the table keeps its old notifications and gains one unread "Daily Reminder" of type reminder per recipient, in order, with one of the three texts |
| Auth.UniqueProfile | auth.ts:23-26 | `.unique()` returns none if and only if the user has no profile, the user's only profile when there is one, and fails only when there are two |
| Auth.LoggedInUser | auth.ts:10-47 | null if and only if there is no caller or no account; otherwise the account's id, name, email and anonymity, with the profile's role, mode, points, level and preferences (`WithProfile`), or the defaults of `DefaultProfile` when there is no profile; for a caller with an account it fails if and only if `.unique()` fails |
| Auth.CreateUserProfile | auth.ts:50-81 | an error without a caller; an existing profile is returned unchanged; otherwise `DefaultProfile` (resident, adult, 0 points, level 1, notifications on, light theme) is appended and returned; afterwards it is the caller's unique profile, and one profile per user is preserved |
| Auth.UniqueOfFound | auth.ts:57-60 | the user's only profile is what the lookup returns |
| Auth.CreatingProfileKeepsView | auth.ts:35-77 | inserting the default profile does not change what loggedInUser shows |
| Auth.OneProfileNeverFails | auth.ts:23-26 | with one profile per user, loggedInUser never fails |
| EcoFacts.Candidates | ecoFacts.ts:19-37 | each of the four query branches yields exactly the facts that pass both filters, in creation order |
| EcoFacts.NoFilterIsWholeTable | ecoFacts.ts:35-37 | without filters every fact is a candidate, in table order |
| EcoFacts.GetRandomEcoFact | ecoFacts.ts:4-43 | null if and only if no fact passes the filters; otherwise a stored fact that passes them |
| EcoFacts.InitializeEcoFacts | ecoFacts.ts:45-135 | "already initialized" and no change when any fact exists; otherwise the table is exactly the twelve seed facts and the message is "initialized successfully" |
| EcoFacts.SeedAudiences | ecoFacts.ts:51-127 | the seed has twelve facts, and a fact is for children if and only if it is the sixth or later |
| EcoFacts.SeedCategories | ecoFacts.ts:51-127 | for each material and audience the seed holds exactly one fact, and general facts are for children only |
| EcoFacts.NoGeneralFactForAdults | ecoFacts.ts:19-24 | when general facts are for children only, asking for a general fact for adults finds nothing |
| EcoFacts.SeededHasNoGeneralFactForAdults | ecoFacts.ts:19-24 | on the seeded table that request returns null |
| Ai.TrainClassifier | ai.ts:34-60 | "Not authenticated" with no change without a caller; otherwise appends one verified sample with no features and returns success |
| Ai.CountOfType | ai.ts:73-75 | a type's count is at most the sample count and positive if and only if the type occurs |
| Ai.CountsSumToTotal | ai.ts:67-75 | the per-type counts add up to the total sample count |
| Ai.GetClassifierStats | ai.ts:62-79 | total is the table size; a type is a key if and only if it occurs, with its count as value; accuracy lies in [0.85, 0.95) |
| Ai.Tally | ai.ts:104-107 | the tally of a type is at most the entry count and positive if and only if the type occurs |
| Ai.FirstSeen | ai.ts:104-109 | the object's keys: distinct, and exactly the types that occur |
| Ai.FirstSeenOrder | ai.ts:104-109 | the keys are in order of first occurrence |
| Ai.BestIndex | ai.ts:109-110 | the stable descending sort puts first the earliest key with the highest tally |
| Ai.TopWasteTypeIsMostLogged | ai.ts:104-110 | `TopWasteType` is "plastic" when there are no entries; otherwise the top type occurs and has the highest tally, and any other type with the same tally first appears later in the entry list |
| Ai.GenerateInsights | ai.ts:81-126 | with no entries the two starter insights and tips; otherwise three insights (total weight, total CO2 saved, `TopWasteType`) and the three fixed tips |
| Ai.InsightsNameMostLogged | ai.ts:104-115 | with entries, the third insight names a most-logged type, and among tied types the one that appears first in the entry list |
| Ai.InsightsAccumulate | ai.ts:102-103 | the weight and CO2 insights of combined entries are the sums of the parts' insights |

## Left out

- getBinStatus (bins.ts:4-9) returns the bins table as is. It has no logic to model.
- classifyWasteImage (ai.ts:7-32) is a stub that waits on a timer and returns a random guess. Time and randomness are not modelled.
- Bins.UpdateBinLevel: requires a positive capacity for an existing bin. With capacity 0 the source divides by zero and gets an infinite or NaN percentage, which reals cannot represent.
- The console message for a full bin (bins.ts:31-35) is output only and is not modelled.
- Numbers are exact reals and integers, not IEEE doubles. Rounding in sums and percentages is not modelled.
- `toFixed(1)` formatting (ai.ts:113-115) is not modelled: an insight carries its number, or the waste type, instead of the rendered sentence.
- The `|| 0` fallbacks (ai.ts:102-103) are not modelled: weight and CO2 saved are required numbers in the schema, and reals have no NaN.
- Ai.GenerateInsights: takes the entries as a parameter. The source reads them through getUserWasteEntries with a limit of 100 (ai.ts:87), and waste.ts is not part of this model. The source's `userId` argument is unused.
- Ai.TopWasteTypeIsMostLogged: the tie-break is stated by position in the entry list. That list's order and its 100-entry cut are fixed in waste.ts, which is not part of this model. The property holds for whatever order that list has, so it does not say whether a tie goes to the type logged earliest or most recently.
- Convex's `_id` and `_creationTime` system fields are positions in the tables. They are not copied through object spreads (auth.ts:30-31, notifications.ts:95), so in getActiveUsers it does not show that the profile's `_id` replaces the account's.
- Auth.UniqueProfile: the error `.unique()` throws when two profiles share a user is `ProfileNotUnique`, with a message text of this model's own.
- Auth.LoggedInUser: takes the users and profiles tables as parameters, not the store.
- `User` keeps only the account fields this model reads: name, email and isAnonymous. The authentication library's users table also has image, phone, emailVerificationTime and phoneVerificationTime. The spreads at auth.ts:30-31 and notifications.ts:95 copy those through, and the model does not.
- The authentication provider setup (auth.ts:6-8) becomes the `caller` parameter.
- sendDailyReminders is an action, and each reminder is inserted by its own mutation. Interleaving with other writers is not modelled: the fan-out is one sequential step.
- Argument validation of `v.id(...)` against the wrong table is not modelled: an id is a position, and a missing document is an id beyond the table.
