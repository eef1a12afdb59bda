# PodPath core, modelled in Dafny

PodPath is a React app for accountability pods. Members set goals, break them into
milestones, post progress updates to a pod feed, react to each other's updates, vote on
a weekly challenge, and see how compatible they are with the other members. This project
models the logic behind those screens as pure Dafny functions and proves what they
promise. The screens covered are:

- the pod feed: the member compatibility scorer and match badge, the reaction toggle,
  the challenge vote and the sidebar's member list;
- the weekly challenge card and the update card's reaction bar;
- the update composer and the avatar's initials fallback;
- the three-step goal wizard;
- the template browser's filters and the template-to-goal conversion;
- the Goals page: its filters, categories, counts and success rate, and how a created
  goal and its milestones reach the stores;
- the My Progress page: loading, stats, the active goal's milestones sorted by `order`,
  the completion toggle and recent achievements;
- the goal card and the milestone row;
- the services. Seven of them share one Id-keyed in-memory store whose next Id is
  `Math.max(...Ids) + 1`. The challenge store issues Ids from a counter instead, and
  `podService.notifyMembers` is modelled as well.

Layout, one module per file:

| module | file | models |
|---|---|---|
| `Wrappers` | wrappers.dfy | `Option` and `Result` (a thrown error is a `Failure`) |
| `Js` | js.dfy | the JavaScript values the app compares, property access, spread, `trim`, `toString`, ASCII case mapping |
| `Seqs` | seqs.dfy | `filter`, `find`, `findIndex`, `slice`, `splice`, with their lemmas |
| `Arith` | arith.dfy | `Math.round` of the exact share as a percentage, done in integers |
| `Entities` | entities.dfy | the record shapes: users, preferences, goals, milestones, reactions, votes, challenges, pods |
| `KeyedStore`, `Services` | keyed_store.dfy, services.dfy | the shared store and its seven instances |
| `PodService` | pod_service.dfy | `notifyMembers` |
| `ChallengeVotingService` | challenge_voting_service.dfy | the counter-keyed challenge store |
| `Compatibility`, `PodFeed` | compatibility.dfy, pod_feed.dfy | the pod feed page |
| `ChallengeVotingCard`, `UpdateCard`, `UpdateComposer`, `Avatar` | same names | those components |
| `GoalWizard`, `GoalTemplateService`, `GoalTemplateBrowser` | same names | goal creation from scratch or from a template |
| `Goals`, `GoalCreation`, `GoalCard` | goals.dfy, goal_creation.dfy, goal_card.dfy | the Goals page |
| `MyProgress`, `MilestoneItem` | my_progress.dfy, milestone_item.dfy | the My Progress page |

A value the app compares across types (`userId`, `goalId`, `updateId`, the lowercase
`id`) is a `Js.Value`. That keeps `'1' === 1` false, as in JavaScript. Records held by
the generic store are maps from field names to values. Object spread is map union in
which the right operand wins. Some inputs are parameters: the clock (`now`, in
milliseconds), whether a store call succeeds (`storeOk`/`postOk`), the Id a store
issues, and the fuzzy-search engine.

## Model

| member | source | states |
|---|---|---|
| KeyedStore.GetAll | src/services/api/goalService.js:6-9 | every stored record is handed back, in store order |
| KeyedStore.IndexOf | src/services/api/goalService.js:30 | -1 exactly when no record carries the Id, otherwise the first position that does |
| KeyedStore.GetById | src/services/api/goalService.js:11-16 | fails with "<Entity> not found" exactly when no record carries the Id; otherwise returns a stored record with that Id, the first one |
| KeyedStore.MaxId | src/services/api/goalService.js:22 | the largest Id: no stored Id exceeds it and some record carries it |
| KeyedStore.NextId | src/services/api/goalService.js:22 | the Id create issues is above every stored Id |
| KeyedStore.WithId | src/services/api/goalService.js:20-23 | the record carries the given Id and every other field of the data unchanged |
| KeyedStore.Create | src/services/api/goalService.js:18-26 | exactly one record is appended; it carries the next Id and the data's other fields (an Id in the data is overwritten); the store stays well keyed |
| KeyedStore.Update | src/services/api/goalService.js:28-35 | fails exactly when the Id is absent; otherwise only the first matching record changes, in place; its fields are the union of old and new, the new values winning |
| KeyedStore.Delete | src/services/api/goalService.js:37-44 | fails exactly when the Id is absent; otherwise exactly the first matching record is removed and the rest keep their order |
| KeyedStore.CreateAddsOnlyId | src/services/api/goalService.js:20-23 | a created record has exactly the data's fields plus `Id`, and its Id is above every stored one |
| KeyedStore.CreateRaisesMaxId | src/services/api/goalService.js:22-24 | after a create the largest Id is the one just issued |
| KeyedStore.CreateThenGetById | src/services/api/goalService.js:11-26 | round trip: a created record is fetched back by its Id |
| KeyedStore.CreateKeepsIdsUnique | src/services/api/goalService.js:18-26 | distinct Ids stay distinct after a create |
| KeyedStore.UpdateThenGetById | src/services/api/goalService.js:11-35 | round trip: after an update that keeps the Id, fetching by that Id returns the merged record |
| KeyedStore.DeleteThenGetById | src/services/api/goalService.js:11-44 | with distinct Ids a deleted record can no longer be fetched |
| KeyedStore.DeleteKeepsWellKeyed | src/services/api/goalService.js:37-44 | every record left after a delete still has a numeric Id |
| KeyedStore.MaxAfterDeletingMax | src/services/api/goalService.js:18-44 | deleting the record with the largest Id succeeds and lowers the maximum, by exactly one when the next Id down is present |
| KeyedStore.DeletedMaximumMayBeReissued | src/services/api/goalService.js:18-44 | Ids are not reserved: after deleting the largest, the next create issues an Id no larger, and the very same Id when the one below is present |
| Services.GoalServiceNotFound | src/services/api/goalService.js:11-44 | getById, update and delete of a missing Id all throw "Goal not found" |
| Services.MilestoneServiceNotFound | src/services/api/milestoneService.js:11-44 | the same for "Milestone not found" |
| Services.ReactionServiceNotFound | src/services/api/reactionService.js:11-44 | the same for "Reaction not found" |
| Services.UpdateServiceNotFound | src/services/api/updateService.js:11-44 | the same for "Update not found" |
| Services.UserServiceNotFound | src/services/api/userService.js:11-44 | the same for "User not found" |
| Services.PodServiceNotFound | src/services/api/podService.js:11-63 | the same for "Pod not found" |
| Services.TemplateServiceNotFound | src/services/api/goalTemplateService.js:11-44 | the same for "Template not found" |
| PodService.MemberCount | src/services/api/podService.js:46 | an array member list reports its length; a missing or null list throws a TypeError |
| PodService.NotifyMembers | src/services/api/podService.js:37-54 | throws "Pod not found" exactly for a missing pod; otherwise, for a pod with a member array, reports success as a 'milestone_completed' notice carrying the message and pod Id, counting the pod's listed members |
| ChallengeVotingService.Load | src/services/api/challengeVotingService.js:4-5 | the counter starts above every seeded Id |
| ChallengeVotingService.GetById | src/services/api/challengeVotingService.js:17-21 | `null` exactly when no challenge has the Id, otherwise the first stored challenge with it |
| ChallengeVotingService.CreateThenGetById | src/services/api/challengeVotingService.js:17-34 | round trip: a challenge created without an `Id` of its own is fetched back under the counter's Id, when no stored challenge has that Id |
| ChallengeVotingService.CreateWithTakenIdIsShadowed | src/services/api/challengeVotingService.js:17-34 | a challenge created with an `Id` from its data that a stored challenge already has is never returned by `getById`: the earlier challenge keeps being found |
| ChallengeVotingService.Create | src/services/api/challengeVotingService.js:23-34 | appends one challenge and advances the counter by one; the new challenge has no votes, takes the data's other fields, and takes the counter's Id unless the data brings its own |
| ChallengeVotingService.Update | src/services/api/challengeVotingService.js:36-52 | fails with "Challenge not found" exactly for an absent Id; otherwise only that challenge changes, keeping the requested Id, taking the data's fields over the old ones; the counter is untouched |
| ChallengeVotingService.Pinned | src/services/api/challengeVotingService.js:42-47 | the merged challenge carries the requested Id and the new `updatedAt` whatever the data says, and the data's other fields over the old |
| ChallengeVotingService.Delete | src/services/api/challengeVotingService.js:54-63 | fails exactly for an absent Id; otherwise removes only the first challenge with it and leaves the counter alone |
| ChallengeVotingService.GetActiveChallenge | src/services/api/challengeVotingService.js:65-69 | `null` exactly when none is active, otherwise the first active challenge |
| ChallengeVotingService.GetChallengesByStatus | src/services/api/challengeVotingService.js:71-74 | exactly the challenges with that status, as a subsequence of the store (store order kept), one entry per matching challenge |
| ChallengeVotingService.IssuedIdsNeverRepeat | src/services/api/challengeVotingService.js:23-63 | over any sequence of creates, updates and deletes, the counter Ids handed out strictly increase and never repeat, even after deletions |
| ChallengeVotingService.IssuedIdsAboveSeed | src/services/api/challengeVotingService.js:4-26 | every counter Id issued after loading is above every seeded Id |
| Compatibility.CompatibilityTables | src/components/pages/PodFeed.jsx:205-222 | both adjacency tables are symmetric and irreflexive; direct and gentle do not pair; weekend pairs with flexible only; values outside the tables pair with nothing (the inherited names throw instead, see ScoreChecked) |
| Compatibility.CommonThemes | src/components/pages/PodFeed.jsx:194-196 | the shared themes are the user's themes found in the member's list, none when the member has no list |
| Compatibility.LengthOrOne | src/components/pages/PodFeed.jsx:198 | the divisor is never below 1 |
| Compatibility.Score | src/components/pages/PodFeed.jsx:171-203 | `null` exactly when either side has no preferences; otherwise a score within [0, 1] equal to the sum of the coaching, availability and theme parts, because the weights add up to 1 |
| Compatibility.ScoreChecked | src/components/pages/PodFeed.jsx:171-222 | the scorer throws a TypeError exactly when a table lookup with the user's value reaches a name inherited from `Object.prototype` (only when the two values differ); otherwise it returns `Score` |
| Compatibility.ConstructorStyleThrows | src/components/pages/PodFeed.jsx:178-183 | a user coaching style of "constructor" against "gentle" throws, although no table lists it |
| Compatibility.ThemePartBounds | src/components/pages/PodFeed.jsx:193-199 | the theme part lies within [0, 0.3] |
| Compatibility.IdenticalPrefsScoreOne | src/components/pages/PodFeed.jsx:171-203 | a member identical to the user, with some theme, scores exactly 1 |
| Compatibility.IdenticalPrefsWithoutThemesScoreSevenTenths | src/components/pages/PodFeed.jsx:171-203 | identical preferences without themes score 0.7 |
| Compatibility.CommonCountIsIntersection | src/components/pages/PodFeed.jsx:194-196 | without repeated themes the shared count is the size of the two lists' intersection |
| Compatibility.ScoreSymmetric | src/components/pages/PodFeed.jsx:171-222 | without repeated themes the score does not depend on who is the user and who the member |
| Compatibility.DuplicateThemesBreakSymmetry | src/components/pages/PodFeed.jsx:194-198 | a repeated theme gives 0.3 one way and 0.15 the other |
| Compatibility.WorkedExample | src/components/pages/PodFeed.jsx:171-222 | the feed's user against a gentle, morning, fitness member scores 0.67 |
| Compatibility.MatchLabel | src/components/pages/PodFeed.jsx:291-301 | a badge shows exactly when there is a score: "Great Match" from 0.8, "Good Match" from 0.6 below 0.8, "Compatible" below 0.6 |
| Compatibility.MatchLabelMonotone | src/components/pages/PodFeed.jsx:294-300 | a higher score never earns a lesser badge, and the badge changes only across 0.6 or 0.8 |
| Compatibility.IdenticalPrefsLabels | src/components/pages/PodFeed.jsx:291-301 | identical preferences read "Great Match" with themes and "Good Match" without |
| PodFeed.Annotate | src/components/pages/PodFeed.jsx:164-169 | each member keeps its place and gets its score against the signed-in user |
| PodFeed.PodMembers | src/components/pages/PodFeed.jsx:161-169 | the first four users other than the signed-in one, in list order (all of them when fewer), each scored against the signed-in user: `null` exactly for members without preferences, otherwise within [0, 1] |
| PodFeed.PodMembersKeepAllWhenFew | src/components/pages/PodFeed.jsx:161-163 | with four or fewer other users the sidebar lists all of them, in list order |
| PodFeed.PodMembersIgnoreLaterUsers | src/components/pages/PodFeed.jsx:161-163 | once four other users are listed, users appended after them never change the sidebar |
| PodFeed.SidebarScoringNeverThrows | src/components/pages/PodFeed.jsx:164-169 | scoring against the signed-in user never takes the throwing path, so the sidebar's scores are exactly `Score`'s |
| PodFeed.PodMembersAsWritten | src/components/pages/PodFeed.jsx:161-171 | as written, the page throws exactly when a shown member has preferences |
| PodFeed.MemberWithPrefsCrashesFeed | src/components/pages/PodFeed.jsx:161-171 | a single other user with preferences crashes the page as written |
| PodFeed.HandleReaction | src/components/pages/PodFeed.jsx:84-109 | an existing own reaction of that type is removed together with every reaction sharing its Id, the rest kept in order (list strictly shorter); otherwise exactly one new reaction tagged '1' is appended; a store failure keeps the list and sets the error |
| PodFeed.ToggleTwiceRestores | src/components/pages/PodFeed.jsx:84-105 | reacting twice with the same type restores the reaction list |
| PodFeed.CastVote | src/components/pages/PodFeed.jsx:119-142 | the user's existing votes are rewritten in place with the new type and nothing else changes; with no vote, exactly one is appended |
| PodFeed.CastVoteKeepsOneVote | src/components/pages/PodFeed.jsx:119-142 | after a vote the user holds one vote if they held none, and otherwise as many as before |
| PodFeed.HandleChallengeVote | src/components/pages/PodFeed.jsx:111-150 | an unknown challenge only toasts "Challenge not found"; otherwise the challenge with that Id gets the updated votes and others are untouched; the toast says updated or cast according to the prior vote; a store failure keeps the list |
| PodFeed.VoteNeverAddsSecondVote | src/components/pages/PodFeed.jsx:111-145 | voting through the feed leaves the user exactly one vote on the challenge |
| ChallengeVotingCard.Tally | src/components/molecules/ChallengeVotingCard.jsx:32-40 | one row per option, in order, counting that option's votes, with a percentage equal to Math.round of its exact share (0 without votes), at most 100 |
| ChallengeVotingCard.PercentFacts | src/components/molecules/ChallengeVotingCard.jsx:34-38 | the integer rounding equals Math.round of the exact share as a percentage, and never exceeds 100 |
| ChallengeVotingCard.Card | src/components/molecules/ChallengeVotingCard.jsx:12-40 | "No Active Challenge" exactly when none is active; otherwise the first active challenge, its vote total, its tally rows, and the user's first vote exactly when they voted |
| ChallengeVotingCard.UserVote | src/components/molecules/ChallengeVotingCard.jsx:29 | none exactly when the user cast no vote, otherwise the first vote they cast |
| ChallengeVotingCard.VotedCardShowsVote | src/components/molecules/ChallengeVotingCard.jsx:12-40 | after the user votes through the feed (PodFeed.jsx:119-142) the card shows that vote type as theirs, and the total grows by one exactly on a first vote |
| ChallengeVotingCard.VoteClick | src/components/molecules/ChallengeVotingCard.jsx:42-44 | a click forwards the shown challenge's Id and the chosen type, and only when a challenge is shown |
| ChallengeVotingCard.TallySumBounded | src/components/molecules/ChallengeVotingCard.jsx:28-40 | with distinct option types the row counts add up to at most the vote total, and to exactly the total when every vote names an option |
| ChallengeVotingCard.RepeatedKindsOvercount | src/components/molecules/ChallengeVotingCard.jsx:32-37 | two options with one type count the same vote twice |
| UpdateCard.AuthorKey | src/components/molecules/UpdateCard.jsx:17 | `undefined` exactly when there is no author |
| UpdateCard.Buttons | src/components/molecules/UpdateCard.jsx:9-86 | five buttons in the fixed order; each counts its type's reactions, shows the count exactly when positive, is lit as `hasUserReacted` says, and forwards the update and type |
| UpdateCard.EmptyBarIsBlank | src/components/molecules/UpdateCard.jsx:9-18 | with no reactions no count shows and nothing is lit |
| UpdateCard.CountPositiveIffPresent | src/components/molecules/UpdateCard.jsx:12-83 | a count shows exactly when some reaction of that type exists |
| UpdateCard.FeedToggleNeverLightsAsWritten | src/components/molecules/UpdateCard.jsx:16-18 | as written, a toggle through the feed never lights a button that was unlit |
| UpdateCard.OwnReactionUnlitAsWritten | src/components/molecules/UpdateCard.jsx:16-18 | the signed-in user's fresh reaction stays unlit as written |
| UpdateCard.ViewerReactedOnCard | src/components/molecules/UpdateCard.jsx:16-18 | the intended highlight holds exactly when the feed holds the viewer's own reaction of that type on that update |
| UpdateCard.ToggleFlipsViewerHighlight | src/components/molecules/UpdateCard.jsx:16-18 | with the intended highlight every successful toggle flips the button |
| UpdateComposer.SetProgress | src/components/molecules/UpdateComposer.jsx:63-68 | the slider sets the progress only |
| UpdateComposer.SetContent | src/components/molecules/UpdateComposer.jsx:49-51 | the text box sets the text only |
| UpdateComposer.Submit | src/components/molecules/UpdateComposer.jsx:15-36 | nothing is posted exactly when the text is blank; the post carries the trimmed text and the progress; success clears the form, failure keeps it; both end the posting state |
| UpdateComposer.NoDoublePost | src/components/molecules/UpdateComposer.jsx:15-36 | after a successful post, submitting again posts nothing |
| UpdateComposer.RetryAfterFailurePostsSamePayload | src/components/molecules/UpdateComposer.jsx:21-35 | after a failed post a retry posts the same payload |
| UpdateComposer.ButtonEnabledIffPostable | src/components/molecules/UpdateComposer.jsx:75 | the button is enabled exactly for non-blank text with nothing in flight |
| UpdateComposer.ProgressStaysInRange | src/components/molecules/UpdateComposer.jsx:12-68 | the progress stays within 0..100 |
| Avatar.Split | src/components/atoms/Avatar.jsx:50 | at least one piece, none holding a space |
| Avatar.JoinSplit | src/components/atoms/Avatar.jsx:50 | round trip: joining the pieces with spaces gives back the name |
| Avatar.Heads | src/components/atoms/Avatar.jsx:51-52 | the first character of each non-empty piece, in order, one per non-empty piece; as many as pieces exactly when no piece is empty |
| Avatar.GetInitials | src/components/atoms/Avatar.jsx:47-55 | '?' for a falsy name; for a text name, the upper-cased first letters of its words, cut to two; a non-text name throws |
| Avatar.AltText | src/components/atoms/Avatar.jsx:11 | 'Avatar' when the prop is missing, else the prop |
| Avatar.Render | src/components/atoms/Avatar.jsx:57-81 | the fallback shows exactly when the image failed or there is no source, with the initials of the alt text |
| Avatar.DefaultAltInitial | src/components/atoms/Avatar.jsx:11-55 | without alt text the fallback reads 'A' |
| Avatar.TwoWordInitials | src/components/atoms/Avatar.jsx:47-55 | a two-word name gives its two upper-cased first letters |
| Avatar.DoubleSpaceAddsNothing | src/components/atoms/Avatar.jsx:47-55 | a double space gives the same initials as a single one |
| GoalWizard.GenerateMilestones | src/components/organisms/GoalWizard.jsx:26-63 | five milestones numbered 1 to 5, due 7, 14, 21, 35 and 49 days out, strictly in order and all in the future |
| GoalWizard.Step | src/components/organisms/GoalWizard.jsx:222-249 | a disabled input changes nothing; Previous and Next move one step within 1..3; Generate fills the milestones and jumps to step 3; only navigation changes the step and only edits change the form |
| GoalWizard.Submit | src/components/organisms/GoalWizard.jsx:65-81 | refused exactly when a title, category or target date is missing; otherwise the form's fields, status 'active' and owner 'user1' |
| GoalWizard.SubmitIntended | src/components/organisms/GoalWizard.jsx:74 | accepted exactly when the as-written submit is, with the same goal owned by '1' |
| GoalWizard.InitInv | src/components/organisms/GoalWizard.jsx:10-17 | the start state is step 1 with an empty form and satisfies the invariant |
| GoalWizard.StepKeepsInv | src/components/organisms/GoalWizard.jsx:222-249 | every input keeps the invariant: step within 1..3; past step 1 a title and date; at step 3 a known category and five milestones |
| GoalWizard.RunKeepsInv | src/components/organisms/GoalWizard.jsx:222-249 | any input sequence keeps the invariant |
| GoalWizard.OnlyGenerateEntersStepThree | src/components/organisms/GoalWizard.jsx:233-241 | step 3 is entered only by Generate, from step 2, with a category |
| GoalWizard.ReachableSubmitAccepted | src/components/organisms/GoalWizard.jsx:65-69 | in every reachable step-3 state the submit guard lets the goal through, with five milestones |
| GoalWizard.HappyPath | src/components/organisms/GoalWizard.jsx:222-252 | title, date, Next, Health, Generate reaches an accepted health goal |
| GoalTemplateService.DurationDays | src/services/api/goalTemplateService.js:48-53 | the five known durations map to fewer than 365 days, anything else to 365 |
| GoalTemplateService.DurationIsThirtyDayMonths | src/services/api/goalTemplateService.js:49-53 | each known duration is 30 days per month |
| GoalTemplateService.ConvertMilestones | src/services/api/goalTemplateService.js:60-65 | one milestone per template milestone, same title, description and order, due its estimated days from now |
| GoalTemplateService.ConvertToGoal | src/services/api/goalTemplateService.js:47-67 | non-empty overrides win for title and description; the category is the template's; the target day is the override's day, or today plus the duration's days |
| GoalTemplateService.ConvertedScheduleOrdered | src/services/api/goalTemplateService.js:48-65 | increasing estimates give increasing due dates, and a milestone estimated within the duration falls due by the default target day |
| GoalTemplateBrowser.Narrow | src/components/organisms/GoalTemplateBrowser.jsx:60-71 | a subsequence holding exactly the templates that pass both chips; 'all' and 'all' keep everything |
| GoalTemplateBrowser.FilterTemplates | src/components/organisms/GoalTemplateBrowser.jsx:60-84 | every template shown passes both chips; without a search term the list is exactly the narrowed one |
| GoalTemplateBrowser.NarrowIsOneFilter | src/components/organisms/GoalTemplateBrowser.jsx:63-71 | the two chip filters in turn equal one filter on both conditions |
| GoalTemplateBrowser.DifficultyColor | src/components/organisms/GoalTemplateBrowser.jsx:95-102 | beginner is success, intermediate warning, advanced danger, and 'primary' exactly for anything else |
| GoalTemplateBrowser.DifficultyColoursDistinct | src/components/organisms/GoalTemplateBrowser.jsx:95-102 | the three levels get three different colours |
| GoalTemplateBrowser.CategoryIcon | src/components/organisms/GoalTemplateBrowser.jsx:104-112 | 'Target' exactly for an unknown category |
| GoalTemplateBrowser.ChipIconsAgree | src/components/organisms/GoalTemplateBrowser.jsx:24-112 | a template's icon is the icon on the chip that selects it |
| Goals.UserGoals | src/components/pages/Goals.jsx:39 | exactly the goals owned by '1', in store order |
| Goals.FilteredGoals | src/components/pages/Goals.jsx:72-76 | exactly the goals matching both filters, in order; 'all' and 'all' keep every goal |
| Goals.NoSelectionKeepsAll | src/components/pages/Goals.jsx:72-76 | with both filters at 'all' nothing is dropped |
| Goals.Distinct | src/components/pages/Goals.jsx:78 | each value once, the same values, in order of first appearance |
| Goals.Categories | src/components/pages/Goals.jsx:78 | every goal's category exactly once, no others, in order of first appearance, never more than there are goals |
| Goals.CountStatuses | src/components/pages/Goals.jsx:79-84 | the total is the number of goals, and active, completed and paused each count the goals with that status; together they never exceed the total |
| Goals.SuccessRate | src/components/pages/Goals.jsx:164 | Math.round of the exact completed share, 0 without goals, 100 when all are completed, never above 100 |
| GoalCreation.GoalObject | src/components/organisms/GoalWizard.jsx:71-77 | the goal handed to the store carries the wizard's owner, a text `id` that is the decimal form of the clock reading, and no numeric Id |
| GoalCreation.Drafts | src/components/pages/Goals.jsx:56 | one object per wizard milestone, keeping its order and title |
| GoalCreation.LinkedFields | src/components/pages/Goals.jsx:57-61 | a stored milestone carries its Id, points at the goal, is not completed, and keeps every other field |
| GoalCreation.CreateAll | src/components/pages/Goals.jsx:56-62 | the loop stores one milestone per draft |
| GoalCreation.LinkedFrom | src/components/pages/Goals.jsx:56-62 | the closed form has one record per draft |
| GoalCreation.CreateAllAppendsLinked | src/components/pages/Goals.jsx:56-62 | the loop appends exactly the drafts, linked to the goal, under consecutive Ids above the largest, in draft order |
| GoalCreation.CreateAllStep | src/components/pages/Goals.jsx:57-61 | one turn appends the first draft linked under the next Id and raises the next Id by one |
| GoalCreation.LinkedFromFields | src/components/pages/Goals.jsx:56-62 | the i-th stored milestone has Id base + i, the goal's Id, completed false, and the draft's order and title |
| GoalCreation.HandleCreateGoal | src/components/pages/Goals.jsx:50-69 | the goal is appended under the next goal Id with the data's other fields, and the milestone store grows by one per draft |
| GoalCreation.CreationStoresLinked | src/components/pages/Goals.jsx:50-62 | the milestone store grows by exactly the drafts, linked to the new goal's Id |
| GoalCreation.FromWizard | src/components/pages/Goals.jsx:50-53 | the stored goal keeps the wizard's owner |
| GoalCreation.ReloadedGoals | src/components/pages/Goals.jsx:39 | after reload exactly the stored goals owned by '1' are listed |
| GoalCreation.WizardGoalVanishesOnReload | src/components/organisms/GoalWizard.jsx:71-79 | as written, a goal made with the wizard is missing from the list after the reload |
| GoalCreation.IntendedGoalSurvivesReload | src/components/pages/Goals.jsx:50-65 | with the intended owner, the created goal is listed after the reload |
| GoalCreation.AsGoal | src/components/pages/MyProgress.jsx:57-63 | a stored goal read by My Progress keeps its lowercase `id`, its owner and its numeric `Id` |
| GoalCreation.AsMilestone | src/components/pages/MyProgress.jsx:61-63 | a stored milestone read by My Progress keeps its lowercase `id` and its `goalId` |
| GoalCreation.AddedMilestones | src/components/pages/Goals.jsx:50-62 | a wizard goal is stored with the wizard's text `id` and the next numeric `Id`; each milestone added with it points at that numeric `Id` and has no lowercase `id` |
| GoalCreation.AddedMilestonesUnlinked | src/components/pages/MyProgress.jsx:61-63 | matched on the lowercase `id`, none of the milestones a wizard goal's creation adds belongs to that goal |
| GoalCreation.IntendedGoalLoaded | src/components/pages/MyProgress.jsx:56-58 | a wizard goal owned by '1' passes My Progress's owner filter |
| GoalCreation.CreatedMilestonesUnlistedAsWritten | src/components/pages/MyProgress.jsx:56-63 | as written, after a load of the stores, a wizard goal owned by '1' is among the loaded goals, yet none of the milestones its creation added is listed under it |
| GoalCreation.CreatedMilestonesListedById | src/components/pages/MyProgress.jsx:61-63 | matched on the numeric `Id`, every milestone the creation adds is listed under the new goal, in store order |
| GoalCreation.IntendedMilestonesLoadedById | src/components/pages/MyProgress.jsx:56-63 | with the owner '1' and the lookup on the numeric `Id`, the loaded goals hold the new goal and the loaded milestones hold every milestone its creation added |
| MyProgress.UserMilestones | src/components/pages/MyProgress.jsx:61-63 | exactly the milestones whose goalId is the `id` of one of the goals, in store order |
| MyProgress.UserMilestonesById | src/components/pages/MyProgress.jsx:61-63 | the milestones whose `goalId` is one goal's numeric `Id`, in store order; all of them when each one matches |
| MyProgress.OtherMemberIds | src/components/pages/MyProgress.jsx:71 | the pod's member ids except '1' |
| MyProgress.Load | src/components/pages/MyProgress.jsx:44-81 | the user's goals and their milestones; without a pod that lists '1' the members are unchanged; otherwise the load error shows exactly when some user's `id` cannot be converted, and else the members are exactly the users listed in that pod other than '1' |
| MyProgress.LoadExcludesCurrentUser | src/components/pages/MyProgress.jsx:66-74 | the signed-in user is never listed among their pod members |
| MyProgress.ActiveGoals | src/components/pages/MyProgress.jsx:159 | the number of active goals, the same as the Goals page's active count; zero exactly when none is active |
| MyProgress.ActiveGoalsAdd | src/components/pages/MyProgress.jsx:159 | the count adds up over a split list and a single goal counts once exactly when active |
| MyProgress.CompletionRate | src/components/pages/MyProgress.jsx:160-162 | Math.round of the exact completed share, at most 100, 0 with no milestones or none completed, 100 when all are completed |
| MyProgress.SortByOrder | src/components/pages/MyProgress.jsx:167 | a permutation of the input, ascending by `order` |
| MyProgress.SortStable | src/components/pages/MyProgress.jsx:167 | milestones with equal `order` keep their relative order |
| MyProgress.ActiveGoalMilestones | src/components/pages/MyProgress.jsx:165-168 | none without an active goal; otherwise exactly the first active goal's milestones, sorted by `order` |
| MyProgress.ToggleMilestone | src/components/pages/MyProgress.jsx:83-133 | an unknown id changes nothing; a store failure only sets the error; otherwise the milestones with that id flip, nothing else changes, and the notice celebrates exactly a completion and unmarks exactly an un-completion |
| MyProgress.ToggleTwiceRestores | src/components/pages/MyProgress.jsx:83-96 | toggling twice restores the page, with one celebration and one unmark |
| MyProgress.RecentAchievements | src/components/pages/MyProgress.jsx:329-333 | the first three completed milestones, in list order (fewer when fewer exist) |
| MyProgress.ToggleCelebrationRaisesCount | src/components/pages/MyProgress.jsx:94-99 | a celebrated toggle raises the completed count by exactly one |
| GoalCard.Progress | src/components/molecules/GoalCard.jsx:9-11 | within [0, 100]; 100 exactly when there are milestones and all are completed; 0 exactly when none is completed |
| GoalCard.RingRoundsToCompletionRate | src/components/molecules/GoalCard.jsx:9-11 | rounding the ring's value gives the My Progress completion rate |
| GoalCard.CategoryIcon | src/components/molecules/GoalCard.jsx:13-21 | 'Target' exactly for an unknown category, ignoring case; otherwise the template browser's icon for the lower-cased name |
| GoalCard.CategoryColor | src/components/molecules/GoalCard.jsx:23-31 | ignoring case, personal is primary, professional secondary, health success, education accent, and 'default' exactly for anything else |
| GoalCard.CategoryCaseInsensitive | src/components/molecules/GoalCard.jsx:13-31 | upper- or lower-casing the category changes neither icon nor colour |
| GoalCard.KnownCategoriesDistinct | src/components/molecules/GoalCard.jsx:13-31 | different known categories get different icons and colours |
| GoalCard.Render | src/components/molecules/GoalCard.jsx:8-73 | the caption counts the completed milestones out of all of them; the ring shows `Progress`, whose extremes match the counts; icon and colour are the category's; the status badge is 'success' exactly for active goals |
| MilestoneItem.RowTone | src/components/molecules/MilestoneItem.jsx:14-20 | completed rows are green, overdue ones red, and the rest plain, each exactly in its case |
| MilestoneItem.Render | src/components/molecules/MilestoneItem.jsx:8-53 | the badge and the red date show exactly for overdue rows; the check shows exactly for completed ones, never both; the button forwards the numeric Id |
| MilestoneItem.OverdueStaysOverdue | src/components/molecules/MilestoneItem.jsx:8 | an overdue milestone stays overdue as time passes |
| MilestoneItem.CompletingClearsOverdue | src/components/molecules/MilestoneItem.jsx:8-53 | completing clears the badge at any time; reopening brings it back exactly when the due date has passed |
| Js.Spread | src/services/api/goalService.js:33 | the fields are the union of both objects; the right-hand object's values win |
| Js.Trim | src/components/molecules/UpdateComposer.jsx:17 | empty exactly for blank input; otherwise the input with only whitespace taken off its two ends and none left at either end |
| Js.StrippedIsTrim | src/components/molecules/UpdateComposer.jsx:17 | the trim is unique: any whitespace-stripped piece of the input that is empty or edged by non-whitespace is the trim |
| Js.TrimIdempotent | src/components/molecules/UpdateComposer.jsx:17-23 | trimming twice trims no more |
| Js.ToText | src/components/pages/MyProgress.jsx:72 | `toString` throws exactly for undefined and null; text stays itself and numbers become their decimal text |
| Js.Decimal | src/components/organisms/GoalWizard.jsx:73 | a non-empty decimal text, all digits for a non-negative number |
| Js.DecimalRoundTrip | src/components/organisms/GoalWizard.jsx:73 | round trip: reading the decimal text back gives the number |
| Js.ToLower | src/components/molecules/GoalCard.jsx:14 | same length, each letter lower-cased |
| Js.ToUpper | src/components/atoms/Avatar.jsx:53 | same length, each letter upper-cased |
| Arith.RoundPercentIsMathRound | src/components/molecules/ChallengeVotingCard.jsx:34-38 | the integer formula equals Math.round of the exact share as a percentage |

## Left out

- Delays, promises and `async`: every service call is an instantaneous pure function, and
  a thrown error is a `Failure` or a boolean success parameter.
- Toasts, confetti, animations, timers and CSS classes are left out. A toast is kept only
  where a contract mentions it, as plain text.
- The clock and ISO strings: `now` is an integer in milliseconds, and ISO timestamps are
  opaque values. `toISOString().split('T')[0]` is modelled as the UTC day number.
- Floating point: scores and the ring's progress are exact reals, so `0.28 + 0.24 + 0.15`
  is exactly 0.67 here.
- Compatibility.MatchLabel: the badge is stated for the exact score, which can differ from
  the program's badge at a threshold. The same coaching style and availability with 1 of
  3 themes shared scores 0.7999999999999999 in doubles, a "Good Match". Here it is exactly
  0.8, a "Great Match".
- ChallengeVotingCard.Tally: each percentage is Math.round of the exact share. The program
  rounds the double-precision `(count / total) * 100`. That value falls just below a half
  for shares such as 23 of 40 (57.49999999999999, shown as 57), where the model gives 58.
  The model can therefore be one higher. 29, 57, 113 and 115 of 200 behave the same way.
- ChallengeVotingCard.PercentFacts: relates the integer formula to Math.round of the exact
  share, not to the double-precision value the program rounds, for the reason given under
  Tally.
- Goals.SuccessRate: Math.round of the exact share, one higher than the program on
  double-rounded halves such as 23 of 40, for the reason given under Tally.
- MyProgress.CompletionRate: Math.round of the exact share, one higher than the program on
  double-rounded halves such as 23 of 40, for the reason given under Tally.
- KeyedStore.GetById, ChallengeVotingService.GetById and PodService.NotifyMembers: the Id is
  an integer. The services apply `parseInt` to the Id they are given, so a text Id such as
  '3' or '3abc' reaches the same record as 3. Text Ids are not modelled.
- Compatibility.Score: the style and availability preferences are `Option<string>`, which
  merges `null` and `undefined`. In JavaScript `null === undefined` is false, so such a pair
  gets no 0.4 there, while here it counts as a match.
- Fuse.js fuzzy search is a function parameter. The model only trusts it to return
  positions into the narrowed list, and it drops positions outside that list.
- Case mapping covers ASCII letters only. Strings are sequences of code points, not UTF-16
  units.
- `toString` of objects and functions: such values are one opaque `Other`.
- KeyedStore.Create: requires a non-empty store whose Ids are all numbers. On an empty
  store `Math.max()` is `-Infinity` and the new Id is not a number; that case is not
  modelled.
- ChallengeVotingService.Load: requires the same of the seed data, for the same reason.
- GoalCreation.HandleCreateGoal: models the success path only. A rejected `create` turns
  into "Failed to create goal" and leaves the stores as far as they got; that path is not
  modelled.
- MyProgress.CompletionRate: states 100 only in one direction. A rate of 100 does not mean
  that every milestone is completed, because 199 of 200 also rounds to 100.
- Goals.SuccessRate: the same one-direction 100, for the same reason.
- MyProgress.ToggleMilestone: modelled as written, looking milestones up by their
  lowercase `id` while milestone rows pass the numeric `Id`. Milestones the app creates
  itself carry no lowercase `id` (see the fourth row under Findings). Whether the seeded
  records carry one is not part of this model, so the toggle is not claimed as a finding
  of its own.
- MyProgress.Load: keeps the as-written lookup `goal.id === milestone.goalId`;
  MyProgress.UserMilestonesById is the corrected lookup, proved about created goals only.
- Compatibility.Score: describes the scorer for values that do not throw.
  Compatibility.ScoreChecked adds the TypeError that a user value named like an
  `Object.prototype` member raises. The sidebar always scores against the signed-in
  user's fixed preferences, which never throw.
- Loading, error and empty screens, and purely presentational components, are not part of
  this model: ProgressRing, Badge, Card, Button, Input, Layout, NavigationTabs, StatsCard
  and PodMemberCard. So are InsightsPanel and aiAssistantService.
- The sidebar's `online` flag (`Math.random`) and the date formatting (`date-fns`) are
  left out.
- PodFeed's load sorts updates by timestamp and `handlePostUpdate` prepends the new
  update. Both are list plumbing over opaque timestamps and are not modelled.
- GoalTemplateBrowser's preview and selection state are not modelled. They only hand the
  chosen template to the caller.

## Findings

| source | as written | input that shows it | evidently intended | confidence | as-written member | corrected member |
|---|---|---|---|---|---|---|
| src/components/molecules/UpdateCard.jsx:16-18 | a button is lit when a reaction's `userId` equals the card author's numeric `Id`, but the feed stores the viewer's reactions with the string '1' (PodFeed.jsx:100) | the signed-in user reacts 🔥 to update 7; the list becomes one reaction with userId '1'; the 🔥 button stays unlit | light the button when the signed-in viewer ('1') has reacted with that type | high, not executed | UpdateCard.FeedToggleNeverLightsAsWritten, UpdateCard.OwnReactionUnlitAsWritten | UpdateCard.ViewerReactedOnCard, UpdateCard.ToggleFlipsViewerHighlight |
| src/components/organisms/GoalWizard.jsx:74 | the wizard's goal is owned by 'user1', while the Goals page keeps only goals owned by '1' (Goals.jsx:39) and reloads right after creating (Goals.jsx:65) | any accepted wizard goal: after the reload it is not in the list | own the goal as '1', as `currentUser.Id.toString()` gives | high, not executed | GoalWizard.Submit, GoalCreation.WizardGoalVanishesOnReload | GoalWizard.SubmitIntended, GoalCreation.IntendedGoalSurvivesReload |
| src/components/pages/PodFeed.jsx:161-171 | `podMembers` is computed during render and calls `calculateMemberCompatibility`, a `const` declared further down, so the call reads it before initialisation | once the users are loaded, one other user with preferences; the render throws a ReferenceError | declare the scorer above `podMembers`, so each member is scored | high, not executed | PodFeed.PodMembersAsWritten, PodFeed.MemberWithPrefsCrashesFeed | PodFeed.PodMembers, PodFeed.PodMembersKeepAllWhenFew |
| src/components/pages/MyProgress.jsx:61-63 | a milestone belongs to a goal when its `goalId` equals the goal's lowercase `id`, but the wizard's goal gets `id: Date.now().toString()` (GoalWizard.jsx:73) and the Goals page links its milestones with `goalId: newGoal.Id`, a number (Goals.jsx:59) | a wizard goal owned by '1' (once the GoalWizard.jsx:74 owner is fixed, so that the owner filter at MyProgress.jsx:57 keeps it): its milestones are stored with a numeric `goalId` and no `id`, so My Progress lists none of them under the goal, and a toggle that looks them up by `id` finds nothing | match milestones to goals on the numeric `Id` the Goals page writes | high, not executed | GoalCreation.CreatedMilestonesUnlistedAsWritten, MyProgress.UserMilestones | GoalCreation.IntendedMilestonesLoadedById, MyProgress.UserMilestonesById |
