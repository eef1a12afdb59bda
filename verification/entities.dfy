/** The application's records as the pages read them. Fields that the code compares
    across types (`userId`, `goalId`, `updateId`, the lowercase `id`) keep the loose
    JavaScript value, so that a string never equals a number. */
module Entities {
  import opened Wrappers
  import opened Js

  /** A user's onboarding preferences; a missing field reads as `undefined` (`None`). */
  datatype Prefs = Prefs(
    coachingStyle: Option<string>,
    availability: Option<string>,
    goalThemes: Option<seq<string>>)

  /** A user: the numeric store key `Id`, the lowercase `id` some pages read instead,
      and the onboarding preferences if any. */
  datatype User = User(Id: int, id: Value, name: string, prefs: Option<Prefs>)

  datatype Goal = Goal(
    Id: int,
    id: Value,
    userId: Value,
    title: string,
    category: string,
    status: string)

  /** A milestone; `dueDate` is the instant its ISO string denotes, in milliseconds. */
  datatype Milestone = Milestone(
    Id: int,
    id: Value,
    goalId: Value,
    title: string,
    order: int,
    dueDate: int,
    completed: bool)

  /** A reaction of one `kind` (the emoji) by `userId` to the update `updateId`. */
  datatype Reaction = Reaction(Id: int, updateId: Value, userId: Value, kind: string)

  datatype Vote = Vote(userId: Value, voteType: string, timestamp: Value)

  /** A challenge option: its `type` and its `label`. */
  datatype ChallengeOption = ChallengeOption(kind: string, caption: string)

  datatype Challenge = Challenge(
    Id: int,
    status: string,
    options: seq<ChallengeOption>,
    votes: seq<Vote>)

  datatype Pod = Pod(Id: int, memberIds: seq<Value>)

  /** Milliseconds in a day: `24 * 60 * 60 * 1000`. */
  const DayMs: int := 86_400_000
}
