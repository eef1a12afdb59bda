/** The pod feed page's state transitions: the reaction toggle, the one-vote-per-user
    challenge vote, and the sidebar's pod-member list with compatibility badges. The
    signed-in user is fixed: numeric Id 1, whose string form '1' tags reactions. */
module PodFeed {
  import opened Wrappers
  import opened Js
  import opened Seqs
  import opened Entities
  import opened Compatibility

  const CurrentUserId: int := 1

  /** `currentUser.onboardingPreferences`. */
  const CurrentPrefs := Prefs(Some("growth-focused"), Some("flexible"), Some(["fitness", "habit-building"]))

  /** A sidebar entry: the member and its `compatibilityScore` (`null` as `None`). */
  datatype MemberView = MemberView(user: User, compatibilityScore: Option<real>)

  predicate NotCurrentUser(u: User) {
    u.Id != CurrentUserId
  }

  function Annotate(us: seq<User>): (r: seq<MemberView>)
    ensures |r| == |us|
    ensures forall i :: 0 <= i < |us| ==>
      r[i].user == us[i] && r[i].compatibilityScore == Score(Some(CurrentPrefs), us[i].prefs)
  {
    if us == [] then []
    else [MemberView(us[0], Score(Some(CurrentPrefs), us[0].prefs))] + Annotate(us[1..])
  }

  /** `podMembers`: the first four users other than the signed-in one, in list order,
      each scored against the signed-in user's preferences (`null` when the member has none). */
  function PodMembers(users: seq<User>): (r: seq<MemberView>)
    ensures |r| <= 4
    ensures |r| == if Count(users, NotCurrentUser) < 4 then Count(users, NotCurrentUser) else 4
    ensures forall i :: 0 <= i < |r| ==>
      && r[i].user == Filter(users, NotCurrentUser)[i]
      && r[i].compatibilityScore == Score(Some(CurrentPrefs), r[i].user.prefs)
    ensures forall i :: 0 <= i < |r| ==> r[i].user.Id != CurrentUserId && r[i].user in users
    ensures forall i :: 0 <= i < |r| ==> (r[i].compatibilityScore.None? <==> r[i].user.prefs.None?)
    ensures forall i :: 0 <= i < |r| && r[i].compatibilityScore.Some? ==>
      0.0 <= r[i].compatibilityScore.value <= 1.0
  {
    Annotate(Take(Filter(users, NotCurrentUser), 4))
  }

  /** Every sidebar member in the order the users are listed: when fewer than four other
      users exist, all of them appear. */
  lemma PodMembersKeepAllWhenFew(users: seq<User>)
    requires Count(users, NotCurrentUser) <= 4
    ensures |PodMembers(users)| == Count(users, NotCurrentUser)
    ensures forall i :: 0 <= i < |PodMembers(users)| ==>
      PodMembers(users)[i].user == Filter(users, NotCurrentUser)[i]
  {}

  /** Users listed after the fourth other user never reach the sidebar. */
  lemma PodMembersIgnoreLaterUsers(users: seq<User>, more: seq<User>)
    requires Count(users, NotCurrentUser) >= 4
    ensures PodMembers(users + more) == PodMembers(users)
  {
    FilterConcat(users, more, NotCurrentUser);
    var f := Filter(users, NotCurrentUser);
    assert Take(f + Filter(more, NotCurrentUser), 4) == Take(f, 4);
  }

  /** Scoring in the sidebar never takes the throwing path: the signed-in user's coaching
      style and availability are not names inherited from `Object.prototype`. */
  lemma SidebarScoringNeverThrows(member: Option<Prefs>)
    ensures ScoreChecked(Some(CurrentPrefs), member) == Success(Score(Some(CurrentPrefs), member))
  {}

  /** The sidebar as written: `podMembers` is computed during render, above the `const`
      that holds `calculateMemberCompatibility`, so scoring a shown member who has
      preferences reads that constant before it is initialised and throws a
      ReferenceError; members without preferences never reach the call. */
  function PodMembersAsWritten(users: seq<User>): (r: Result<seq<MemberView>>)
    ensures r.Failure? <==> SomeoneHasPrefs(Take(Filter(users, NotCurrentUser), 4))
    ensures r.Success? ==> r.value == PodMembers(users)
    ensures r.Success? ==> forall i :: 0 <= i < |r.value| ==> r.value[i].compatibilityScore.None?
  {
    if SomeoneHasPrefs(Take(Filter(users, NotCurrentUser), 4)) then
      Failure("ReferenceError: Cannot access 'calculateMemberCompatibility' before initialization")
    else Success(PodMembers(users))
  }

  predicate SomeoneHasPrefs(us: seq<User>) {
    exists i :: 0 <= i < |us| && us[i].prefs.Some?
  }

  /** Concretely: a single other user with preferences crashes the feed as written, where
      the intended sidebar lists that user with a score. */
  lemma MemberWithPrefsCrashesFeed()
    ensures var users := [User(2, Num(2), "Sarah", Some(CurrentPrefs))];
      && PodMembersAsWritten(users).Failure?
      && |PodMembers(users)| == 1
      && PodMembers(users)[0].compatibilityScore.Some?
  {
    var users := [User(2, Num(2), "Sarah", Some(CurrentPrefs))];
    assert Filter(users, NotCurrentUser) == users by {
      FilterSingle(users[0], NotCurrentUser);
    }
    assert Take(users, 4) == users;
  }

  // ---------------------------------------------------------------- reactions

  /** The signed-in user's own reaction of this kind on this update. */
  predicate OwnReaction(r: Reaction, updateId: Value, kind: string) {
    r.updateId == updateId && r.userId == Str("1") && r.kind == kind
  }

  /** The page state a handler leaves behind, and the error banner it may raise. */
  datatype ReactionState = ReactionState(reactions: seq<Reaction>, error: Option<string>)

  /** `handleReaction(updateId, type)`: if the signed-in user already reacted this way,
      every reaction with that reaction's Id is removed; otherwise the reaction the store
      creates (with Id `newId`) is appended. When the store call throws (`storeOk` false)
      the list is kept and the error banner is set. */
  function HandleReaction(rs: seq<Reaction>, updateId: Value, kind: string, newId: int, storeOk: bool)
    : (r: ReactionState)
    ensures !storeOk ==> r == ReactionState(rs, Some("Failed to update reaction"))
    ensures storeOk && Find(rs, (x: Reaction) => OwnReaction(x, updateId, kind)).Some? ==>
      var gone := Find(rs, (x: Reaction) => OwnReaction(x, updateId, kind)).value.Id;
      && r.error.None?
      && (forall i :: 0 <= i < |r.reactions| ==> r.reactions[i].Id != gone && r.reactions[i] in rs)
      && (forall i :: 0 <= i < |rs| && rs[i].Id != gone ==> rs[i] in r.reactions)
      && |r.reactions| < |rs|
      && r.reactions == Filter(rs, IdIsNot(gone))
    ensures storeOk && Find(rs, (x: Reaction) => OwnReaction(x, updateId, kind)).None? ==>
      && r.error.None?
      && r.reactions == rs + [Reaction(newId, updateId, Str("1"), kind)]
  {
    if !storeOk then ReactionState(rs, Some("Failed to update reaction"))
    else
      match Find(rs, (x: Reaction) => OwnReaction(x, updateId, kind))
      case Some(existing) =>
        assert existing in rs && existing.Id == existing.Id;
        var kept := Filter(rs, IdIsNot(existing.Id));
        assert |kept| < |rs| by {
          FilterDropsOne(rs, existing);
        }
        ReactionState(kept, None)
      case None =>
        ReactionState(rs + [Reaction(newId, updateId, Str("1"), kind)], None)
  }

  /** `r => r.Id !== id`: the test the removal filters with. */
  function IdIsNot(id: int): Reaction -> bool {
    (x: Reaction) => x.Id != id
  }

  lemma {:induction false} FilterDropsOne(rs: seq<Reaction>, gone: Reaction)
    requires gone in rs
    ensures |Filter(rs, IdIsNot(gone.Id))| < |rs|
  {
    if rs[0] != gone {
      FilterDropsOne(rs[1..], gone);
    }
    assert Filter(rs, IdIsNot(gone.Id))
        == (if rs[0].Id != gone.Id then [rs[0]] else []) + Filter(rs[1..], IdIsNot(gone.Id));
  }

  /** Toggling twice restores the list: when the user had not reacted this way and the
      store's new Id is fresh, the second toggle removes exactly the reaction the first added. */
  lemma ToggleTwiceRestores(rs: seq<Reaction>, updateId: Value, kind: string, newId: int, laterId: int)
    requires forall i :: 0 <= i < |rs| ==> !OwnReaction(rs[i], updateId, kind)
    requires forall i :: 0 <= i < |rs| ==> rs[i].Id != newId
    ensures HandleReaction(HandleReaction(rs, updateId, kind, newId, true).reactions, updateId, kind, laterId, true)
      == ReactionState(rs, None)
  {
    var added := Reaction(newId, updateId, Str("1"), kind);
    var once := rs + [added];
    assert HandleReaction(rs, updateId, kind, newId, true).reactions == once;
    var p := (x: Reaction) => OwnReaction(x, updateId, kind);
    assert FindIndex(once, p) == |rs| by {
      assert p(once[|rs|]);
      assert forall j :: 0 <= j < |rs| ==> once[j] == rs[j];
    }
    var q := IdIsNot(newId);
    FilterConcat(rs, [added], q);
    FilterAll(rs, q);
    assert Filter([added], q) == [];
  }

  // ---------------------------------------------------------------- challenge votes

  /** A vote cast by the signed-in user (votes carry the numeric Id). */
  predicate ByCurrentUser(v: Vote) {
    v.userId == Num(CurrentUserId)
  }

  /** The votes after the signed-in user votes `voteType`: each of the user's votes is
      rewritten in place, or a new vote is appended when there is none. */
  function CastVote(votes: seq<Vote>, voteType: string, now: Value): (r: seq<Vote>)
    ensures Any(votes, ByCurrentUser) ==>
      && |r| == |votes|
      && (forall i :: 0 <= i < |votes| && ByCurrentUser(votes[i]) ==> r[i] == Vote(votes[i].userId, voteType, now))
      && (forall i :: 0 <= i < |votes| && !ByCurrentUser(votes[i]) ==> r[i] == votes[i])
    ensures !Any(votes, ByCurrentUser) ==> r == votes + [Vote(Num(CurrentUserId), voteType, now)]
  {
    if Find(votes, ByCurrentUser).Some? then
      seq(|votes|, i requires 0 <= i < |votes| =>
        if ByCurrentUser(votes[i]) then Vote(votes[i].userId, voteType, now) else votes[i])
    else votes + [Vote(Num(CurrentUserId), voteType, now)]
  }

  /** The signed-in user never ends up with more votes than before unless they had none,
      in which case they have exactly one. */
  lemma {:induction false} CastVoteKeepsOneVote(votes: seq<Vote>, voteType: string, now: Value)
    ensures Count(CastVote(votes, voteType, now), ByCurrentUser)
         == if Count(votes, ByCurrentUser) == 0 then 1 else Count(votes, ByCurrentUser)
  {
    var r := CastVote(votes, voteType, now);
    if Any(votes, ByCurrentUser) {
      SameOwnersSameCount(votes, r);
      var i :| 0 <= i < |votes| && ByCurrentUser(votes[i]);
      assert votes[i] in Filter(votes, ByCurrentUser);
    } else {
      FilterConcat(votes, [Vote(Num(CurrentUserId), voteType, now)], ByCurrentUser);
      NoneKept(votes);
    }
  }

  lemma {:induction false} NoneKept(votes: seq<Vote>)
    requires !Any(votes, ByCurrentUser)
    ensures Filter(votes, ByCurrentUser) == []
  {
    if votes != [] {
      NoneKept(votes[1..]);
    }
  }

  /** Two vote lists that agree position by position on who voted count the user's votes alike. */
  lemma {:induction false} SameOwnersSameCount(a: seq<Vote>, b: seq<Vote>)
    requires |a| == |b|
    requires forall i :: 0 <= i < |a| ==> (ByCurrentUser(a[i]) <==> ByCurrentUser(b[i]))
    ensures Count(a, ByCurrentUser) == Count(b, ByCurrentUser)
  {
    if a != [] {
      SameOwnersSameCount(a[1..], b[1..]);
    }
  }

  /** The challenges, the toast the handler shows, after a vote. */
  datatype VoteState = VoteState(challenges: seq<Challenge>, toast: string)

  /** `handleChallengeVote(challengeId, voteType)`: an unknown challenge only raises a
      toast; otherwise the store update carries the challenge with the user's vote
      replaced or added, and every local challenge with that Id is swapped for the
      updated one. A throwing store (`storeOk` false) leaves the list as it was. */
  function HandleChallengeVote(cs: seq<Challenge>, challengeId: int, voteType: string, now: Value, storeOk: bool)
    : (r: VoteState)
    ensures Find(cs, (c: Challenge) => c.Id == challengeId).None? ==>
      r == VoteState(cs, "Challenge not found")
    ensures !storeOk ==> r.challenges == cs
    ensures |r.challenges| == |cs|
    ensures forall i :: 0 <= i < |cs| && cs[i].Id != challengeId ==> r.challenges[i] == cs[i]
    ensures storeOk && Find(cs, (c: Challenge) => c.Id == challengeId).Some? ==>
      var ch := Find(cs, (c: Challenge) => c.Id == challengeId).value;
      && r.toast == (if Any(ch.votes, ByCurrentUser) then "Vote updated successfully!" else "Vote cast successfully!")
      && forall i :: 0 <= i < |cs| && cs[i].Id == challengeId ==>
           r.challenges[i] == ch.(votes := CastVote(ch.votes, voteType, now))
  {
    match Find(cs, (c: Challenge) => c.Id == challengeId)
    case None => VoteState(cs, "Challenge not found")
    case Some(ch) =>
      if !storeOk then VoteState(cs, "Failed to cast vote. Please try again.")
      else
        var updated := ch.(votes := CastVote(ch.votes, voteType, now));
        var toast := if Find(ch.votes, ByCurrentUser).Some? then "Vote updated successfully!" else "Vote cast successfully!";
        VoteState(seq(|cs|, i requires 0 <= i < |cs| => if cs[i].Id == challengeId then updated else cs[i]), toast)
  }

  /** Voting through the feed never gives the signed-in user a second vote on the
      challenge: afterwards they hold exactly one vote unless they already held several. */
  lemma VoteNeverAddsSecondVote(cs: seq<Challenge>, challengeId: int, voteType: string, now: Value, i: int)
    requires 0 <= i < |cs| && cs[i].Id == challengeId
    requires Count(Find(cs, (c: Challenge) => c.Id == challengeId).value.votes, ByCurrentUser) <= 1
    ensures Count(HandleChallengeVote(cs, challengeId, voteType, now, true).challenges[i].votes, ByCurrentUser) == 1
  {
    var ch := Find(cs, (c: Challenge) => c.Id == challengeId).value;
    CastVoteKeepsOneVote(ch.votes, voteType, now);
  }
}
