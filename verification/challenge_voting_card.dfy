/** The weekly challenge card: which challenge it shows, the signed-in user's vote, the
    per-option tally with rounded percentages, and what a vote click hands to the page. */
module ChallengeVotingCard {
  import opened Wrappers
  import opened Js
  import opened Seqs
  import opened Arith
  import opened Entities
  import PodFeed

  predicate IsActive(c: Challenge) {
    c.status == "active"
  }

  /** The votes of one option type. */
  function OfType(kind: string): Vote -> bool {
    (v: Vote) => v.voteType == kind
  }

  /** One row of `voteResults`: the option, its vote count and its rounded share. */
  datatype OptionResult = OptionResult(option: ChallengeOption, votes: nat, percentage: nat)

  /** `activeChallenge.options.map(...)`: one row per option, in option order. */
  function Tally(options: seq<ChallengeOption>, votes: seq<Vote>): (r: seq<OptionResult>)
    ensures |r| == |options|
    ensures forall i :: 0 <= i < |options| ==>
      && r[i].option == options[i]
      && r[i].votes == Count(votes, OfType(options[i].kind))
      && r[i].percentage <= 100
      && (|votes| > 0 ==>
            r[i].percentage == ((100 * r[i].votes) as real / |votes| as real + 0.5).Floor)
      && (|votes| == 0 ==> r[i].percentage == 0)
  {
    if options == [] then []
    else
      var n := Count(votes, OfType(options[0].kind));
      PercentFacts(n, |votes|);
      [OptionResult(options[0], n, RoundPercent(n, |votes|))] + Tally(options[1..], votes)
  }

  lemma PercentFacts(n: nat, total: nat)
    requires n <= total
    ensures RoundPercent(n, total) <= 100
    ensures total > 0 ==> RoundPercent(n, total) == ((100 * n) as real / total as real + 0.5).Floor
  {
    RoundPercentBounds(n, total);
    if total > 0 {
      RoundPercentIsMathRound(n, total);
    }
  }

  /** What the card renders. */
  datatype CardView =
    | NoActiveChallenge
    | Voting(challengeId: int, totalVotes: nat, userVote: Option<Vote>, results: seq<OptionResult>)

  /** `challenges[k]` is the first active challenge, the one `challenges.find` returns. */
  predicate FirstActive(challenges: seq<Challenge>, k: int) {
    0 <= k < |challenges| && IsActive(challenges[k]) && forall j :: 0 <= j < k ==> !IsActive(challenges[j])
  }

  /** The card for a challenge list and the signed-in user's numeric Id. */
  function Card(challenges: seq<Challenge>, currentUserId: int): (r: CardView)
    ensures r.NoActiveChallenge? <==> forall i :: 0 <= i < |challenges| ==> !IsActive(challenges[i])
    ensures r.Voting? ==>
      exists k :: FirstActive(challenges, k)
        && r.challengeId == challenges[k].Id
        && r.totalVotes == |challenges[k].votes|
        && r.results == Tally(challenges[k].options, challenges[k].votes)
        && (r.userVote.None? <==>
              forall j :: 0 <= j < |challenges[k].votes| ==> challenges[k].votes[j].userId != Num(currentUserId))
        && (r.userVote.Some? ==> FirstVoteBy(challenges[k].votes, currentUserId, r.userVote.value))
  {
    var k := FindIndex(challenges, IsActive);
    if k == -1 then NoActiveChallenge
    else
      var c := challenges[k];
      assert FirstActive(challenges, k);
      Voting(c.Id, |c.votes|, UserVote(c.votes, currentUserId), Tally(c.options, c.votes))
  }

  function CastBy(userId: int): Vote -> bool {
    (v: Vote) => v.userId == Num(userId)
  }

  /** `v` is the first vote in `votes` cast by `userId`. */
  predicate FirstVoteBy(votes: seq<Vote>, userId: int, v: Vote) {
    exists m :: 0 <= m < |votes| && votes[m] == v && v.userId == Num(userId)
      && forall j :: 0 <= j < m ==> votes[j].userId != Num(userId)
  }

  /** `votes.find(v => v.userId === currentUser.Id)`. */
  function UserVote(votes: seq<Vote>, userId: int): (r: Option<Vote>)
    ensures r.None? <==> forall j :: 0 <= j < |votes| ==> votes[j].userId != Num(userId)
    ensures r.Some? ==> FirstVoteBy(votes, userId, r.value)
  {
    var m := FindIndex(votes, CastBy(userId));
    if m == -1 then None else Some(votes[m])
  }

  /** After the signed-in user votes through the feed, the card shows that vote as theirs,
      and the total grows by one exactly when it is their first vote. */
  lemma VotedCardShowsVote(c: Challenge, voteType: string, now: Value)
    requires IsActive(c)
    ensures var view := Card([c.(votes := PodFeed.CastVote(c.votes, voteType, now))], PodFeed.CurrentUserId);
      && view.Voting?
      && view.userVote.Some?
      && view.userVote.value.voteType == voteType
      && view.totalVotes == |c.votes| + (if Any(c.votes, PodFeed.ByCurrentUser) then 0 else 1)
  {
    var r := PodFeed.CastVote(c.votes, voteType, now);
    var c' := c.(votes := r);
    assert FindIndex([c'], IsActive) == 0;
    assert Card([c'], PodFeed.CurrentUserId)
        == Voting(c.Id, |r|, UserVote(r, PodFeed.CurrentUserId), Tally(c.options, r));
    CastVoteShowsOnCard(c.votes, voteType, now);
  }

  /** The vote the card finds for the user after `CastVote` has the type just chosen. */
  lemma CastVoteShowsOnCard(votes: seq<Vote>, voteType: string, now: Value)
    ensures var u := UserVote(PodFeed.CastVote(votes, voteType, now), PodFeed.CurrentUserId);
      u.Some? && u.value.voteType == voteType
  {
    var r := PodFeed.CastVote(votes, voteType, now);
    var own := Vote(Num(PodFeed.CurrentUserId), voteType, now);
    if Any(votes, PodFeed.ByCurrentUser) {
      var i :| 0 <= i < |votes| && PodFeed.ByCurrentUser(votes[i]);
      assert r[i].userId == Num(PodFeed.CurrentUserId);
    } else {
      assert r[|votes|] == own;
    }
    var u := UserVote(r, PodFeed.CurrentUserId);
    var m :| 0 <= m < |r| && r[m] == u.value && r[m].userId == Num(PodFeed.CurrentUserId)
      && forall j :: 0 <= j < m ==> r[j].userId != Num(PodFeed.CurrentUserId);
  }

  /** `handleVote(type)`: the arguments handed to `onVote`, or nothing when no challenge is
      shown. The card's own tally is not touched; only the page's state changes. */
  function VoteClick(view: CardView, voteType: string): (r: Option<(int, string)>)
    ensures r.Some? <==> view.Voting?
    ensures r.Some? ==> r.value.0 == view.challengeId && r.value.1 == voteType
  {
    match view
    case NoActiveChallenge => None
    case Voting(id, _, _, _) => Some((id, voteType))
  }

  // ---------------------------------------------------------------- the sum of the tally

  function SumVotes(rs: seq<OptionResult>): nat {
    if rs == [] then 0 else rs[0].votes + SumVotes(rs[1..])
  }

  /** How many options carry this type. */
  function Hits(options: seq<ChallengeOption>, kind: string): nat {
    if options == [] then 0 else (if options[0].kind == kind then 1 else 0) + Hits(options[1..], kind)
  }

  predicate DistinctKinds(options: seq<ChallengeOption>) {
    forall i, j :: 0 <= i < j < |options| ==> options[i].kind != options[j].kind
  }

  lemma {:induction false} CountCons(v: Vote, rest: seq<Vote>, kind: string)
    ensures Count([v] + rest, OfType(kind)) == (if v.voteType == kind then 1 else 0) + Count(rest, OfType(kind))
  {
    assert ([v] + rest)[1..] == rest;
  }

  lemma {:induction false} TallyCons(options: seq<ChallengeOption>, v: Vote, rest: seq<Vote>)
    ensures SumVotes(Tally(options, [v] + rest)) == SumVotes(Tally(options, rest)) + Hits(options, v.voteType)
  {
    if options != [] {
      CountCons(v, rest, options[0].kind);
      TallyCons(options[1..], v, rest);
    }
  }

  lemma {:induction false} TallyEmpty(options: seq<ChallengeOption>)
    ensures SumVotes(Tally(options, [])) == 0
  {
    if options != [] {
      TallyEmpty(options[1..]);
    }
  }

  lemma {:induction false} HitsAbsent(options: seq<ChallengeOption>, kind: string)
    requires forall i :: 0 <= i < |options| ==> options[i].kind != kind
    ensures Hits(options, kind) == 0
  {
    if options != [] {
      HitsAbsent(options[1..], kind);
    }
  }

  /** With distinct option types a vote matches at most one option, and exactly one when
      its type is among the options. */
  lemma {:induction false} HitsDistinct(options: seq<ChallengeOption>, kind: string)
    requires DistinctKinds(options)
    ensures Hits(options, kind) <= 1
    ensures (exists i :: 0 <= i < |options| && options[i].kind == kind) ==> Hits(options, kind) == 1
  {
    if options != [] {
      HitsDistinct(options[1..], kind);
      if options[0].kind == kind {
        HitsAbsent(options[1..], kind);
      } else if exists i :: 0 <= i < |options| && options[i].kind == kind {
        var i :| 0 <= i < |options| && options[i].kind == kind;
        assert options[1..][i - 1].kind == kind;
      }
    }
  }

  /** The option counts add up to at most the total number of votes when the option types
      are distinct, and to exactly the total when, in addition, every vote names an option. */
  lemma {:induction false} TallySumBounded(options: seq<ChallengeOption>, votes: seq<Vote>)
    requires DistinctKinds(options)
    ensures SumVotes(Tally(options, votes)) <= |votes|
    ensures (forall j :: 0 <= j < |votes| ==> exists i :: 0 <= i < |options| && options[i].kind == votes[j].voteType)
      ==> SumVotes(Tally(options, votes)) == |votes|
  {
    if votes == [] {
      TallyEmpty(options);
    } else {
      assert votes == [votes[0]] + votes[1..];
      TallyCons(options, votes[0], votes[1..]);
      HitsDistinct(options, votes[0].voteType);
      TallySumBounded(options, votes[1..]);
    }
  }

  /** Repeated option types count the same votes twice, so the rows can add up to more
      than the total. */
  lemma RepeatedKindsOvercount()
    ensures var options := [ChallengeOption("run", "Run"), ChallengeOption("run", "Jog")];
            var votes := [Vote(Num(1), "run", Null)];
            SumVotes(Tally(options, votes)) == 2 > |votes|
  {
    var options := [ChallengeOption("run", "Run"), ChallengeOption("run", "Jog")];
    var votes := [Vote(Num(1), "run", Null)];
    assert votes == [votes[0]] + [];
    TallyCons(options, votes[0], []);
    TallyEmpty(options);
  }
}
